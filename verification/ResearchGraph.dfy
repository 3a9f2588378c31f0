/** Research graph queries: one fingerprint per query, and results whose references resolve. */
module ResearchGraph {
  import opened Json
  import opened Sequences
  import opened Unicode
  import opened Decimal
  import opened Identity
  import opened CanonicalForm
  import opened CanonicalPrinters
  import opened CanonicalAgreement
  import CanonicalReader
  import CanonicalText

  const MAX_DEPTH := 5
  const MAX_SEEDS := 20
  const MAX_FILTERS := 20
  const MAX_NODES := 500
  const MAX_EDGES := 1_000

  const DIRECTIONS: set<string> := {"outgoing", "incoming", "both"}

  const OBJECT_KINDS: set<string> := {"COU", "REG", "ORG", "IND", "CON", "CND", "ICH"}

  datatype Filter = Filter(relationType: string, direction: string)

  datatype Request = Request(
    asOf: string, seeds: seq<string>, filters: seq<Filter>, maxDepth: int, chainId: Option<string>, nodeBudget: int, edgeBudget: int)

  /** The request as it is hashed: the instant written anew, seeds and filters sorted. */
  datatype Normalized = Normalized(
    asOf: string, seeds: seq<string>, filters: seq<Filter>, maxDepth: nat, chainId: Option<string>, nodeBudget: nat, edgeBudget: nat)

  /** Taken from outside: reading an RFC 3339 time with offset zero, writing one, and the digest. */
  datatype Rules = Rules(parseUtc: string -> Option<int>, format: int -> string, digest: seq<Byte> -> string)

  // ---- validation ----

  predicate IsObjectID(id: string) { exists kind | kind in OBJECT_KINDS :: Is(id, kind) }

  function Trim(f: Filter): Filter { f.(relationType := TrimSpace(f.relationType)) }

  function Types(filters: seq<Filter>): (t: seq<string>)
    ensures |t| == |filters|
  {
    seq(|filters|, i requires 0 <= i < |filters| => TrimSpace(filters[i].relationType))
  }

  predicate ValidFilter(f: Filter) { TrimSpace(f.relationType) != "" && f.direction in DIRECTIONS }

  predicate ValidSeeds(seeds: seq<string>) { 1 <= |seeds| <= MAX_SEEDS && (forall id | id in seeds :: IsObjectID(id)) && Distinct(seeds) }

  predicate ValidFilters(filters: seq<Filter>) {
    1 <= |filters| <= MAX_FILTERS && (forall f | f in filters :: ValidFilter(f)) && Distinct(Types(filters))
  }

  predicate ValidRequest(r: Rules, q: Request) {
    && r.parseUtc(q.asOf).Some? && ValidSeeds(q.seeds) && ValidFilters(q.filters)
    && 1 <= q.maxDepth <= MAX_DEPTH && 1 <= q.nodeBudget <= MAX_NODES && 1 <= q.edgeBudget <= MAX_EDGES
    && (q.chainId.Some? ==> Is(q.chainId.value, "ICH"))
  }

  function Sorted(keys: seq<string>): (s: seq<string>)
    ensures |s| == |keys| && forall k :: k in s <==> k in keys
  {
    SortSlice(Utf8Order, keys)
  }

  function FilterOf(filters: seq<Filter>, relationType: string): Filter
    requires relationType in Types(filters)
  {
    if TrimSpace(filters[0].relationType) == relationType then Trim(filters[0])
    else
      assert Types(filters)[1..] == Types(filters[1..]);
      FilterOf(filters[1..], relationType)
  }

  function SortedFilters(filters: seq<Filter>): (s: seq<Filter>)
    ensures |s| == |filters|
  {
    var keys := Sorted(Types(filters));
    seq(|keys|, i requires 0 <= i < |keys| => assert keys[i] in keys; FilterOf(filters, keys[i]))
  }

  function Normalize(r: Rules, q: Request): Normalized
    requires ValidRequest(r, q)
  {
    Normalized(r.format(r.parseUtc(q.asOf).value), Sorted(q.seeds), SortedFilters(q.filters), q.maxDepth, q.chainId, q.nodeBudget, q.edgeBudget)
  }

  lemma TailTypes(filters: seq<Filter>)
    requires filters != []
    ensures Types(filters)[1..] == Types(filters[1..])
    ensures Distinct(Types(filters)) ==> Distinct(Types(filters[1..]))
  {
    hide TrimSpace;
    assert Types(filters)[1..] == Types(filters[1..]);
    forall m, n | Distinct(Types(filters)) && 0 <= m < n < |filters| - 1 ensures Types(filters[1..])[m] != Types(filters[1..])[n] {
      assert Types(filters)[m + 1] != Types(filters)[n + 1];
    }
  }

  lemma FilterOfTail(filters: seq<Filter>, t: string)
    requires filters != [] && t in Types(filters[1..]) && TrimSpace(filters[0].relationType) != t
    ensures t in Types(filters) && FilterOf(filters, t) == FilterOf(filters[1..], t)
  {
    hide TrimSpace;
    TailTypes(filters);
    assert t in Types(filters)[1..];
  }

  lemma {:induction false} FilterFound(filters: seq<Filter>, i: nat)
    requires i < |filters| && Distinct(Types(filters))
    ensures TrimSpace(filters[i].relationType) in Types(filters) && FilterOf(filters, TrimSpace(filters[i].relationType)) == Trim(filters[i])
  {
    hide TrimSpace;
    var t := TrimSpace(filters[i].relationType);
    assert Types(filters)[i] == t;
    if i > 0 {
      assert Types(filters)[0] != Types(filters)[i];
      hide FilterOf;
      TailTypes(filters);
      FilterFound(filters[1..], i - 1);
      FilterOfTail(filters, t);
    }
  }

  method ValidateSeeds(seeds: seq<string>) returns (ok: bool, sorted: seq<string>)
    ensures ok <==> ValidSeeds(seeds)
    ensures ok ==> sorted == Sorted(seeds)
  {
    hide IsObjectID;
    sorted := [];
    if |seeds| < 1 || |seeds| > MAX_SEEDS {
      return false, sorted;
    }
    var seen: set<string> := {};
    for i := 0 to |seeds|
      invariant (forall id | id in seeds[..i] :: IsObjectID(id)) && Distinct(seeds[..i])
      invariant forall k :: k in seen <==> k in seeds[..i]
    {
      assert seeds[i] in seeds && seeds[..i + 1] == seeds[..i] + [seeds[i]];
      if !IsObjectID(seeds[i]) || seeds[i] in seen {
        return false, sorted;
      }
      seen := seen + {seeds[i]};
    }
    assert seeds[..|seeds|] == seeds;
    return true, Sorted(seeds);
  }

  method ValidateFilters(filters: seq<Filter>) returns (ok: bool, sorted: seq<Filter>)
    ensures ok <==> ValidFilters(filters)
    ensures ok ==> sorted == SortedFilters(filters)
  {
    hide TrimSpace;
    sorted := [];
    if |filters| < 1 || |filters| > MAX_FILTERS {
      return false, sorted;
    }
    var byType: map<string, Filter> := map[];
    for i := 0 to |filters|
      invariant (forall f | f in filters[..i] :: ValidFilter(f)) && Distinct(Types(filters)[..i])
      invariant forall k :: k in byType <==> k in Types(filters)[..i]
      invariant forall j | 0 <= j < i :: TrimSpace(filters[j].relationType) in byType && byType[TrimSpace(filters[j].relationType)] == Trim(filters[j])
    {
      var f := Trim(filters[i]);
      assert filters[i] in filters && filters[..i + 1] == filters[..i] + [filters[i]];
      assert Types(filters)[..i + 1] == Types(filters)[..i] + [f.relationType];
      if !ValidFilter(filters[i]) {
        return false, sorted;
      }
      if f.relationType in byType {
        RepeatedType(filters, i);
        return false, sorted;
      }
      forall j | 0 <= j < i ensures TrimSpace(filters[j].relationType) != f.relationType { assert Types(filters)[..i][j] == TrimSpace(filters[j].relationType); }
      byType := byType[f.relationType := f];
    }
    assert filters[..|filters|] == filters && Types(filters)[..|filters|] == Types(filters);
    sorted := CollectFilters(filters, byType);
    ok := true;
  }

  /** The filters in the order of their sorted types. */
  method CollectFilters(filters: seq<Filter>, byType: map<string, Filter>) returns (sorted: seq<Filter>)
    requires Distinct(Types(filters))
    requires forall j | 0 <= j < |filters| :: TrimSpace(filters[j].relationType) in byType && byType[TrimSpace(filters[j].relationType)] == Trim(filters[j])
    ensures sorted == SortedFilters(filters)
  {
    hide TrimSpace, Sorted;
    var keys := Sorted(Types(filters));
    sorted := [];
    for i := 0 to |keys|
      invariant sorted == SortedFilters(filters)[..i]
    {
      assert keys[i] in Types(filters);
      ghost var j :| 0 <= j < |filters| && Types(filters)[j] == keys[i];
      FilterFound(filters, j);
      sorted := sorted + [byType[keys[i]]];
    }
  }

  lemma RepeatedType(filters: seq<Filter>, i: nat)
    requires i < |filters| && TrimSpace(filters[i].relationType) in Types(filters)[..i]
    ensures !Distinct(Types(filters))
  {
    var j :| 0 <= j < i && Types(filters)[..i][j] == TrimSpace(filters[i].relationType);
    assert Types(filters)[j] == Types(filters)[i];
  }

  /** `validateGraphSearchRequest`. */
  method ValidateRequest(r: Rules, q: Request) returns (result: Option<Normalized>)
    ensures result.Some? <==> ValidRequest(r, q)
    ensures result.Some? ==> result.value == Normalize(r, q)
  {
    hide ValidSeeds, ValidFilters, Sorted, SortedFilters;
    var asOf := r.parseUtc(q.asOf);
    if asOf.None? {
      return None;
    }
    var seedsOk, seeds := ValidateSeeds(q.seeds);
    if !seedsOk {
      return None;
    }
    var filtersOk, filters := ValidateFilters(q.filters);
    if !filtersOk {
      return None;
    }
    if q.maxDepth < 1 || q.maxDepth > MAX_DEPTH || q.nodeBudget < 1 || q.nodeBudget > MAX_NODES || q.edgeBudget < 1 || q.edgeBudget > MAX_EDGES {
      return None;
    }
    if q.chainId.Some? && !Is(q.chainId.value, "ICH") {
      return None;
    }
    return Some(Normalized(r.format(asOf.value), seeds, filters, q.maxDepth, q.chainId, q.nodeBudget, q.edgeBudget));
  }

  /** A query is accepted exactly within these limits; as it is hashed it holds the same seeds and the same trimmed filters,
    both in the order of their bytes, the instant written anew and everything else as sent. */
  lemma RequestAccepted(r: Rules, q: Request)
    ensures ValidRequest(r, q) <==>
              && r.parseUtc(q.asOf).Some?
              && 1 <= |q.seeds| <= 20
              && (forall i | 0 <= i < |q.seeds| ::
                    && (exists kind | kind in {"COU", "REG", "ORG", "IND", "CON", "CND", "ICH"} :: Is(q.seeds[i], kind))
                    && forall j | 0 <= j < i :: q.seeds[j] != q.seeds[i])
              && 1 <= |q.filters| <= 20
              && (forall i | 0 <= i < |q.filters| ::
                    && TrimSpace(q.filters[i].relationType) != "" && q.filters[i].direction in {"outgoing", "incoming", "both"}
                    && forall j | 0 <= j < i :: TrimSpace(q.filters[j].relationType) != TrimSpace(q.filters[i].relationType))
              && 1 <= q.maxDepth <= 5 && 1 <= q.nodeBudget <= 500 && 1 <= q.edgeBudget <= 1_000
              && (q.chainId.Some? ==> Is(q.chainId.value, "ICH"))
  {
    hide Is, TrimSpace;
    assert forall i | 0 <= i < |q.seeds| :: q.seeds[i] in q.seeds;
    assert forall i | 0 <= i < |q.filters| :: q.filters[i] in q.filters && Types(q.filters)[i] == TrimSpace(q.filters[i].relationType);
  }

  lemma RequestNormalized(r: Rules, q: Request)
    requires ValidRequest(r, q)
    ensures var n := Normalize(r, q);
            && n.asOf == r.format(r.parseUtc(q.asOf).value) && n.maxDepth == q.maxDepth && n.chainId == q.chainId
            && n.nodeBudget == q.nodeBudget && n.edgeBudget == q.edgeBudget
            && |n.seeds| == |q.seeds| && (forall id :: id in n.seeds <==> id in q.seeds)
            && (forall i, j | 0 <= i < j < |n.seeds| :: Precedes(Utf8(n.seeds[i]), Utf8(n.seeds[j])))
            && |n.filters| == |q.filters|
            && (forall i, j | 0 <= i < j < |n.filters| :: Precedes(Utf8(n.filters[i].relationType), Utf8(n.filters[j].relationType)))
            && (forall f | f in q.filters :: Filter(TrimSpace(f.relationType), f.direction) in n.filters)
            && forall g | g in n.filters :: exists f | f in q.filters :: g == Filter(TrimSpace(f.relationType), f.direction)
  {
    KeysInOrder(q.seeds);
    hide ValidSeeds, Sorted, Precedes, Utf8, TrimSpace;
    FiltersInOrder(q.filters);
    hide ValidFilters, SortedFilters;
  }

  lemma KeysInOrder(keys: seq<string>)
    requires Distinct(keys)
    ensures forall i, j | 0 <= i < j < |keys| :: Precedes(Utf8(Sorted(keys)[i]), Utf8(Sorted(keys)[j]))
  {
    SortAscending(Utf8Order, keys);
    AscendingInOrder(Utf8Order, Sorted(keys));
    hide Precedes, Less;
  }

  lemma FiltersInOrder(filters: seq<Filter>)
    requires ValidFilters(filters)
    ensures var s := SortedFilters(filters);
            && (forall i, j | 0 <= i < j < |s| :: Precedes(Utf8(s[i].relationType), Utf8(s[j].relationType)))
            && (forall f | f in filters :: Filter(TrimSpace(f.relationType), f.direction) in s)
            && forall g | g in s :: exists f | f in filters :: g == Filter(TrimSpace(f.relationType), f.direction)
  {
    var keys, s := Sorted(Types(filters)), SortedFilters(filters);
    KeysInOrder(Types(filters));
    hide Sorted, Precedes, Utf8, TrimSpace;
    forall i | 0 <= i < |keys|
      ensures s[i].relationType == keys[i] && exists f | f in filters :: s[i] == Filter(TrimSpace(f.relationType), f.direction)
    {
      assert keys[i] in keys;
      var k :| 0 <= k < |filters| && Types(filters)[k] == keys[i];
      FilterFound(filters, k);
      assert filters[k] in filters;
    }
    forall f | f in filters ensures Filter(TrimSpace(f.relationType), f.direction) in s {
      var k :| 0 <= k < |filters| && filters[k] == f;
      assert Types(filters)[k] in keys;
      var i :| 0 <= i < |keys| && keys[i] == Types(filters)[k];
      FilterFound(filters, k);
      assert s[i] == Trim(f);
    }
  }

  // ---- the fingerprint ----

  lemma NumberOf(n: nat)
    ensures NumberText(NatText(n))
  {
    assert forall i | 0 <= i < |NatText(n)| :: IsDigit(NatText(n)[i]);
  }

  function Number(n: nat): JSON {
    NumberOf(n);
    Num(NatText(n))
  }

  function FilterJson(f: Filter): JSON { Obj(map["relation_type" := Str(f.relationType), "direction" := Str(f.direction)]) }

  function SeedsJson(seeds: seq<string>): JSON { Arr(seq(|seeds|, i requires 0 <= i < |seeds| => Str(seeds[i]))) }

  function FiltersJson(filters: seq<Filter>): JSON {
    Arr(seq(|filters|, i requires 0 <= i < |filters| => FilterJson(filters[i])))
  }

  function ChainJson(chainId: Option<string>): map<string, JSON> {
    if chainId.Some? then map["industry_chain_id" := Str(chainId.value)] else map[]
  }

  function FieldsJson(n: Normalized): map<string, JSON> {
    map[
      "contract_version" := Str("research-graph-search.v2"),
      "stable_ordering_version" := Str("depth-seed-relation-endpoints-edge-id.v1"),
      "analysis_as_of" := Str(n.asOf),
      "seed_entity_ids" := SeedsJson(n.seeds),
      "relation_filters" := FiltersJson(n.filters),
      "max_depth" := Number(n.maxDepth), "node_budget" := Number(n.nodeBudget), "edge_budget" := Number(n.edgeBudget)]
  }

  /** The normalized request as the decoder returns it; an absent chain leaves its member out. */
  function NormalizedJson(n: Normalized): JSON { Obj(FieldsJson(n) + ChainJson(n.chainId)) }

  lemma ListsAccepted(n: Normalized)
    ensures Accepts(ResearchProfile(), SeedsJson(n.seeds)) && Accepts(ResearchProfile(), FiltersJson(n.filters))
  {
    forall i | 0 <= i < |n.filters| ensures Accepts(ResearchProfile(), FilterJson(n.filters[i])) {}
  }

  lemma JsonAccepted(n: Normalized)
    ensures Accepts(ResearchProfile(), NormalizedJson(n))
  {
    ListsAccepted(n);
    NumberIs(n.maxDepth);
    NumberIs(n.nodeBudget);
    NumberIs(n.edgeBudget);
    var fields := FieldsJson(n) + ChainJson(n.chainId);
    hide Number, SeedsJson, FiltersJson;
    forall k | k in fields ensures Accepts(ResearchProfile(), fields[k]) {}
  }

  lemma NumberIs(n: nat)
    ensures Number(n).Num? && Number(n).literal == NatText(n)
  {
  }

  ghost function HashInput(n: Normalized): seq<Byte> {
    JsonAccepted(n);
    Utf8(Printed(ResearchProfile(), NormalizedJson(n)))
  }

  /** The text that is hashed reads as one object: the two version texts of the contract and the parts of the normalized query
    under their names, the chain only when there is one. */
  lemma HashedDocument(n: Normalized) returns (text: string, doc: CanonicalText.Doc, f: map<string, JSON>)
    ensures HashInput(n) == Utf8(text) && CanonicalReader.ReadValue(text) == CanonicalReader.Value(doc, "")
    ensures CanonicalText.WellFormed(doc) && CanonicalReader.Content(doc) == Obj(f)
    ensures f.Keys == {"contract_version", "stable_ordering_version", "analysis_as_of", "seed_entity_ids", "relation_filters",
                       "max_depth", "node_budget", "edge_budget"} + if n.chainId.Some? then {"industry_chain_id"} else {}
    ensures f["contract_version"] == Str("research-graph-search.v2")
    ensures f["stable_ordering_version"] == Str("depth-seed-relation-endpoints-edge-id.v1")
    ensures f["analysis_as_of"] == Str(n.asOf) && (n.chainId.Some? ==> f["industry_chain_id"] == Str(n.chainId.value))
    ensures IsNumber(f["max_depth"], n.maxDepth) && IsNumber(f["node_budget"], n.nodeBudget) && IsNumber(f["edge_budget"], n.edgeBudget)
    ensures var seeds := f["seed_entity_ids"];
            seeds.Arr? && |seeds.items| == |n.seeds| && forall i | 0 <= i < |n.seeds| :: seeds.items[i] == Str(n.seeds[i])
    ensures var filters := f["relation_filters"];
            && filters.Arr? && |filters.items| == |n.filters|
            && forall i | 0 <= i < |n.filters| :: filters.items[i] ==
                 Obj(map["relation_type" := Str(n.filters[i].relationType), "direction" := Str(n.filters[i].direction)])
  {
    JsonAccepted(n);
    DocumentKeys(n);
    text := Printed(ResearchProfile(), NormalizedJson(n));
    CanonicalReader.ResearchValueBack(NormalizedJson(n));
    doc := CanonicalReader.ReadValue(text).doc;
    f := NormalizedJson(n).fields;
    DocumentFields(n);
    hide Printed, Accepts, NormalizedJson, CanonicalReader.ReadValue, CanonicalReader.Content, CanonicalText.WellFormed, Utf8, IsNumber;
  }

  predicate IsNumber(v: JSON, n: nat) { v.Num? && v.literal == NatText(n) }

  lemma DocumentKeys(n: Normalized)
    ensures NormalizedJson(n).Obj?
    ensures NormalizedJson(n).fields.Keys ==
            {"contract_version", "stable_ordering_version", "analysis_as_of", "seed_entity_ids", "relation_filters",
             "max_depth", "node_budget", "edge_budget"} + (if n.chainId.Some? then {"industry_chain_id"} else {})
  {
    hide Number, SeedsJson, FiltersJson;
  }

  lemma DocumentFields(n: Normalized)
    ensures NormalizedJson(n).Obj?
    ensures var f := NormalizedJson(n).fields;
            && f.Keys >= {"contract_version", "stable_ordering_version", "analysis_as_of", "seed_entity_ids", "relation_filters",
                          "max_depth", "node_budget", "edge_budget"} + (if n.chainId.Some? then {"industry_chain_id"} else {})
            && f["contract_version"] == Str("research-graph-search.v2")
            && f["stable_ordering_version"] == Str("depth-seed-relation-endpoints-edge-id.v1")
            && f["analysis_as_of"] == Str(n.asOf) && (n.chainId.Some? ==> f["industry_chain_id"] == Str(n.chainId.value))
            && IsNumber(f["max_depth"], n.maxDepth) && IsNumber(f["node_budget"], n.nodeBudget) && IsNumber(f["edge_budget"], n.edgeBudget)
            && f["seed_entity_ids"] == SeedsJson(n.seeds) && f["relation_filters"] == FiltersJson(n.filters)
  {
    NumberIs(n.maxDepth);
    NumberIs(n.nodeBudget);
    NumberIs(n.edgeBudget);
    hide Number, SeedsJson, FiltersJson;
  }

  method Fingerprint(r: Rules, n: Normalized) returns (digest: string)
    ensures digest == r.digest(HashInput(n))
  {
    JsonAccepted(n);
    var canonical := new Buffer();
    var accepted := WriteResearchJSON(canonical, NormalizedJson(n));
    hide Printed, Accepts, Utf8, NormalizedJson;
    assert [] + HashInput(n) == HashInput(n);
    return r.digest(canonical.bytes);
  }

  lemma NumbersDiffer(m: nat, n: nat)
    ensures Number(m) == Number(n) <==> m == n
  {
    NatTextValue(m);
    NatTextValue(n);
  }

  lemma SeedsDecide(a: seq<string>, b: seq<string>)
    ensures SeedsJson(a) == SeedsJson(b) <==> a == b
  {
    var x, y := SeedsJson(a).items, SeedsJson(b).items;
    if x == y {
      assert |a| == |b|;
      forall i | 0 <= i < |a| ensures a[i] == b[i] { assert x[i] == y[i]; }
    }
  }

  lemma FilterDecides(f: Filter, g: Filter)
    ensures FilterJson(f) == FilterJson(g) <==> f == g
  {
    var x, y := FilterJson(f).fields, FilterJson(g).fields;
    assert x["relation_type"] == Str(f.relationType) && y["relation_type"] == Str(g.relationType);
    assert x["direction"] == Str(f.direction) && y["direction"] == Str(g.direction);
  }

  lemma FiltersDecide(a: seq<Filter>, b: seq<Filter>)
    ensures FiltersJson(a) == FiltersJson(b) <==> a == b
  {
    hide FilterJson;
    var x, y := FiltersJson(a).items, FiltersJson(b).items;
    if x == y {
      assert |a| == |b|;
      forall i | 0 <= i < |a| ensures a[i] == b[i] {
        assert x[i] == y[i];
        FilterDecides(a[i], b[i]);
      }
    }
  }

  /** The JSON form of a normalized request determines it. */
  lemma JsonDecides(m: Normalized, n: Normalized)
    ensures NormalizedJson(m) == NormalizedJson(n) <==> m == n
  {
    if NormalizedJson(m) == NormalizedJson(n) {
      FixedFieldsDecide(m, n);
      ChainDecides(m, n);
    }
  }

  lemma ChainDecides(m: Normalized, n: Normalized)
    requires NormalizedJson(m) == NormalizedJson(n)
    ensures m.chainId == n.chainId
  {
    var x, y := NormalizedJson(m).fields, NormalizedJson(n).fields;
    hide Number, SeedsJson, FiltersJson;
    assert m.chainId.Some? == n.chainId.Some? by {
      assert m.chainId.Some? <==> "industry_chain_id" in x;
      assert n.chainId.Some? <==> "industry_chain_id" in y;
    }
    assert m.chainId.Some? ==> x["industry_chain_id"] == Str(m.chainId.value);
    assert n.chainId.Some? ==> y["industry_chain_id"] == Str(n.chainId.value);
  }

  lemma FixedField(n: Normalized, k: string)
    requires k in FieldsJson(n)
    ensures k in NormalizedJson(n).fields && NormalizedJson(n).fields[k] == FieldsJson(n)[k]
  {
    hide Number, SeedsJson, FiltersJson;
    assert k !in ChainJson(n.chainId);
  }

  lemma SameField(m: Normalized, n: Normalized, k: string)
    requires NormalizedJson(m) == NormalizedJson(n) && k in FieldsJson(m) && k in FieldsJson(n)
    ensures FieldsJson(m)[k] == FieldsJson(n)[k]
  {
    hide FieldsJson, NormalizedJson;
    FixedField(m, k);
    FixedField(n, k);
  }

  lemma FixedFieldsDecide(m: Normalized, n: Normalized)
    requires NormalizedJson(m) == NormalizedJson(n)
    ensures m.asOf == n.asOf && m.seeds == n.seeds && m.filters == n.filters
    ensures m.maxDepth == n.maxDepth && m.nodeBudget == n.nodeBudget && m.edgeBudget == n.edgeBudget
  {
    hide NormalizedJson, Number, SeedsJson, FiltersJson;
    SameField(m, n, "analysis_as_of");
    SameField(m, n, "seed_entity_ids");
    SameField(m, n, "relation_filters");
    SameField(m, n, "max_depth");
    SameField(m, n, "node_budget");
    SameField(m, n, "edge_budget");
    NumbersDiffer(m.maxDepth, n.maxDepth);
    NumbersDiffer(m.nodeBudget, n.nodeBudget);
    NumbersDiffer(m.edgeBudget, n.edgeBudget);
    SeedsDecide(m.seeds, n.seeds);
    FiltersDecide(m.filters, n.filters);
  }

  // ---- requests with the same meaning ----

  function Trimmed(filters: seq<Filter>): set<Filter> { set f | f in filters :: Trim(f) }

  /** The same instant, seeds and filters as sets, and the same limits. */
  predicate SameQuery(r: Rules, a: Request, b: Request) {
    && r.parseUtc(a.asOf) == r.parseUtc(b.asOf) && Elements(a.seeds) == Elements(b.seeds) && Trimmed(a.filters) == Trimmed(b.filters)
    && a.maxDepth == b.maxDepth && a.chainId == b.chainId && a.nodeBudget == b.nodeBudget && a.edgeBudget == b.edgeBudget
  }

  /** Different instants are written differently. */
  ghost predicate FaithfulTimes(r: Rules) { forall t, u :: r.format(t) == r.format(u) ==> t == u }

  lemma SortedDecides(a: seq<string>, b: seq<string>)
    requires Distinct(a) && Distinct(b)
    ensures Sorted(a) == Sorted(b) <==> Elements(a) == Elements(b)
  {
    SortAscending(Utf8Order, a);
    SortAscending(Utf8Order, b);
    if Elements(a) == Elements(b) {
      assert forall k :: k in a <==> k in Elements(b);
      SortedKeysUnique(Utf8Order, Sorted(a), Sorted(b));
    } else {
      hide Sorted;
      assert Sorted(a) == Sorted(b) ==> forall k :: k in a <==> k in Sorted(b);
    }
  }

  lemma InSorted(filters: seq<Filter>, f: Filter)
    requires Distinct(Types(filters))
    ensures f in SortedFilters(filters) <==> f in Trimmed(filters)
  {
    var keys, s := Sorted(Types(filters)), SortedFilters(filters);
    hide Sorted, TrimSpace;
    if f in s {
      var i :| 0 <= i < |s| && s[i] == f;
      assert keys[i] in Types(filters);
      var j :| 0 <= j < |filters| && Types(filters)[j] == keys[i];
      FilterFound(filters, j);
      assert filters[j] in filters;
    }
    if f in Trimmed(filters) {
      var g :| g in filters && Trim(g) == f;
      var j :| 0 <= j < |filters| && filters[j] == g;
      FilterFound(filters, j);
      assert f.relationType in keys;
      var i :| 0 <= i < |keys| && keys[i] == f.relationType;
      assert s[i] == f;
    }
  }

  lemma FiltersSortedDecide(a: seq<Filter>, b: seq<Filter>)
    requires Distinct(Types(a)) && Distinct(Types(b))
    ensures SortedFilters(a) == SortedFilters(b) <==> Trimmed(a) == Trimmed(b)
  {
    forall f ensures f in SortedFilters(a) <==> f in Trimmed(a) { InSorted(a, f); }
    forall f ensures f in SortedFilters(b) <==> f in Trimmed(b) { InSorted(b, f); }
    if Trimmed(a) == Trimmed(b) {
      SameTrimmed(a, b);
    }
    hide SortedFilters, Trimmed;
    if SortedFilters(a) == SortedFilters(b) {
      assert forall f :: f in Trimmed(a) <==> f in Trimmed(b);
    }
  }

  lemma TypeOfTrimmed(a: seq<Filter>, t: string)
    ensures t in Types(a) <==> exists f | f in Trimmed(a) :: f.relationType == t
  {
    hide TrimSpace;
    if t in Types(a) {
      var i :| 0 <= i < |a| && Types(a)[i] == t;
      assert a[i] in a;
      assert Trim(a[i]) in Trimmed(a);
    }
    if f :| f in Trimmed(a) && f.relationType == t {
      var g :| g in a && Trim(g) == f;
      var i :| 0 <= i < |a| && a[i] == g;
      assert Types(a)[i] == t;
    }
  }

  lemma SameTrimmed(a: seq<Filter>, b: seq<Filter>)
    requires Distinct(Types(a)) && Distinct(Types(b)) && Trimmed(a) == Trimmed(b)
    ensures SortedFilters(a) == SortedFilters(b)
  {
    var x, y := SortedFilters(a), SortedFilters(b);
    forall t ensures t in Elements(Types(a)) <==> t in Elements(Types(b)) {
      TypeOfTrimmed(a, t);
      TypeOfTrimmed(b, t);
    }
    assert Elements(Types(a)) == Elements(Types(b));
    SortedDecides(Types(a), Types(b));
    hide Sorted, TrimSpace;
    var keys := Sorted(Types(a));
    forall i | 0 <= i < |keys| ensures x[i] == y[i] {
      assert keys[i] in Types(a) && keys[i] in Types(b);
      var j :| 0 <= j < |a| && Types(a)[j] == keys[i];
      var k :| 0 <= k < |b| && Types(b)[k] == keys[i];
      FilterFound(a, j);
      FilterFound(b, k);
      assert a[j] in a && Trim(a[j]) in Trimmed(b);
      var g :| g in b && Trim(g) == Trim(a[j]);
      var m :| 0 <= m < |b| && b[m] == g;
      FilterFound(b, m);
    }
  }

  /** Two valid requests have the same hash input exactly when they ask the same question: order of seeds and
    filters and spaces around relation types do not matter, everything else does. */
  lemma FingerprintDecides(r: Rules, a: Request, b: Request)
    requires ValidRequest(r, a) && ValidRequest(r, b) && FaithfulTimes(r)
    ensures HashInput(Normalize(r, a)) == HashInput(Normalize(r, b)) <==> SameQuery(r, a, b)
  {
    var m, n := Normalize(r, a), Normalize(r, b);
    JsonAccepted(m);
    JsonAccepted(n);
    hide Accepts, Printed, NormalizedJson, Utf8, Trimmed, Sorted, SortedFilters, IsObjectID, TrimSpace, Is;
    ResearchHashInputDecides(NormalizedJson(m), NormalizedJson(n));
    JsonDecides(m, n);
    SortedDecides(a.seeds, b.seeds);
    FiltersSortedDecide(a.filters, b.filters);
    var t, u := r.parseUtc(a.asOf).value, r.parseUtc(b.asOf).value;
    assert r.format(t) == r.format(u) <==> t == u;
    assert r.parseUtc(a.asOf) == Some(t) && r.parseUtc(b.asOf) == Some(u);
  }

  // ---- results ----

  datatype Relation = Relation(source: string, target: string, relationType: string)

  datatype Membership = Membership(chainId: string, nodeId: string)

  datatype Edge = Edge(chainId: string, source: string, target: string, relationType: string)

  datatype Subgraph = Subgraph(
    entities: seq<string>, definitions: seq<string>, relations: seq<Relation>, chains: seq<string>,
    memberships: seq<Membership>, edges: seq<Edge>)

  /** Chains are entities, memberships join a chain of the result to an entity, relations and edges have defined
    types, and edges run between members of their own chain. */
  predicate Resolves(g: Subgraph) {
    && (forall c | c in g.chains :: c in g.entities)
    && (forall m | m in g.memberships :: m.chainId in g.chains && m.nodeId in g.entities)
    && (forall x | x in g.relations :: x.source in g.entities && x.target in g.entities && x.relationType in g.definitions)
    && forall e | e in g.edges :: e.relationType in g.definitions
         && Membership(e.chainId, e.source) in g.memberships && Membership(e.chainId, e.target) in g.memberships
  }

  function MemberText(chainId: string, nodeId: string): string { chainId + [NUL] + nodeId }

  /** Some membership is written as this pair is. */
  predicate TextListed(ms: seq<Membership>, chainId: string, nodeId: string) {
    exists m | m in ms :: MemberText(m.chainId, m.nodeId) == MemberText(chainId, nodeId)
  }

  /** What the check sees: pairs are compared by their joined text. */
  predicate ResolvesByText(g: Subgraph) {
    && (forall c | c in g.chains :: c in g.entities)
    && (forall m | m in g.memberships :: m.chainId in g.chains && m.nodeId in g.entities)
    && (forall x | x in g.relations :: x.source in g.entities && x.target in g.entities && x.relationType in g.definitions)
    && forall e | e in g.edges :: e.relationType in g.definitions
         && TextListed(g.memberships, e.chainId, e.source) && TextListed(g.memberships, e.chainId, e.target)
  }

  /** Entity identities carry no separator. */
  predicate NulFreeEntities(g: Subgraph) { forall id | id in g.entities :: NulFree(id) }

  /** On identities without the separator the check decides resolution. */
  lemma CheckDecides(g: Subgraph)
    requires NulFreeEntities(g)
    ensures ResolvesByText(g) <==> Resolves(g)
  {
    hide MemberText, NulFree, TextListed;
    if (forall c | c in g.chains :: c in g.entities) && forall m | m in g.memberships :: m.chainId in g.chains && m.nodeId in g.entities {
      forall e | e in g.edges ensures TextListed(g.memberships, e.chainId, e.source) <==> Membership(e.chainId, e.source) in g.memberships
                              ensures TextListed(g.memberships, e.chainId, e.target) <==> Membership(e.chainId, e.target) in g.memberships
      {
        MemberTextReads(g.memberships, e.chainId, e.source);
        MemberTextReads(g.memberships, e.chainId, e.target);
      }
    }
  }

  /** One member, and an edge of the chain `x` whose ends are `y`, the separator and `id`. */
  function Confused(es: seq<string>, id: string, x: string, y: string): Subgraph {
    var end := y + [NUL] + id;
    Subgraph(es, ["next"], [], [id], [Membership(id, id)], [Edge(x, end, end, "next")])
  }

  /** An identity with the separator inside lets an edge pass on the membership of another chain. */
  lemma SeparatorConfuses(es: seq<string>, id: string)
    requires id in es && !NulFree(id)
    ensures exists g: Subgraph :: g.entities == es && ResolvesByText(g) && !Resolves(g)
  {
    var k :| 0 <= k < |id| && id[k] == NUL;
    var x, y := id[..k], id[k + 1..];
    assert id == x + [NUL] + y;
    var g := Confused(es, id, x, y);
    var end := g.edges[0].source;
    assert MemberText(id, id) == MemberText(x, end) by {
      assert MemberText(x, end) == x + [NUL] + y + [NUL] + id;
    }
    assert g.memberships[0] == Membership(id, id);
    assert TextListed(g.memberships, x, end);
    assert g.edges[0] in g.edges && |x| != |id|;
    assert Membership(x, end) !in g.memberships;
  }

  /** For a list of entities the check decides resolution of every result if and only if no identity holds the separator. */
  lemma CheckRightIff(es: seq<string>)
    ensures (forall g: Subgraph | g.entities == es :: ResolvesByText(g) <==> Resolves(g)) <==> forall id | id in es :: NulFree(id)
  {
    if forall id | id in es :: NulFree(id) {
      forall g: Subgraph | g.entities == es ensures ResolvesByText(g) <==> Resolves(g) { CheckDecides(g); }
    } else {
      var id :| id in es && !NulFree(id);
      SeparatorConfuses(es, id);
    }
  }

  /** Canonical object identities meet the condition, so on them the check is right. */
  lemma CanonicalEntities(g: Subgraph)
    requires forall id | id in g.entities :: IsObjectID(id)
    ensures ResolvesByText(g) <==> Resolves(g)
  {
    forall id | id in g.entities ensures NulFree(id) {
      var kind :| kind in OBJECT_KINDS && Is(id, kind);
      CanonicalPlain(id, kind);
    }
    CheckDecides(g);
  }

  lemma MemberTextReads(ms: seq<Membership>, chainId: string, nodeId: string)
    requires forall m | m in ms :: NulFree(m.chainId) && NulFree(m.nodeId)
    ensures TextListed(ms, chainId, nodeId) <==> Membership(chainId, nodeId) in ms
  {
    hide MemberText, NulFree;
    forall m | m in ms ensures MemberText(m.chainId, m.nodeId) == MemberText(chainId, nodeId) <==> m == Membership(chainId, nodeId) {
      OneMemberText(m, chainId, nodeId);
    }
  }

  lemma OneMemberText(m: Membership, chainId: string, nodeId: string)
    requires NulFree(m.chainId) && NulFree(m.nodeId)
    ensures MemberText(m.chainId, m.nodeId) == MemberText(chainId, nodeId) <==> m == Membership(chainId, nodeId)
  {
    OnlySeparator(chainId, nodeId, m.chainId, m.nodeId, NUL);
  }

  method CheckChains(g: Subgraph) returns (ok: bool)
    ensures ok <==> forall c | c in g.chains :: c in g.entities
  {
    for i := 0 to |g.chains|
      invariant forall c | c in g.chains[..i] :: c in g.entities
    {
      assert g.chains[i] in g.chains && g.chains[..i + 1] == g.chains[..i] + [g.chains[i]];
      if g.chains[i] !in g.entities {
        return false;
      }
    }
    assert g.chains[..|g.chains|] == g.chains;
    ok := true;
  }

  method CheckMemberships(g: Subgraph) returns (ok: bool, members: set<string>)
    ensures ok <==> forall m | m in g.memberships :: m.chainId in g.chains && m.nodeId in g.entities
    ensures ok ==> forall t :: t in members <==> exists m | m in g.memberships :: MemberText(m.chainId, m.nodeId) == t
  {
    hide MemberText;
    members := {};
    for i := 0 to |g.memberships|
      invariant forall m | m in g.memberships[..i] :: m.chainId in g.chains && m.nodeId in g.entities
      invariant forall t :: t in members <==> exists m | m in g.memberships[..i] :: MemberText(m.chainId, m.nodeId) == t
    {
      var m := g.memberships[i];
      assert m in g.memberships && g.memberships[..i + 1] == g.memberships[..i] + [m];
      if m.chainId !in g.chains || m.nodeId !in g.entities {
        return false, members;
      }
      members := members + {MemberText(m.chainId, m.nodeId)};
    }
    assert g.memberships[..|g.memberships|] == g.memberships;
    ok := true;
  }

  /** `referencesResolve`. */
  method ReferencesResolve(g: Subgraph) returns (ok: bool)
    ensures ok <==> ResolvesByText(g)
  {
    hide MemberText, NulFree;
    ok := CheckChains(g);
    if !ok {
      return;
    }
    var members;
    ok, members := CheckMemberships(g);
    if !ok {
      return;
    }
    for i := 0 to |g.relations|
      invariant forall x | x in g.relations[..i] :: x.source in g.entities && x.target in g.entities && x.relationType in g.definitions
    {
      var x := g.relations[i];
      assert x in g.relations && g.relations[..i + 1] == g.relations[..i] + [x];
      if x.source !in g.entities || x.target !in g.entities || x.relationType !in g.definitions {
        return false;
      }
    }
    assert g.relations[..|g.relations|] == g.relations;
    for i := 0 to |g.edges|
      invariant forall e | e in g.edges[..i] :: e.relationType in g.definitions
                  && TextListed(g.memberships, e.chainId, e.source) && TextListed(g.memberships, e.chainId, e.target)
    {
      var e := g.edges[i];
      assert e in g.edges && g.edges[..i + 1] == g.edges[..i] + [e];
      assert TextListed(g.memberships, e.chainId, e.source) <==> MemberText(e.chainId, e.source) in members;
      assert TextListed(g.memberships, e.chainId, e.target) <==> MemberText(e.chainId, e.target) in members;
      if e.relationType !in g.definitions || MemberText(e.chainId, e.source) !in members || MemberText(e.chainId, e.target) !in members {
        return false;
      }
    }
    assert g.edges[..|g.edges|] == g.edges;
    ok := true;
  }
}
