/** Stock classifications: from one input file to master lists and links. */
module Classification {
  import opened Json
  import opened Sequences
  import opened Identity
  import CanonicalForm
  import CanonicalPrinters

  datatype Concept = Concept(code: string, name: string)

  datatype Row = Row(code: string, exchange: string, l1: string, l2: string, concepts: Option<seq<Concept>>, chains: Option<seq<string>>)

  datatype Source = Source(recordCount: int, universe: int, stocks: seq<Row>)

  datatype Industry = Industry(id: string, name: string, code: string, parent: Option<string>, path: seq<string>)

  datatype Master = Master(id: string, name: string)

  datatype Link = Link(id: string, stockId: string, targetId: string)

  datatype Publication = Publication(
    stockIds: seq<string>, industries: seq<Industry>, concepts: seq<Master>, chains: seq<Master>,
    industryLinks: seq<Link>, conceptLinks: seq<Link>, chainLinks: seq<Link>)

  /** Taken from outside: the name-based UUID generator and the digest of a name list. */
  datatype Rules = Rules(hash: string -> string, digest: seq<string> -> string)

  const EXCHANGES: set<string> := {"SH", "SZ", "BJ"}

  // ---- validation ----

  function Symbol(s: Row): string { s.code + "." + s.exchange }

  /** Nonblank and without space around it. */
  predicate Proper(s: string) { TrimSpace(s) == s && s != "" }

  predicate ProperConcept(c: Concept) { Proper(c.code) && Proper(c.name) }

  predicate DistinctCodes(concepts: seq<Concept>) { forall i, j | 0 <= i < j < |concepts| :: concepts[i].code != concepts[j].code }

  predicate SixDigits(code: string) { |code| == 6 && forall i | 0 <= i < 6 :: '0' <= code[i] <= '9' }

  predicate ValidConcepts(concepts: seq<Concept>) { (forall c | c in concepts :: ProperConcept(c)) && DistinctCodes(concepts) }

  predicate ValidChains(chains: seq<string>) { (forall c | c in chains :: Proper(c)) && Distinct(chains) }

  predicate ValidRow(s: Row) {
    && SixDigits(s.code) && s.exchange in EXCHANGES && Proper(s.l1) && Proper(s.l2)
    && s.concepts.Some? && s.chains.Some? && ValidConcepts(s.concepts.value) && ValidChains(s.chains.value)
  }

  function Symbols(stocks: seq<Row>): (k: seq<string>)
    ensures |k| == |stocks|
  {
    seq(|stocks|, i requires 0 <= i < |stocks| => Symbol(stocks[i]))
  }

  function ConceptsOf(s: Row): seq<Concept> { if s.concepts.Some? then s.concepts.value else [] }

  function ChainsOf(s: Row): seq<string> { if s.chains.Some? then s.chains.value else [] }

  function AllConcepts(stocks: seq<Row>): seq<Concept> {
    if stocks == [] then [] else AllConcepts(stocks[..|stocks| - 1]) + ConceptsOf(stocks[|stocks| - 1])
  }

  /** Codes and names of concepts are in bijection. */
  predicate Bijective(concepts: seq<Concept>) {
    forall c, d | c in concepts && d in concepts :: c.code == d.code <==> c.name == d.name
  }

  predicate ValidSource(s: Source) {
    && s.stocks != [] && s.recordCount == |s.stocks| && s.universe == |s.stocks|
    && (forall x | x in s.stocks :: ValidRow(x)) && Distinct(Symbols(s.stocks)) && Bijective(AllConcepts(s.stocks))
  }

  ghost predicate Recorded(concepts: seq<Concept>, codeNames: map<string, string>, nameCodes: map<string, string>) {
    && (forall c | c in concepts :: c.code in codeNames && codeNames[c.code] == c.name && c.name in nameCodes && nameCodes[c.name] == c.code)
    && (forall k | k in codeNames :: Concept(k, codeNames[k]) in concepts)
    && (forall k | k in nameCodes :: Concept(nameCodes[k], k) in concepts)
  }

  lemma BijectiveStep(before: seq<Concept>, c: Concept, codeNames: map<string, string>, nameCodes: map<string, string>)
    requires Bijective(before) && Recorded(before, codeNames, nameCodes)
    ensures Bijective(before + [c]) <==>
            (c.code in codeNames ==> codeNames[c.code] == c.name) && (c.name in nameCodes ==> nameCodes[c.name] == c.code)
    ensures Bijective(before + [c]) ==> Recorded(before + [c], codeNames[c.code := c.name], nameCodes[c.name := c.code])
  {
    var all := before + [c];
    assert c in all && forall d | d in before :: d in all;
    assert forall d :: d in all <==> d in before || d == c;
  }

  lemma BijectivePrefix(a: seq<Concept>, b: seq<Concept>)
    requires Bijective(a + b)
    ensures Bijective(a)
  {
    assert forall c | c in a :: c in a + b;
  }

  method CheckConcepts(before: seq<Concept>, concepts: seq<Concept>, codes: map<string, string>, names: map<string, string>)
    returns (ok: bool, codeNames: map<string, string>, nameCodes: map<string, string>)
    requires Bijective(before) && Recorded(before, codes, names)
    ensures ok <==> ValidConcepts(concepts) && Bijective(before + concepts)
    ensures ok ==> Recorded(before + concepts, codeNames, nameCodes)
  {
    hide Proper, Bijective, Recorded;
    codeNames, nameCodes := codes, names;
    var seen: set<string> := {};
    assert before + concepts[..0] == before;
    for i := 0 to |concepts|
      invariant forall c | c in concepts[..i] :: ProperConcept(c)
      invariant DistinctCodes(concepts[..i])
      invariant forall k :: k in seen <==> exists j | 0 <= j < i :: concepts[j].code == k
      invariant Bijective(before + concepts[..i]) && Recorded(before + concepts[..i], codeNames, nameCodes)
    {
      var c := concepts[i];
      assert c in concepts && concepts[..i + 1] == concepts[..i] + [c];
      assert before + concepts[..i + 1] == before + concepts[..i] + [c];
      BijectiveStep(before + concepts[..i], c, codeNames, nameCodes);
      if !Proper(c.code) || !Proper(c.name) || c.code in seen {
        return false, codeNames, nameCodes;
      }
      if (c.code in codeNames && codeNames[c.code] != c.name) || (c.name in nameCodes && nameCodes[c.name] != c.code) {
        if Bijective(before + concepts) { BijectiveUpTo(before, concepts, i + 1); }
        return false, codeNames, nameCodes;
      }
      codeNames := codeNames[c.code := c.name];
      nameCodes := nameCodes[c.name := c.code];
      seen := seen + {c.code};
    }
    assert concepts[..|concepts|] == concepts;
    ok := true;
  }

  lemma BijectiveUpTo(before: seq<Concept>, concepts: seq<Concept>, n: nat)
    requires n <= |concepts| && Bijective(before + concepts)
    ensures Bijective(before + concepts[..n])
  {
    assert before + concepts == before + concepts[..n] + concepts[n..];
    BijectivePrefix(before + concepts[..n], concepts[n..]);
  }

  method CheckChains(chains: seq<string>) returns (ok: bool)
    ensures ok <==> ValidChains(chains)
  {
    hide Proper;
    var seen: set<string> := {};
    for i := 0 to |chains|
      invariant forall c | c in chains[..i] :: Proper(c)
      invariant Distinct(chains[..i]) && forall c :: c in seen <==> c in chains[..i]
    {
      var c := chains[i];
      assert c in chains && chains[..i + 1] == chains[..i] + [c];
      if !Proper(c) || c in seen {
        return false;
      }
      seen := seen + {c};
    }
    assert chains[..|chains|] == chains;
    ok := true;
  }

  lemma ConceptsPrefix(stocks: seq<Row>, n: nat)
    requires n <= |stocks| && Bijective(AllConcepts(stocks))
    ensures Bijective(AllConcepts(stocks[..n]))
    decreases |stocks|
  {
    if n < |stocks| {
      var init := stocks[..|stocks| - 1];
      BijectivePrefix(AllConcepts(init), ConceptsOf(stocks[|stocks| - 1]));
      assert init[..n] == stocks[..n];
      ConceptsPrefix(init, n);
    } else {
      assert stocks[..n] == stocks;
    }
  }

  /** The checks before anything is resolved or derived. */
  method ValidateSource(s: Source) returns (ok: bool)
    ensures ok <==> ValidSource(s)
  {
    hide Proper, Bijective, Recorded, SixDigits, ValidConcepts, ValidChains;
    var stocks := s.stocks;
    if stocks == [] || s.recordCount != |stocks| || s.universe != |stocks| {
      return false;
    }
    var seen: set<string> := {};
    var codeNames: map<string, string>, nameCodes: map<string, string> := map[], map[];
    NothingRecorded();
    for i := 0 to |stocks|
      invariant forall x | x in stocks[..i] :: ValidRow(x)
      invariant Distinct(Symbols(stocks[..i])) && forall k :: k in seen <==> k in Symbols(stocks[..i])
      invariant Bijective(AllConcepts(stocks[..i])) && Recorded(AllConcepts(stocks[..i]), codeNames, nameCodes)
    {
      var x := stocks[i];
      assert x in stocks && stocks[..i + 1] == stocks[..i] + [x];
      assert Symbols(stocks[..i + 1]) == Symbols(stocks[..i]) + [Symbol(x)];
      if !SixDigits(x.code) || x.exchange !in EXCHANGES || !Proper(x.l1) || !Proper(x.l2) || x.concepts.None? || x.chains.None? {
        return false;
      }
      if Symbol(x) in seen {
        RepeatedSymbol(stocks, i);
        return false;
      }
      seen := seen + {Symbol(x)};
      var conceptsOk;
      conceptsOk, codeNames, nameCodes := CheckConcepts(AllConcepts(stocks[..i]), x.concepts.value, codeNames, nameCodes);
      if !conceptsOk {
        if Bijective(AllConcepts(stocks)) { ConceptsPrefix(stocks, i + 1); }
        return false;
      }
      var chainsOk := CheckChains(x.chains.value);
      if !chainsOk {
        return false;
      }
    }
    assert stocks[..|stocks|] == stocks;
    ok := true;
  }

  lemma NothingRecorded()
    ensures Bijective([]) && Recorded([], map[], map[])
  {
  }

  lemma RepeatedSymbol(stocks: seq<Row>, i: nat)
    requires i < |stocks| && Symbol(stocks[i]) in Symbols(stocks[..i])
    ensures !Distinct(Symbols(stocks))
  {
    var j :| 0 <= j < i && Symbols(stocks[..i])[j] == Symbol(stocks[i]);
    assert Symbols(stocks)[j] == Symbols(stocks)[i];
  }

  // ---- identities ----

  const NAMESPACE := "stock-classification-v1"

  function DeriveID(r: Rules, kind: string, parts: seq<string>): string { kind + r.hash(Seed(kind, NAMESPACE, parts)) }

  function RootParts(s: Row): seq<string> { ["wind", s.l1] }

  function LeafParts(s: Row): seq<string> { ["wind", s.l1, s.l2] }

  function RootID(r: Rules, s: Row): string { DeriveID(r, "SIND", RootParts(s)) }

  function LeafID(r: Rules, s: Row): string { DeriveID(r, "SIND", LeafParts(s)) }

  function ConceptID(r: Rules, name: string): string { DeriveID(r, "SCON", [name]) }

  function ChainID(r: Rules, name: string): string { DeriveID(r, "SICH", [name]) }

  function InternalCode(r: Rules, parts: seq<string>): string { "local-" + r.digest(parts) }

  function Root(r: Rules, s: Row): Industry {
    var code := InternalCode(r, [s.l1]);
    Industry(RootID(r, s), s.l1, code, None, [code])
  }

  function Leaf(r: Rules, s: Row): Industry {
    Industry(LeafID(r, s), s.l2, InternalCode(r, [s.l1, s.l2]), Some(RootID(r, s)), [InternalCode(r, [s.l1]), InternalCode(r, [s.l1, s.l2])])
  }

  // ---- what is built, stock by stock ----

  function StockID(resolve: map<string, string>, s: Row): string { if Symbol(s) in resolve then resolve[Symbol(s)] else "" }

  function StockIDs(resolve: map<string, string>, stocks: seq<Row>): (k: seq<string>)
    ensures |k| == |stocks|
  {
    seq(|stocks|, i requires 0 <= i < |stocks| => StockID(resolve, stocks[i]))
  }

  function Industries(r: Rules, stocks: seq<Row>): map<string, Industry> {
    if stocks == [] then map[]
    else
      var s := stocks[|stocks| - 1];
      Industries(r, stocks[..|stocks| - 1])[RootID(r, s) := Root(r, s)][LeafID(r, s) := Leaf(r, s)]
  }

  function NewLink(r: Rules, kind: string, stockId: string, targetId: string): Link { Link(DeriveID(r, kind, [stockId, targetId]), stockId, targetId) }

  function RowIndustryLinks(r: Rules, resolve: map<string, string>, s: Row): seq<Link> {
    [NewLink(r, "SIL", StockID(resolve, s), RootID(r, s)), NewLink(r, "SIL", StockID(resolve, s), LeafID(r, s))]
  }

  function IndustryLinks(r: Rules, resolve: map<string, string>, stocks: seq<Row>): seq<Link> {
    if stocks == [] then []
    else IndustryLinks(r, resolve, stocks[..|stocks| - 1]) + RowIndustryLinks(r, resolve, stocks[|stocks| - 1])
  }

  function AddConcepts(r: Rules, masters: map<string, Master>, concepts: seq<Concept>): map<string, Master> {
    if concepts == [] then masters
    else
      var name := concepts[|concepts| - 1].name;
      AddConcepts(r, masters, concepts[..|concepts| - 1])[ConceptID(r, name) := Master(ConceptID(r, name), name)]
  }

  function Concepts(r: Rules, stocks: seq<Row>): map<string, Master> {
    if stocks == [] then map[] else AddConcepts(r, Concepts(r, stocks[..|stocks| - 1]), ConceptsOf(stocks[|stocks| - 1]))
  }

  function RowConceptLinks(r: Rules, stockId: string, concepts: seq<Concept>): (l: seq<Link>)
    ensures |l| == |concepts|
  {
    seq(|concepts|, i requires 0 <= i < |concepts| => NewLink(r, "SCL", stockId, ConceptID(r, concepts[i].name)))
  }

  function ConceptLinks(r: Rules, resolve: map<string, string>, stocks: seq<Row>): seq<Link> {
    if stocks == [] then []
    else
      var s := stocks[|stocks| - 1];
      ConceptLinks(r, resolve, stocks[..|stocks| - 1]) + RowConceptLinks(r, StockID(resolve, s), ConceptsOf(s))
  }

  function AddChains(r: Rules, masters: map<string, Master>, chains: seq<string>): map<string, Master> {
    if chains == [] then masters
    else
      var name := chains[|chains| - 1];
      AddChains(r, masters, chains[..|chains| - 1])[ChainID(r, name) := Master(ChainID(r, name), name)]
  }

  function Chains(r: Rules, stocks: seq<Row>): map<string, Master> {
    if stocks == [] then map[] else AddChains(r, Chains(r, stocks[..|stocks| - 1]), ChainsOf(stocks[|stocks| - 1]))
  }

  function RowChainLinks(r: Rules, stockId: string, chains: seq<string>): (l: seq<Link>)
    ensures |l| == |chains|
  {
    seq(|chains|, i requires 0 <= i < |chains| => NewLink(r, "SICL", stockId, ChainID(r, chains[i])))
  }

  function ChainLinks(r: Rules, resolve: map<string, string>, stocks: seq<Row>): seq<Link> {
    if stocks == [] then []
    else
      var s := stocks[|stocks| - 1];
      ChainLinks(r, resolve, stocks[..|stocks| - 1]) + RowChainLinks(r, StockID(resolve, s), ChainsOf(s))
  }

  // ---- sorting the master lists ----

  /** The keys of a map in the order of their bytes. */
  method SortedIDs<V>(m: map<string, V>) returns (ids: seq<string>)
    ensures forall k :: k in ids <==> k in m
    ensures CanonicalForm.Ascending(CanonicalForm.Utf8Order, ids)
  {
    ids := [];
    var remaining := m.Keys;
    while remaining != {}
      invariant remaining <= m.Keys && Distinct(ids)
      invariant forall k :: k in ids <==> k in m.Keys - remaining
      decreases remaining
    {
      var k :| k in remaining;
      assert k !in ids;
      ids := ids + [k];
      remaining := remaining - {k};
    }
    CanonicalPrinters.SortAscending(CanonicalForm.Utf8Order, ids);
    ids := CanonicalPrinters.SortSlice(CanonicalForm.Utf8Order, ids);
  }

  /** Shorter paths first, then by id. */
  predicate Before(a: Industry, b: Industry) {
    |a.path| < |b.path| || (|a.path| == |b.path| && CanonicalForm.Less(CanonicalForm.Utf8Order, a.id, b.id))
  }

  ghost predicate Ordered(list: seq<Industry>) { forall i, j | 0 <= i < j < |list| :: Before(list[i], list[j]) }

  function InsertIndustry(x: Industry, list: seq<Industry>): (r: seq<Industry>)
    ensures forall y :: y in r <==> y == x || y in list
    ensures |r| == |list| + 1
  {
    if list == [] || Before(x, list[0]) then [x] + list else [list[0]] + InsertIndustry(x, list[1..])
  }

  lemma BeforeOrder(a: Industry, b: Industry, c: Industry)
    ensures Before(a, b) && Before(b, c) ==> Before(a, c)
    ensures a.id == b.id || Before(a, b) || Before(b, a)
  {
    CanonicalForm.LessIsStrictTotalOrder(CanonicalForm.Utf8Order, a.id, b.id, c.id);
    CanonicalForm.LessIsStrictTotalOrder(CanonicalForm.Utf8Order, a.id, b.id, a.id);
    CanonicalForm.LessIsStrictTotalOrder(CanonicalForm.Utf8Order, b.id, a.id, b.id);
    hide CanonicalForm.Less;
  }

  lemma {:induction false} InsertOrdered(x: Industry, list: seq<Industry>)
    requires Ordered(list) && forall y | y in list :: y.id != x.id
    ensures Ordered(InsertIndustry(x, list))
  {
    hide Before;
    if list != [] {
      var r := InsertIndustry(x, list);
      BeforeOrder(x, list[0], x);
      if Before(x, list[0]) {
        forall i | 0 <= i < |list| ensures Before(x, list[i]) {
          BeforeOrder(x, list[0], list[i]);
        }
      } else {
        InsertOrdered(x, list[1..]);
        var tail := InsertIndustry(x, list[1..]);
        forall i | 0 <= i < |tail| ensures Before(list[0], tail[i]) {
          assert tail[i] in tail;
          if tail[i] != x {
            var k :| 0 <= k < |list[1..]| && list[1..][k] == tail[i];
            assert list[k + 1] == tail[i];
          }
        }
      }
    }
  }

  ghost predicate ListsIndustries(list: seq<Industry>, m: map<string, Industry>) {
    (forall x | x in list :: x.id in m && m[x.id] == x) && (forall k | k in m :: m[k] in list) && Ordered(list)
  }

  /** Every entry of the map stands under its own id. */
  ghost predicate Keyed(m: map<string, Industry>) { forall k | k in m :: m[k].id == k }

  method SortIndustries(m: map<string, Industry>) returns (list: seq<Industry>)
    requires Keyed(m)
    ensures ListsIndustries(list, m)
  {
    hide Before, InsertIndustry;
    list := [];
    var remaining := m.Keys;
    while remaining != {}
      invariant remaining <= m.Keys && Ordered(list)
      invariant forall x | x in list :: x.id in m.Keys - remaining && m[x.id] == x
      invariant forall k | k in m.Keys - remaining :: m[k] in list
      decreases remaining
    {
      var k :| k in remaining;
      InsertOrdered(m[k], list);
      list := InsertIndustry(m[k], list);
      remaining := remaining - {k};
    }
  }

  ghost predicate ListsMasters(list: seq<Master>, m: map<string, Master>) {
    && (forall x | x in list :: x.id in m && m[x.id] == x) && (forall k | k in m :: m[k] in list)
    && forall i, j | 0 <= i < j < |list| :: CanonicalForm.Less(CanonicalForm.Utf8Order, list[i].id, list[j].id)
  }

  method SortMasters(m: map<string, Master>) returns (list: seq<Master>)
    requires forall k | k in m :: m[k].id == k
    ensures ListsMasters(list, m)
  {
    var ids := SortedIDs(m);
    list := [];
    for i := 0 to |ids|
      invariant |list| == i && forall j | 0 <= j < i :: ids[j] in m && list[j] == m[ids[j]]
    {
      assert ids[i] in ids;
      list := list + [m[ids[i]]];
    }
    forall k | k in m ensures m[k] in list {
      assert k in ids;
      var j :| 0 <= j < |ids| && ids[j] == k;
      assert list[j] == m[k];
    }
  }

  // ---- the publication ----

  predicate Resolved(resolve: map<string, string>, stocks: seq<Row>) { forall s | s in stocks :: Is(StockID(resolve, s), "STK") }

  lemma {:induction false} IndustriesKeyed(r: Rules, stocks: seq<Row>)
    ensures Keyed(Industries(r, stocks))
  {
    hide RootID, LeafID, InternalCode;
    if stocks != [] { IndustriesKeyed(r, stocks[..|stocks| - 1]); }
  }

  lemma {:induction false} ConceptsAddedKeyed(r: Rules, masters: map<string, Master>, concepts: seq<Concept>)
    requires forall k | k in masters :: masters[k].id == k
    ensures forall k | k in AddConcepts(r, masters, concepts) :: AddConcepts(r, masters, concepts)[k].id == k
  {
    hide ConceptID;
    if concepts != [] { ConceptsAddedKeyed(r, masters, concepts[..|concepts| - 1]); }
  }

  lemma {:induction false} ConceptsKeyed(r: Rules, stocks: seq<Row>)
    ensures forall k | k in Concepts(r, stocks) :: Concepts(r, stocks)[k].id == k
  {
    if stocks != [] {
      ConceptsKeyed(r, stocks[..|stocks| - 1]);
      ConceptsAddedKeyed(r, Concepts(r, stocks[..|stocks| - 1]), ConceptsOf(stocks[|stocks| - 1]));
    }
  }

  lemma {:induction false} ChainsAddedKeyed(r: Rules, masters: map<string, Master>, chains: seq<string>)
    requires forall k | k in masters :: masters[k].id == k
    ensures forall k | k in AddChains(r, masters, chains) :: AddChains(r, masters, chains)[k].id == k
  {
    hide ChainID;
    if chains != [] { ChainsAddedKeyed(r, masters, chains[..|chains| - 1]); }
  }

  lemma {:induction false} ChainsKeyed(r: Rules, stocks: seq<Row>)
    ensures forall k | k in Chains(r, stocks) :: Chains(r, stocks)[k].id == k
  {
    if stocks != [] {
      ChainsKeyed(r, stocks[..|stocks| - 1]);
      ChainsAddedKeyed(r, Chains(r, stocks[..|stocks| - 1]), ChainsOf(stocks[|stocks| - 1]));
    }
  }

  /** What a publication of these stocks consists of. */
  ghost predicate Publishes(r: Rules, resolve: map<string, string>, stocks: seq<Row>, p: Publication) {
    && p.stockIds == StockIDs(resolve, stocks)
    && ListsIndustries(p.industries, Industries(r, stocks)) && ListsMasters(p.concepts, Concepts(r, stocks))
    && ListsMasters(p.chains, Chains(r, stocks))
    && p.industryLinks == IndustryLinks(r, resolve, stocks) && p.conceptLinks == ConceptLinks(r, resolve, stocks)
    && p.chainLinks == ChainLinks(r, resolve, stocks)
  }

  method BuildIndustries(r: Rules, resolve: map<string, string>, stocks: seq<Row>) returns (industries: map<string, Industry>, links: seq<Link>)
    ensures industries == Industries(r, stocks) && links == IndustryLinks(r, resolve, stocks)
  {
    hide RootID, LeafID, Root, Leaf, NewLink, StockID;
    industries, links := map[], [];
    for i := 0 to |stocks|
      invariant industries == Industries(r, stocks[..i]) && links == IndustryLinks(r, resolve, stocks[..i])
    {
      var s := stocks[i];
      assert stocks[..i + 1][..i] == stocks[..i];
      industries := industries[RootID(r, s) := Root(r, s)];
      industries := industries[LeafID(r, s) := Leaf(r, s)];
      links := links + [NewLink(r, "SIL", StockID(resolve, s), RootID(r, s)), NewLink(r, "SIL", StockID(resolve, s), LeafID(r, s))];
    }
    assert stocks[..|stocks|] == stocks;
  }

  method BuildConcepts(r: Rules, resolve: map<string, string>, stocks: seq<Row>) returns (concepts: map<string, Master>, links: seq<Link>)
    ensures concepts == Concepts(r, stocks) && links == ConceptLinks(r, resolve, stocks)
  {
    hide ConceptID, NewLink, StockID;
    concepts, links := map[], [];
    for i := 0 to |stocks|
      invariant concepts == Concepts(r, stocks[..i]) && links == ConceptLinks(r, resolve, stocks[..i])
    {
      var s := stocks[i];
      assert stocks[..i + 1][..i] == stocks[..i];
      var row := ConceptsOf(s);
      ghost var before, linked := concepts, links;
      for j := 0 to |row|
        invariant concepts == AddConcepts(r, before, row[..j])
        invariant links == linked + RowConceptLinks(r, StockID(resolve, s), row)[..j]
      {
        var id := ConceptID(r, row[j].name);
        assert row[..j + 1][..j] == row[..j];
        concepts := concepts[id := Master(id, row[j].name)];
        links := links + [NewLink(r, "SCL", StockID(resolve, s), id)];
      }
      assert row[..|row|] == row;
    }
    assert stocks[..|stocks|] == stocks;
  }

  method BuildChains(r: Rules, resolve: map<string, string>, stocks: seq<Row>) returns (chains: map<string, Master>, links: seq<Link>)
    ensures chains == Chains(r, stocks) && links == ChainLinks(r, resolve, stocks)
  {
    hide ChainID, NewLink, StockID;
    chains, links := map[], [];
    for i := 0 to |stocks|
      invariant chains == Chains(r, stocks[..i]) && links == ChainLinks(r, resolve, stocks[..i])
    {
      var s := stocks[i];
      assert stocks[..i + 1][..i] == stocks[..i];
      var row := ChainsOf(s);
      ghost var before, linked := chains, links;
      for j := 0 to |row|
        invariant chains == AddChains(r, before, row[..j])
        invariant links == linked + RowChainLinks(r, StockID(resolve, s), row)[..j]
      {
        var id := ChainID(r, row[j]);
        assert row[..j + 1][..j] == row[..j];
        chains := chains[id := Master(id, row[j])];
        links := links + [NewLink(r, "SICL", StockID(resolve, s), id)];
      }
      assert row[..|row|] == row;
    }
    assert stocks[..|stocks|] == stocks;
  }

  /** `PublishClassifications` up to the repository call. */
  method Classify(r: Rules, resolve: map<string, string>, s: Source) returns (result: Option<Publication>)
    ensures result.Some? <==> ValidSource(s) && Resolved(resolve, s.stocks)
    ensures result.Some? ==> Publishes(r, resolve, s.stocks, result.value)
  {
    hide ValidSource, ListsIndustries, ListsMasters, Industries, Concepts, Chains, IndustryLinks, ConceptLinks, ChainLinks;
    var valid := ValidateSource(s);
    if !valid {
      return None;
    }
    var stockIds: seq<string> := [];
    for i := 0 to |s.stocks|
      invariant stockIds == StockIDs(resolve, s.stocks)[..i] && forall j | 0 <= j < i :: Is(StockID(resolve, s.stocks[j]), "STK")
    {
      assert s.stocks[i] in s.stocks;
      if !Is(StockID(resolve, s.stocks[i]), "STK") {
        return None;
      }
      stockIds := stockIds + [StockID(resolve, s.stocks[i])];
    }
    var industries, industryLinks := BuildIndustries(r, resolve, s.stocks);
    var concepts, conceptLinks := BuildConcepts(r, resolve, s.stocks);
    var chains, chainLinks := BuildChains(r, resolve, s.stocks);
    IndustriesKeyed(r, s.stocks);
    ConceptsKeyed(r, s.stocks);
    ChainsKeyed(r, s.stocks);
    var industryList := SortIndustries(industries);
    var conceptList := SortMasters(concepts);
    var chainList := SortMasters(chains);
    return Some(Publication(stockIds, industryList, conceptList, chainList, industryLinks, conceptLinks, chainLinks));
  }
}
