/** When each operation on the catalogue succeeds and what it leaves, in terms of the rows' fields. */
module SourceEffects {
  import opened Json
  import opened Identity
  import opened Unicode
  import opened SourceCatalog
  import opened SourceCatalogRuns
  import SourceConfig

  // ---- creating, updating and deleting one source ----

  /** Up to 64 lower-case letters, digits, underscores and hyphens, beginning with a letter or digit. */
  predicate CodeText(code: string) {
    && 1 <= |code| <= 64 && ('a' <= code[0] <= 'z' || '0' <= code[0] <= '9')
    && forall c | c in code :: 'a' <= c <= 'z' || '0' <= c <= '9' || c == '_' || c == '-'
  }

  lemma CodeAccepted(code: string)
    ensures ValidCode(code) <==> CodeText(code)
    ensures CodeText(code) ==> HasID(code)
  {
    if CodeText(code) {
      assert forall i | 0 <= i < |code| :: code[i] in code;
      TrimPlain(code);
    }
  }

  lemma DerivedSource<D>(r: Rules<D>, code: string)
    requires UuidGenerator(r.hash)
    ensures Is(SourceID(r, code), "SRC")
  {
    var u := r.hash(Seed("SRC", "source", [code]));
    assert ("SRC" + u)[3..] == u;
  }

  /** A dynamic source is created exactly when its code and details are valid, neither code nor identity is in use and the
    catalogue keeps its limits; the new row is a generic feed stamped with the time of the call. */
  lemma CreatedIff<D>(r: Rules<D>, rows: seq<Source<D>>, input: Input<D>, now: int)
    requires Inv(r, rows) && UuidGenerator(r.hash) && now > 0
    ensures var id := "SRC" + r.hash(Seed("SRC", "source", [input.code]));
            var x := Source(id, input.code, Dynamic, Rss, "generic_rss", input.enabled, input.details, now, now);
            && Outcome(r, rows, Create(input, now)).Ok? == (Outcome(r, rows, Create(input, now)) == Ok(rows + [x]))
            && (Outcome(r, rows, Create(input, now)).Ok? <==>
                && CodeText(input.code) && r.valid(input.details)
                && (forall i | 0 <= i < |rows| :: rows[i].code != input.code && rows[i].id != id)
                && |rows| < 200 && EnvelopeSize(r, rows + [x.(createdAt := 0, updatedAt := 0)]) <= 500_000)
  {
    var candidate := Candidate(r, input);
    CandidateValid(r, rows, input);
    CodeAccepted(input.code);
    WebCountPairs(rows);
    hide Is, ValidSource, AllValid, CodeText, Seed, WebCount, EnvelopeSize, HasID, AtMostOneWeb;
  }

  lemma CandidateValid<D>(r: Rules<D>, rows: seq<Source<D>>, input: Input<D>)
    requires AllValid(r, rows, true) && UuidGenerator(r.hash)
    ensures ValidSource(r, Candidate(r, input), false) <==> CodeText(input.code) && r.valid(input.details)
    ensures AllValid(r, rows + [Candidate(r, input)], false) <==> ValidSource(r, Candidate(r, input), false)
    ensures WebCount(rows + [Candidate(r, input)]) == WebCount(rows)
  {
    var candidate := Candidate(r, input);
    var projected := rows + [candidate];
    assert projected[..|projected| - 1] == rows;
    DerivedSource(r, input.code);
    CodeAccepted(input.code);
    forall i | 0 <= i < |rows| ensures ValidSource(r, rows[i], false) {
      assert ValidSource(r, rows[i], true);
    }
    hide Is, ValidCode, CodeText, Seed;
    assert ValidSource(r, candidate, false) <==> CodeText(input.code) && r.valid(input.details);
    hide ValidSource;
    assert projected[|rows|] == candidate;
  }

  /** The new adapter and details are valid for the row's kind, no second web search becomes enabled, the catalogue keeps its
    limits and the clock has not gone back behind the row's creation. */
  predicate MayUpdate<D>(r: Rules<D>, rows: seq<Source<D>>, i: nat, change: Input<D>, now: int)
    requires i < |rows|
  {
    && change.adapter in {"bocha", "tavily", "parallel", "cls", "eastmoney_fast", "eastmoney_stock", "stcn", "generic_rss"}
    && r.valid(change.details) && (rows[i].ownership == Dynamic ==> change.adapter == "generic_rss")
    && (change.enabled && rows[i].channel == WebSearch ==>
          forall j | 0 <= j < |rows| && j != i :: !(rows[j].enabled && rows[j].channel == WebSearch))
    && EnvelopeSize(r, rows[i := rows[i].(adapter := change.adapter, enabled := change.enabled, details := change.details)]) <= 500_000
    && rows[i].createdAt <= now
  }

  /** An update changes adapter, switch, details and update time of its row and nothing else. */
  lemma UpdatedIff<D>(r: Rules<D>, rows: seq<Source<D>>, i: nat, change: Input<D>, now: int)
    requires Inv(r, rows) && i < |rows|
    ensures Outcome(r, rows, Update(rows[i].id, change, now)).Ok? <==> MayUpdate(r, rows, i, change, now)
    ensures Outcome(r, rows, Update(rows[i].id, change, now)).Ok? ==>
              Outcome(r, rows, Update(rows[i].id, change, now)).value ==
              rows[i := Source(rows[i].id, rows[i].code, rows[i].ownership, rows[i].channel, change.adapter, change.enabled,
                               change.details, rows[i].createdAt, now)]
  {
    var row := rows[i];
    var at := FindID(rows, row.id);
    assert at == i;
    var candidate := Changed(row, change);
    var projected := rows[i := candidate];
    WebCountPairs(projected);
    assert ValidSource(r, row, true);
    assert ValidSource(r, candidate, false) <==>
           change.adapter in ADAPTERS && r.valid(change.details) && (row.ownership == Dynamic ==> change.adapter == "generic_rss");
    hide ValidSource, Is, WebCount, EnvelopeSize, FindID;
    assert AllValid(r, projected, false) <==> ValidSource(r, candidate, false) by {
      OthersValid(r, rows, i, candidate);
    }
    OthersQuiet(rows, i, candidate);
    hide AllValid, AtMostOneWeb, UniqueRows;
  }

  lemma OthersValid<D>(r: Rules<D>, rows: seq<Source<D>>, i: nat, candidate: Source<D>)
    requires AllValid(r, rows, true) && i < |rows|
    ensures AllValid(r, rows[i := candidate], false) <==> ValidSource(r, candidate, false)
  {
    forall j | 0 <= j < |rows| ensures ValidSource(r, rows[j], false) {
      assert ValidSource(r, rows[j], true);
    }
    hide ValidSource;
    var t := rows[i := candidate];
    assert t[i] == candidate;
  }

  lemma OthersQuiet<D>(rows: seq<Source<D>>, i: nat, candidate: Source<D>)
    requires AtMostOneWeb(rows) && i < |rows|
    ensures AtMostOneWeb(rows[i := candidate]) <==>
            (candidate.enabled && candidate.channel == WebSearch ==>
               forall j | 0 <= j < |rows| && j != i :: !(rows[j].enabled && rows[j].channel == WebSearch))
  {
    var t := rows[i := candidate];
    assert t[i] == candidate && forall j | 0 <= j < |rows| && j != i :: t[j] == rows[j];
    if AtMostOneWeb(t) && ActiveWeb(candidate) {
      forall j | 0 <= j < |rows| && j != i ensures !ActiveWeb(rows[j]) {
        assert !(ActiveWeb(t[if i < j then i else j]) && ActiveWeb(t[if i < j then j else i]));
      }
    }
  }

  /** A source is deleted exactly when the identity is that of a stored row that is not fixed; the other rows stay. */
  lemma DeletedIff<D>(r: Rules<D>, rows: seq<Source<D>>, id: string)
    requires Inv(r, rows)
    ensures Outcome(r, rows, Delete(id)).Ok? <==> exists i | 0 <= i < |rows| :: rows[i].id == id && rows[i].ownership == Dynamic
    ensures forall i | 0 <= i < |rows| && rows[i].id == id && rows[i].ownership == Dynamic ::
              Outcome(r, rows, Delete(id)) == Ok(rows[..i] + rows[i + 1..])
    ensures Outcome(r, rows, Delete(id)) == Err(FixedDeleteForbidden) <==>
            exists i | 0 <= i < |rows| :: rows[i].id == id && rows[i].ownership == Fixed
  {
    var at := FindID(rows, id);
    if at >= 0 {
      assert ValidSource(r, rows[at], true);
    }
    hide Is, ValidSource, FindID;
    forall i | 0 <= i < |rows| && rows[i].id == id ensures at == i {}
  }

  // ---- importing ----

  /** The stored row has everything the imported item has: identity, kind, switch, details alike under the rules, and both
    times within the same microsecond. */
  predicate Replays<D>(r: Rules<D>, row: Source<D>, item: Source<D>) {
    && row.id == "SRC" + r.hash(Seed("SRC", "source", [item.code])) && row.code == item.code
    && row.ownership == item.ownership && row.channel == item.channel && row.adapter == item.adapter && row.enabled == item.enabled
    && r.same(row.details, item.details)
    && row.createdAt / 1000 == item.createdAt / 1000 && row.updatedAt / 1000 == item.updatedAt / 1000
  }

  ghost predicate Replayed<D>(r: Rules<D>, rows: seq<Source<D>>, item: Source<D>) {
    exists row | row in rows :: Replays(r, row, item)
  }

  lemma FindUnique<D>(rows: seq<Source<D>>, s: Source<D>)
    requires UniqueRows(rows) && s in rows
    ensures Find(rows, s.code) >= 0 && rows[Find(rows, s.code)] == s
  {
    var i :| 0 <= i < |rows| && rows[i] == s;
    var j := Find(rows, s.code);
    assert i == j;
  }

  /** An import into a catalogue that is not empty succeeds exactly when every item replays a stored row and no row is left
    over; then the catalogue stays as it is, and otherwise the import is a conflict. */
  lemma ImportReplays<D>(r: Rules<D>, rows: seq<Source<D>>, items: seq<Source<D>>, now: int)
    requires rows != [] && UniqueRows(rows)
    requires PrepareAll(r, items, {}, Exported).Ok? && ProjectedError(r, PrepareAll(r, items, {}, Exported).value).None?
    ensures Outcome(r, rows, Import(items, now)) == Ok(rows) <==>
            |items| == |rows| && forall i | 0 <= i < |items| :: Replayed(r, rows, items[i])
    ensures Outcome(r, rows, Import(items, now)) in {Ok(rows), Err(Conflict)}
  {
    PreparedItems(r, items, {}, Exported);
    var prepared := PrepareAll(r, items, {}, Exported).value;
    RowsReplay(r, rows, items, prepared);
    hide PrepareAll, ProjectedError, SameRows, Replayed, Item, UniqueRows, InsertAll, AllValid, DistinctCodes;
  }

  lemma RowsReplay<D>(r: Rules<D>, rows: seq<Source<D>>, items: seq<Source<D>>, prepared: seq<Source<D>>)
    requires UniqueRows(rows) && |prepared| == |items| && forall i | 0 <= i < |items| :: prepared[i] == Item(r, items[i], Exported)
    ensures SameRows(r, rows, prepared) <==>
            |items| == |rows| && forall i | 0 <= i < |items| :: Replayed(r, rows, items[i])
  {
    forall i | 0 <= i < |items|
      ensures (Find(rows, prepared[i].code) >= 0 && SameSource(r, rows[Find(rows, prepared[i].code)], prepared[i]))
              <==> Replayed(r, rows, items[i])
    {
      ItemReplays(r, rows, items[i]);
    }
    hide Replayed, SameSource, Item, UniqueRows, Find;
  }

  lemma ItemReplays<D>(r: Rules<D>, rows: seq<Source<D>>, item: Source<D>)
    requires UniqueRows(rows)
    ensures var p := Item(r, item, Exported);
            (Find(rows, p.code) >= 0 && SameSource(r, rows[Find(rows, p.code)], p)) <==> Replayed(r, rows, item)
  {
    var p := Item(r, item, Exported);
    if row :| row in rows && Replays(r, row, item) {
      FindUnique(rows, row);
    }
    var at := Find(rows, p.code);
    if at >= 0 && SameSource(r, rows[at], p) {
      assert rows[at] in rows && Replays(r, rows[at], item);
    }
  }

  // ---- what a publication demands of the rows it meets ----

  /** The row stored under a fixed item's code is a fixed one with the item's identity and channel. */
  predicate MeetsFixed<D>(r: Rules<D>, row: Source<D>, item: Source<D>) {
    row.id == "SRC" + r.hash(Seed("SRC", "source", [item.code])) && row.ownership == Fixed && row.channel == item.channel
  }

  /** The row stored under a dynamic item's code is a dynamic generic feed with the item's identity. */
  predicate MeetsDynamic<D>(r: Rules<D>, row: Source<D>, item: Source<D>) {
    && row.id == "SRC" + r.hash(Seed("SRC", "source", [item.code])) && row.ownership == Dynamic && row.channel == Rss
    && row.adapter == "generic_rss"
  }

  ghost predicate Known<D>(rows: seq<Source<D>>, item: Source<D>) { exists row | row in rows :: row.code == item.code }

  ghost predicate MetFixed<D>(r: Rules<D>, rows: seq<Source<D>>, item: Source<D>) {
    forall row | row in rows && row.code == item.code :: MeetsFixed(r, row, item)
  }

  ghost predicate MetDynamic<D>(r: Rules<D>, rows: seq<Source<D>>, item: Source<D>) {
    forall row | row in rows && row.code == item.code :: MeetsDynamic(r, row, item)
  }

  ghost predicate AllKnown<D>(rows: seq<Source<D>>, items: seq<Source<D>>) {
    forall i | 0 <= i < |items| :: Known(rows, items[i])
  }

  ghost predicate AllMetFixed<D>(r: Rules<D>, rows: seq<Source<D>>, items: seq<Source<D>>) {
    forall i | 0 <= i < |items| :: MetFixed(r, rows, items[i])
  }

  ghost predicate AllMetDynamic<D>(r: Rules<D>, rows: seq<Source<D>>, items: seq<Source<D>>) {
    forall i | 0 <= i < |items| :: MetDynamic(r, rows, items[i])
  }

  lemma ItemMet<D>(r: Rules<D>, rows: seq<Source<D>>, item: Source<D>)
    requires UniqueRows(rows)
    ensures var at := Find(rows, item.code);
            && (at >= 0 <==> Known(rows, item))
            && (at < 0 ==> MetFixed(r, rows, item) && MetDynamic(r, rows, item))
            && (at >= 0 ==> (MetFixed(r, rows, item) <==> MatchesFixed(rows[at], Item(r, item, FixedManifest))))
            && (at >= 0 ==> (MetDynamic(r, rows, item) <==> MatchesDynamic(rows[at], Item(r, item, DynamicCatalog))))
  {
    var at := Find(rows, item.code);
    forall row | row in rows && row.code == item.code ensures at >= 0 && rows[at] == row {
      FindUnique(rows, row);
    }
    hide UniqueRows, Find;
    if at >= 0 { assert rows[at] in rows; }
  }

  lemma {:induction false} FixedLoopMeets<D>(r: Rules<D>, rows: seq<Source<D>>, items: seq<Source<D>>, prepared: seq<Source<D>>, now: int)
    requires UniqueRows(rows) && |prepared| == |items|
    requires forall i | 0 <= i < |items| :: prepared[i] == Item(r, items[i], FixedManifest)
    ensures FixedLoop(rows, prepared, now).Ok? ==> AllMetFixed(r, rows, items)
    ensures AllKnown(rows, items) && AllMetFixed(r, rows, items) ==> FixedLoop(rows, prepared, now) == Ok(rows)
    ensures AllKnown(rows, items) ==> FixedLoop(rows, prepared, now) in {Ok(rows), Err(Conflict)}
    decreases |items|
  {
    hide UniqueRows, Find, Insert, Known, MetFixed, MatchesFixed;
    if items != [] {
      var n := |items| - 1;
      FixedLoopMeets(r, rows, items[..n], prepared[..n], now);
      ItemMet(r, rows, items[n]);
      ItemCode(r, items[n], FixedManifest);
      LastItem(r, rows, items);
      hide Item, AllKnown, AllMetFixed;
    }
  }

  lemma ItemCode<D>(r: Rules<D>, item: Source<D>, p: Preparation)
    ensures Item(r, item, p).code == item.code
  {
  }

  lemma LastItem<D>(r: Rules<D>, rows: seq<Source<D>>, items: seq<Source<D>>)
    requires items != []
    ensures var n := |items| - 1;
            && (AllKnown(rows, items) <==> AllKnown(rows, items[..n]) && Known(rows, items[n]))
            && (AllMetFixed(r, rows, items) <==> AllMetFixed(r, rows, items[..n]) && MetFixed(r, rows, items[n]))
  {
    hide Known, MetFixed;
    var n := |items| - 1;
    assert forall i | 0 <= i < n :: items[..n][i] == items[i];
  }

  /** A published fixed manifest agrees with every row already stored under one of its codes. When all its codes are stored
    it is accepted exactly when they agree and the catalogue is within its limits, and then nothing changes. */
  lemma FixedMeets<D>(r: Rules<D>, rows: seq<Source<D>>, items: seq<Source<D>>, now: int)
    requires UniqueRows(rows) && PrepareAll(r, items, {}, FixedManifest).Ok?
    ensures Outcome(r, rows, PublishFixed(items, now)).Ok? ==> AllMetFixed(r, rows, items)
    ensures AllKnown(rows, items) ==>
              (Outcome(r, rows, PublishFixed(items, now)) == Ok(rows) <==> AllMetFixed(r, rows, items) && ProjectedError(r, rows).None?)
    ensures AllKnown(rows, items) && !AllMetFixed(r, rows, items) ==> Outcome(r, rows, PublishFixed(items, now)) == Err(Conflict)
  {
    PreparedItems(r, items, {}, FixedManifest);
    var prepared := PrepareAll(r, items, {}, FixedManifest).value;
    FixedLoopMeets(r, rows, items, prepared, now);
    AllFound(r, rows, items, prepared, FixedManifest);
    assert rows + [] == rows;
    hide PrepareAll, ProjectedError, FixedLoop, Missing, AllMetFixed, AllKnown, Item, UniqueRows, AllValid, DistinctCodes;
  }

  lemma AllFound<D>(r: Rules<D>, rows: seq<Source<D>>, items: seq<Source<D>>, prepared: seq<Source<D>>, p: Preparation)
    requires UniqueRows(rows) && |prepared| == |items| && forall i | 0 <= i < |items| :: prepared[i] == Item(r, items[i], p)
    ensures AllKnown(rows, items) ==> Missing(rows, prepared) == []
  {
    forall i | 0 <= i < |items| ensures Find(rows, prepared[i].code) >= 0 <==> Known(rows, items[i]) {
      ItemMet(r, rows, items[i]);
      ItemCode(r, items[i], p);
    }
    hide UniqueRows, Find, Missing, Known, Item;
    if AllKnown(rows, items) { MissingNone(rows, prepared); }
  }

  lemma {:induction false} MissingNone<D>(rows: seq<Source<D>>, prepared: seq<Source<D>>)
    requires forall i | 0 <= i < |prepared| :: Find(rows, prepared[i].code) >= 0
    ensures Missing(rows, prepared) == []
  {
    if prepared != [] { MissingNone(rows, prepared[..|prepared| - 1]); }
  }

  /** Against the table the prepared items behave as the items do. */
  lemma DynamicMatchMeets<D>(r: Rules<D>, rows: seq<Source<D>>, items: seq<Source<D>>, prepared: seq<Source<D>>)
    requires UniqueRows(rows) && |prepared| == |items|
    requires forall i | 0 <= i < |items| :: prepared[i] == Item(r, items[i], DynamicCatalog)
    ensures DynamicMatch(rows, prepared) <==> AllMetDynamic(r, rows, items)
  {
    forall i | 0 <= i < |items|
      ensures var at := Find(rows, prepared[i].code);
              ((at >= 0 ==> MatchesDynamic(rows[at], prepared[i])) <==> MetDynamic(r, rows, items[i]))
    {
      ItemMet(r, rows, items[i]);
      ItemCode(r, items[i], DynamicCatalog);
    }
    hide UniqueRows, Find, Known, MetDynamic, MatchesDynamic, Item;
  }

  /** The same for the dynamic catalogue. */
  lemma DynamicMeets<D>(r: Rules<D>, rows: seq<Source<D>>, items: seq<Source<D>>, now: int)
    requires UniqueRows(rows) && PrepareAll(r, items, {}, DynamicCatalog).Ok?
    ensures Outcome(r, rows, PublishDynamic(items, now)).Ok? ==> AllMetDynamic(r, rows, items)
    ensures AllKnown(rows, items) ==>
              (Outcome(r, rows, PublishDynamic(items, now)) == Ok(rows) <==> AllMetDynamic(r, rows, items) && ProjectedError(r, rows).None?)
    ensures !AllMetDynamic(r, rows, items) ==> Outcome(r, rows, PublishDynamic(items, now)) == Err(Conflict)
  {
    PreparedItems(r, items, {}, DynamicCatalog);
    var prepared := PrepareAll(r, items, {}, DynamicCatalog).value;
    DynamicMatchMeets(r, rows, items, prepared);
    AllFound(r, rows, items, prepared, DynamicCatalog);
    assert rows + [] == rows;
    hide PrepareAll, ProjectedError, DynamicMatch, Missing, AllMetDynamic, AllKnown, Item, UniqueRows, AllValid, DistinctCodes;
  }

  // ---- with the stored configurations as details ----

  /** The fields an import compares besides identity, kind, switch and times; a configuration that does not decode is `None`. */
  datatype Details = Details(
    name: string, endpoint: string, appKey: Option<string>, config: Option<JSON>, priority: int, timeoutSeconds: int,
    maxResults: int, level: string)

  ghost predicate SameConfigs(a: Option<JSON>, b: Option<JSON>) {
    && a.Some? && b.Some? && SourceConfig.Decoded(a.value) && SourceConfig.Decoded(b.value)
    && SourceConfig.NumericallyEqual(a.value, b.value)
  }

  /** The comparison the source makes. */
  ghost predicate ComparesDetails(r: Rules<Details>) {
    forall a, b :: r.same(a, b) <==>
      && a.name == b.name && a.endpoint == b.endpoint && a.appKey == b.appKey && SameConfigs(a.config, b.config)
      && a.priority == b.priority && a.timeoutSeconds == b.timeoutSeconds && a.maxResults == b.maxResults && a.level == b.level
  }

  /** The catalogue exported and imported again with configurations of its own: a replay exactly when each configuration has
    the numeric value of the stored one, however its numbers are spelled. */
  lemma ConfigsDecide(r: Rules<Details>, rows: seq<Source<Details>>, configs: seq<Option<JSON>>, now: int)
    requires ComparesDetails(r) && rows != [] && UniqueRows(rows) && |configs| == |rows|
    requires forall i | 0 <= i < |rows| :: rows[i].id == "SRC" + r.hash(Seed("SRC", "source", [rows[i].code]))
    requires var items := seq(|rows|, i requires 0 <= i < |rows| => rows[i].(details := rows[i].details.(config := configs[i])));
             PrepareAll(r, items, {}, Exported).Ok? && ProjectedError(r, PrepareAll(r, items, {}, Exported).value).None?
    ensures var items := seq(|rows|, i requires 0 <= i < |rows| => rows[i].(details := rows[i].details.(config := configs[i])));
            && (Outcome(r, rows, Import(items, now)) == Ok(rows) <==>
                forall i | 0 <= i < |rows| :: SameConfigs(rows[i].details.config, configs[i]))
            && Outcome(r, rows, Import(items, now)) in {Ok(rows), Err(Conflict)}
  {
    var items := seq(|rows|, i requires 0 <= i < |rows| => rows[i].(details := rows[i].details.(config := configs[i])));
    ImportReplays(r, rows, items, now);
    forall i | 0 <= i < |rows|
      ensures (Replayed(r, rows, items[i])) <==> SameConfigs(rows[i].details.config, configs[i])
    {
      OwnRow(r, rows, i, configs[i]);
    }
    hide Outcome, PrepareAll, ProjectedError, Replayed, SameConfigs;
  }

  lemma OwnRow(r: Rules<Details>, rows: seq<Source<Details>>, i: nat, config: Option<JSON>)
    requires ComparesDetails(r) && UniqueRows(rows) && i < |rows|
    requires rows[i].id == "SRC" + r.hash(Seed("SRC", "source", [rows[i].code]))
    ensures Replayed(r, rows, rows[i].(details := rows[i].details.(config := config))) <==> SameConfigs(rows[i].details.config, config)
  {
    hide SameConfigs;
    var item := rows[i].(details := rows[i].details.(config := config));
    if row :| row in rows && Replays(r, row, item) {
      var j :| 0 <= j < |rows| && rows[j] == row;
      assert j == i;
    }
    if SameConfigs(rows[i].details.config, config) {
      assert rows[i] in rows && Replays(r, rows[i], item);
    }
  }

  // ---- what a publication adds and answers ----

  /** The row a publication stores for an item: its identity derived anew, its ownership decided by a fixed manifest, and its
    times set by the store unless it brings a creation time. */
  ghost predicate StoredFrom<D>(r: Rules<D>, x: Source<D>, item: Source<D>, fixed: bool, now: int) {
    && x.id == "SRC" + r.hash(Seed("SRC", "source", [item.code])) && x.code == item.code
    && x.ownership == (if fixed then Fixed else item.ownership)
    && x.channel == item.channel && x.adapter == item.adapter && x.enabled == item.enabled && x.details == item.details
    && x.createdAt == (if item.createdAt == 0 then now else item.createdAt)
    && x.updatedAt == (if item.createdAt == 0 then now else item.updatedAt)
  }

  ghost predicate Rising(at: seq<nat>) { forall i, j | 0 <= i < j < |at| :: at[i] < at[j] }

  /** `at` lists the items whose code no row has. */
  ghost predicate ListsNew<D>(rows: seq<Source<D>>, items: seq<Source<D>>, at: seq<nat>) {
    && Rising(at) && (forall k | 0 <= k < |at| :: at[k] < |items|)
    && forall i | 0 <= i < |items| :: i in at <==> forall row | row in rows :: row.code != items[i].code
  }

  lemma {:induction false} MissingListed<D>(rows: seq<Source<D>>, items: seq<Source<D>>, prepared: seq<Source<D>>) returns (at: seq<nat>)
    requires |prepared| == |items| && forall i | 0 <= i < |items| :: prepared[i].code == items[i].code
    ensures ListsNew(rows, items, at)
    ensures |Missing(rows, prepared)| == |at| && forall k | 0 <= k < |at| :: Missing(rows, prepared)[k] == prepared[at[k]]
    decreases |items|
  {
    if items == [] {
      at := [];
    } else {
      var n := |items| - 1;
      at := MissingListed(rows, items[..n], prepared[..n]);
      OneMoreListed(rows, items, at);
      FoundCode(rows, items[n].code);
      hide Find, ListsNew;
      if Find(rows, items[n].code) < 0 {
        at := at + [n];
      }
    }
  }

  lemma FoundCode<D>(rows: seq<Source<D>>, code: string)
    ensures Find(rows, code) < 0 <==> forall row | row in rows :: row.code != code
  {
    var at := Find(rows, code);
    if at >= 0 { assert rows[at] in rows; }
    hide Find;
  }

  lemma OneMoreListed<D>(rows: seq<Source<D>>, items: seq<Source<D>>, at: seq<nat>)
    requires items != [] && ListsNew(rows, items[..|items| - 1], at)
    ensures var n := |items| - 1;
            && (forall k | 0 <= k < |at| :: at[k] < n)
            && if forall row | row in rows :: row.code != items[n].code then ListsNew(rows, items, at + [n]) else ListsNew(rows, items, at)
  {
    var n := |items| - 1;
    assert forall i | 0 <= i < n :: items[..n][i] == items[i];
    forall i | i in at ensures i < n {
      var k :| 0 <= k < |at| && at[k] == i;
    }
  }

  /** A publication that succeeds leaves every row as it is and adds, in the order of the manifest, one row for each item whose
    code was not stored. */
  lemma PublicationAdds<D>(r: Rules<D>, rows: seq<Source<D>>, op: Op<D>) returns (at: seq<nat>)
    requires Inv(r, rows) && Clocked(op) && RealTimes(op) && (op.PublishFixed? || op.PublishDynamic?)
    requires Outcome(r, rows, op).Ok?
    ensures ListsNew(rows, op.manifest, at)
    ensures var t := Outcome(r, rows, op).value;
            && |t| == |rows| + |at| && t[..|rows|] == rows
            && forall k | 0 <= k < |at| :: StoredFrom(r, t[|rows| + k], op.manifest[at[k]], op.PublishFixed?, op.now)
  {
    PublishOutcome(r, rows, op);
    var p := PreparedOf(r, op).value;
    PreparedAre(r, op);
    at := MissingListed(rows, op.manifest, p);
    var added := Missing(rows, p);
    var t := rows + StampAll(added, op.now);
    hide Inv, Missing, PreparedOf, StoredFrom, ListsNew, AllValid, DistinctCodes, Item, ProjectedError, Outcome;
    forall k | 0 <= k < |at| ensures StoredFrom(r, t[|rows| + k], op.manifest[at[k]], op.PublishFixed?, op.now) {
      StampedFrom(r, op.manifest[at[k]], op.PublishFixed?, op.now);
    }
  }

  lemma PreparedAre<D>(r: Rules<D>, op: Op<D>)
    requires (op.PublishFixed? || op.PublishDynamic?) && PreparedOf(r, op).Ok?
    ensures var p, how := PreparedOf(r, op).value, if op.PublishFixed? then FixedManifest else DynamicCatalog;
            |p| == |op.manifest| && forall i | 0 <= i < |p| :: p[i] == Item(r, op.manifest[i], how) && p[i].code == op.manifest[i].code
  {
    PreparedItems(r, op.manifest, {}, if op.PublishFixed? then FixedManifest else DynamicCatalog);
    hide PrepareAll, AllValid, DistinctCodes, SourceID;
  }

  lemma StampedFrom<D>(r: Rules<D>, item: Source<D>, fixed: bool, now: int)
    ensures StoredFrom(r, Stamp(Item(r, item, if fixed then FixedManifest else DynamicCatalog), now), item, fixed, now)
  {
  }

  /** The answer to a publication is, item by item, the row that now stands under the item's code. */
  lemma AnswerStored<D>(r: Rules<D>, rows: seq<Source<D>>, op: Op<D>, i: nat)
    requires Inv(r, rows) && Clocked(op) && RealTimes(op) && (op.PublishFixed? || op.PublishDynamic?)
    requires Outcome(r, rows, op).Ok? && i < |op.manifest|
    ensures PreparedOf(r, op).Ok?
    ensures var answer := Answer(rows, PreparedOf(r, op).value, op.now);
            && |answer| == |op.manifest|
            && answer[i].code == op.manifest[i].code && answer[i] in Outcome(r, rows, op).value
  {
    hide *;
    PublishOutcome(r, rows, op);
    PreparedAre(r, op);
    AnswerInTable(rows, PreparedOf(r, op).value, i, op.now);
  }

  lemma AnswerInTable<D>(rows: seq<Source<D>>, p: seq<Source<D>>, i: nat, now: int)
    requires i < |p|
    ensures |Answer(rows, p, now)| == |p|
    ensures Answer(rows, p, now)[i].code == p[i].code && Answer(rows, p, now)[i] in rows + StampAll(Missing(rows, p), now)
  {
    MissingFrom(rows, p);
    var m := Missing(rows, p);
    hide Missing, Find;
    if Find(rows, p[i].code) < 0 {
      var k :| 0 <= k < |m| && m[k] == p[i];
      assert StampAll(m, now)[k] == Stamp(p[i], now);
    }
  }

  /** An import into an empty catalogue that succeeds stores one row for each item, in the order of the request and with the
    times of the request. */
  lemma ImportFills<D>(r: Rules<D>, items: seq<Source<D>>, now: int)
    requires Outcome(r, [], Import(items, now)).Ok? && forall i | 0 <= i < |items| :: items[i].createdAt >= 0
    ensures var t := Outcome(r, [], Import(items, now)).value;
            && |t| == |items|
            && forall i | 0 <= i < |items| ::
                 StoredFrom(r, t[i], items[i], false, now) && t[i].createdAt == items[i].createdAt && t[i].updatedAt == items[i].updatedAt
  {
    PreparedItems(r, items, {}, Exported);
    var p := PrepareAll(r, items, {}, Exported).value;
    InsertAllResult([], p, now);
    hide PrepareAll, ProjectedError, InsertAll, StoredFrom, DistinctCodes, Item, ValidSource, Stamp;
    forall i | 0 <= i < |items|
      ensures StoredFrom(r, Stamp(p[i], now), items[i], false, now)
      ensures Stamp(p[i], now).createdAt == items[i].createdAt && Stamp(p[i], now).updatedAt == items[i].updatedAt
    {
      ImportedFrom(r, items[i], now);
    }
    hide AllValid;
    assert [] + StampAll(p, now) == StampAll(p, now);
  }

  lemma ImportedFrom<D>(r: Rules<D>, item: Source<D>, now: int)
    requires ValidSource(r, Item(r, item, Exported), true)
    ensures var x := Stamp(Item(r, item, Exported), now);
            StoredFrom(r, x, item, false, now) && x.createdAt == item.createdAt && x.updatedAt == item.updatedAt
  {
  }

  // ---- the order of the answers ----

  function ChannelName(c: Channel): string {
    match c
    case WebSearch => "web_search"
    case Api => "api"
    case Rss => "rss"
    case UnknownChannel => ""
  }

  /** By channel name, then priority, then code. */
  ghost predicate SnapshotBefore<D>(r: Rules<D>, a: Source<D>, b: Source<D>) {
    || Precedes(Utf8(ChannelName(a.channel)), Utf8(ChannelName(b.channel)))
    || (a.channel == b.channel && r.priority(a.details) < r.priority(b.details))
    || (a.channel == b.channel && r.priority(a.details) == r.priority(b.details) && Precedes(Utf8(a.code), Utf8(b.code)))
  }

  lemma NamesInOrder(a: Channel, b: Channel)
    ensures Precedes(Utf8(ChannelName(a)), Utf8(ChannelName(b))) <==> ChannelRank(a) < ChannelRank(b)
  {
    var x, y := ChannelName(a), ChannelName(b);
    KeyOrdersPrecede(x, y);
    FirstByte(x);
    FirstByte(y);
    hide Precedes;
    if x == y {
      KeyLess8IsStrictTotalOrder(x, x, x);
    }
  }

  lemma FirstByte(s: string)
    ensures s == "" ==> Utf8(s) == []
    ensures s != "" && s[0] < '\U{80}' ==> Utf8(s) != [] && Utf8(s)[0] == s[0] as int
  {
  }

  lemma BeforeMeans<D>(r: Rules<D>, a: Source<D>, b: Source<D>)
    requires a.code != b.code
    ensures Before(r, BySnapshot, a, b) <==> SnapshotBefore(r, a, b)
    ensures Before(r, ByCode, a, b) <==> Precedes(Utf8(a.code), Utf8(b.code))
    ensures Before(r, BySnapshot, a, b) || Before(r, BySnapshot, b, a)
    ensures Before(r, ByCode, a, b) || Before(r, ByCode, b, a)
  {
    NamesInOrder(a.channel, b.channel);
    KeyOrdersPrecede(a.code, b.code);
    KeyLess8IsStrictTotalOrder(a.code, b.code, a.code);
    hide Precedes, ChannelName, KeyLess8;
  }

  ghost predicate CodesDiffer<D>(rows: seq<Source<D>>) {
    forall i, j | 0 <= i < j < |rows| :: rows[i].code != rows[j].code
  }

  /** Of rows with different codes a snapshot lists the one with the smaller channel name first, then the one with the smaller
    priority, then the one with the smaller code; an import lists them by code. */
  lemma AnswersInOrder<D>(r: Rules<D>, rows: seq<Source<D>>, i: nat, j: nat)
    requires CodesDiffer(rows) && i < j < |rows|
    ensures |Sorted(r, BySnapshot, rows)| == |Sorted(r, ByCode, rows)| == |rows|
    ensures SnapshotBefore(r, Sorted(r, BySnapshot, rows)[i], Sorted(r, BySnapshot, rows)[j])
    ensures Precedes(Utf8(Sorted(r, ByCode, rows)[i].code), Utf8(Sorted(r, ByCode, rows)[j].code))
  {
    SortedPair(r, BySnapshot, rows, i, j);
    SortedPair(r, ByCode, rows, i, j);
    BeforeMeans(r, Sorted(r, BySnapshot, rows)[i], Sorted(r, BySnapshot, rows)[j]);
    BeforeMeans(r, Sorted(r, ByCode, rows)[i], Sorted(r, ByCode, rows)[j]);
    hide *;
  }

  lemma SortedPair<D>(r: Rules<D>, o: Order, rows: seq<Source<D>>, i: nat, j: nat)
    requires CodesDiffer(rows) && i < j < |rows|
    ensures |Sorted(r, o, rows)| == |rows|
    ensures var s := Sorted(r, o, rows); s[i].code != s[j].code && !Before(r, o, s[j], s[i])
  {
    SortedInOrder(r, o, rows);
    var s := Sorted(r, o, rows);
    hide Before, Sorted;
    assert |s| == |multiset(s)| == |multiset(rows)| == |rows|;
    if s[i].code == s[j].code {
      PairTwice(s, i, j);
      SameCodeOnce(rows, s[i], s[j]);
    }
  }

  lemma PairTwice<T>(s: seq<T>, i: nat, j: nat)
    requires i < j < |s|
    ensures s[i] in multiset(s) && s[j] in multiset(s) && (s[i] == s[j] ==> multiset(s)[s[i]] >= 2)
  {
    assert s == s[..i] + [s[i]] + s[i + 1..j] + [s[j]] + s[j + 1..];
  }

  /** Rows with different codes hold no row twice and no two of one code. */
  lemma {:induction false} SameCodeOnce<D>(rows: seq<Source<D>>, a: Source<D>, b: Source<D>)
    requires CodesDiffer(rows) && a in multiset(rows) && b in multiset(rows) && a.code == b.code
    ensures a == b && multiset(rows)[a] == 1
  {
    var i :| 0 <= i < |rows| && rows[i] == a;
    var j :| 0 <= j < |rows| && rows[j] == b;
    assert i == j;
    assert rows == rows[..i] + [a] + rows[i + 1..];
    assert a !in rows[..i] && a !in rows[i + 1..];
  }
}
