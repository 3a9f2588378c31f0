/** What every reachable Source catalogue satisfies, over any interleaving of atomic operations. */
module SourceCatalogRuns {
  import opened Json
  import opened Identity
  import opened SourceCatalog

  ghost predicate AtMostOneWeb<D>(rows: seq<Source<D>>) {
    forall i, j | 0 <= i < j < |rows| :: !(ActiveWeb(rows[i]) && ActiveWeb(rows[j]))
  }

  /** The catalogue invariant. */
  ghost predicate Inv<D>(r: Rules<D>, rows: seq<Source<D>>) {
    |rows| <= MAX_SOURCES && UniqueRows(rows) && AllValid(r, rows, true) && AtMostOneWeb(rows)
  }

  /** The clock shows a real time. */
  predicate Clocked<D>(op: Op<D>) {
    match op
    case Delete(_) => true
    case _ => op.now > 0
  }

  // ---- counting enabled web searches ----

  lemma {:induction false} NoWeb<D>(rows: seq<Source<D>>)
    ensures WebCount(rows) == 0 <==> forall i | 0 <= i < |rows| :: !ActiveWeb(rows[i])
  {
    if rows != [] { NoWeb(rows[..|rows| - 1]); }
  }

  lemma {:induction false} WebCountPairs<D>(rows: seq<Source<D>>)
    ensures WebCount(rows) <= 1 <==> AtMostOneWeb(rows)
  {
    if rows != [] {
      var init := rows[..|rows| - 1];
      WebCountPairs(init);
      NoWeb(init);
      forall i, j | 0 <= i < j < |init| ensures init[i] == rows[i] && init[j] == rows[j] {}
    }
  }

  // ---- inserting ----

  function StampAll<D>(items: seq<Source<D>>, now: int): seq<Source<D>> {
    seq(|items|, i requires 0 <= i < |items| => Stamp(items[i], now))
  }

  /** Successful inserts append the stamped items and keep the table's constraints. */
  lemma {:induction false} InsertAllResult<D>(rows: seq<Source<D>>, items: seq<Source<D>>, now: int)
    requires UniqueRows(rows) && AtMostOneWeb(rows) && InsertAll(rows, items, now).Ok?
    ensures InsertAll(rows, items, now).value == rows + StampAll(items, now)
    ensures UniqueRows(rows + StampAll(items, now)) && AtMostOneWeb(rows + StampAll(items, now))
    ensures forall i | 0 <= i < |items| :: Stamp(items[i], now).createdAt <= Stamp(items[i], now).updatedAt
  {
    if items == [] {
      assert StampAll(items, now) == [];
      assert rows + [] == rows;
    } else {
      var init, last := items[..|items| - 1], items[|items| - 1];
      InsertAllResult(rows, init, now);
      var t := rows + StampAll(init, now);
      assert StampAll(items, now) == StampAll(init, now) + [Stamp(last, now)];
      assert rows + StampAll(items, now) == t + [Stamp(last, now)];
      InsertResult(t, last, now);
    }
  }

  lemma InsertResult<D>(t: seq<Source<D>>, s: Source<D>, now: int)
    requires UniqueRows(t) && AtMostOneWeb(t) && Insert(t, s, now).Ok?
    ensures Insert(t, s, now).value == t + [Stamp(s, now)]
    ensures UniqueRows(t + [Stamp(s, now)]) && AtMostOneWeb(t + [Stamp(s, now)])
    ensures Stamp(s, now).createdAt <= Stamp(s, now).updatedAt
  {
    var u := t + [Stamp(s, now)];
    forall i | 0 <= i < |t| ensures t[i].id != s.id && t[i].code != s.code && !(ActiveWeb(t[i]) && ActiveWeb(s)) {}
  }

  /** The publication loop is one insertion of the missing items. */
  lemma {:induction false} FixedLoopInserts<D>(base: seq<Source<D>>, prepared: seq<Source<D>>, now: int)
    requires FixedLoop(base, prepared, now).Ok?
    ensures InsertAll(base, Missing(base, prepared), now) == FixedLoop(base, prepared, now)
  {
    hide Insert, MatchesFixed, Find;
    if prepared != [] {
      var init, last := prepared[..|prepared| - 1], prepared[|prepared| - 1];
      FixedLoopInserts(base, init, now);
      var m := Missing(base, init);
      if Find(base, last.code) < 0 {
        assert (m + [last])[..|m|] == m;
      } else {
        assert m + [] == m;
      }
    }
  }

  lemma {:induction false} FixedLoopMatches<D>(base: seq<Source<D>>, prepared: seq<Source<D>>, now: int)
    requires FixedLoop(base, prepared, now).Ok?
    ensures forall i | 0 <= i < |prepared| :: Find(base, prepared[i].code) >= 0 ==>
              MatchesFixed(base[Find(base, prepared[i].code)], prepared[i])
  {
    hide Insert, MatchesFixed, Find;
    if prepared != [] {
      var init := prepared[..|prepared| - 1];
      FixedLoopMatches(base, init, now);
      forall i | 0 <= i < |init| && Find(base, prepared[i].code) >= 0
        ensures MatchesFixed(base[Find(base, prepared[i].code)], prepared[i])
      {
        assert init[i] == prepared[i];
      }
    }
  }

  lemma StampedValid<D>(r: Rules<D>, s: Source<D>, now: int)
    requires now > 0 && ValidSource(r, s, false) && Stamp(s, now).createdAt <= Stamp(s, now).updatedAt
    requires s.createdAt >= 0
    ensures ValidSource(r, Stamp(s, now), true)
  {
  }

  // ---- publishing keeps the invariant ----

  /** Creation times carried by an operation's input are not negative. */
  ghost predicate RealTimes<D>(op: Op<D>) {
    match op
    case PublishFixed(manifest, _) => forall i | 0 <= i < |manifest| :: manifest[i].createdAt >= 0
    case PublishDynamic(manifest, _) => forall i | 0 <= i < |manifest| :: manifest[i].createdAt >= 0
    case Import(items, _) => forall i | 0 <= i < |items| :: items[i].createdAt >= 0
    case _ => true
  }

  lemma InsertedInv<D>(r: Rules<D>, rows: seq<Source<D>>, items: seq<Source<D>>, now: int)
    requires Inv(r, rows) && now > 0 && InsertAll(rows, items, now).Ok? && |rows + items| <= MAX_SOURCES
    requires AllValid(r, items, false) && forall i | 0 <= i < |items| :: items[i].createdAt >= 0
    ensures Inv(r, InsertAll(rows, items, now).value)
    ensures InsertAll(rows, items, now).value == rows + StampAll(items, now)
  {
    InsertAllResult(rows, items, now);
    forall i | 0 <= i < |items| ensures ValidSource(r, StampAll(items, now)[i], true) {
      StampedValid(r, items[i], now);
    }
  }

  lemma {:induction false} MissingFrom<D>(rows: seq<Source<D>>, prepared: seq<Source<D>>)
    ensures forall s | s in Missing(rows, prepared) :: s in prepared && Find(rows, s.code) < 0
    ensures forall i | 0 <= i < |prepared| :: Find(rows, prepared[i].code) >= 0 || prepared[i] in Missing(rows, prepared)
  {
    if prepared != [] {
      MissingFrom(rows, prepared[..|prepared| - 1]);
      assert prepared == prepared[..|prepared| - 1] + [prepared[|prepared| - 1]];
    }
  }

  lemma MissingValid<D>(r: Rules<D>, rows: seq<Source<D>>, prepared: seq<Source<D>>)
    requires AllValid(r, prepared, false) && forall i | 0 <= i < |prepared| :: prepared[i].createdAt >= 0
    ensures AllValid(r, Missing(rows, prepared), false)
    ensures forall i | 0 <= i < |Missing(rows, prepared)| :: Missing(rows, prepared)[i].createdAt >= 0
  {
    MissingFrom(rows, prepared);
    forall i | 0 <= i < |Missing(rows, prepared)|
      ensures ValidSource(r, Missing(rows, prepared)[i], false) && Missing(rows, prepared)[i].createdAt >= 0
    {
      assert Missing(rows, prepared)[i] in prepared;
    }
  }

  /** A publication that succeeds appends exactly the stamped missing items. */
  lemma PublishAppends<D>(r: Rules<D>, rows: seq<Source<D>>, prepared: seq<Source<D>>, now: int)
    requires Inv(r, rows) && now > 0 && AllValid(r, prepared, false)
    requires forall i | 0 <= i < |prepared| :: prepared[i].createdAt >= 0
    requires ProjectedError(r, rows + Missing(rows, prepared)).None?
    requires InsertAll(rows, Missing(rows, prepared), now).Ok?
    ensures Inv(r, rows + StampAll(Missing(rows, prepared), now))
    ensures InsertAll(rows, Missing(rows, prepared), now).value == rows + StampAll(Missing(rows, prepared), now)
  {
    MissingValid(r, rows, prepared);
    InsertedInv(r, rows, Missing(rows, prepared), now);
  }

  /** The prepared manifest of a publication. */
  function PreparedOf<D>(r: Rules<D>, op: Op<D>): Result<seq<Source<D>>>
    requires op.PublishFixed? || op.PublishDynamic?
  {
    PrepareAll(r, op.manifest, {}, if op.PublishFixed? then FixedManifest else DynamicCatalog)
  }

  lemma PublishOutcome<D>(r: Rules<D>, rows: seq<Source<D>>, op: Op<D>)
    requires Inv(r, rows) && Clocked(op) && RealTimes(op) && (op.PublishFixed? || op.PublishDynamic?)
    requires Outcome(r, rows, op).Ok?
    ensures PreparedOf(r, op).Ok?
    ensures var p := PreparedOf(r, op).value;
            && AllValid(r, p, false) && DistinctCodes(p)
            && ProjectedError(r, rows + Missing(rows, p)).None?
            && InsertAll(rows, Missing(rows, p), op.now) == Outcome(r, rows, op)
            && Outcome(r, rows, op).value == rows + StampAll(Missing(rows, p), op.now)
            && (forall i | 0 <= i < |p| :: p[i].createdAt >= 0 && Find(rows, p[i].code) >= 0 ==>
                  if op.PublishFixed? then MatchesFixed(rows[Find(rows, p[i].code)], p[i])
                  else MatchesDynamic(rows[Find(rows, p[i].code)], p[i]))
            && (op.PublishFixed? ==> forall i | 0 <= i < |p| :: p[i].ownership == Fixed)
    ensures Inv(r, Outcome(r, rows, op).value)
  {
    var p := PreparedOf(r, op).value;
    if op.PublishFixed? {
      PreparedItems(r, op.manifest, {}, FixedManifest);
      FixedLoopInserts(rows, p, op.now);
      FixedLoopMatches(rows, p, op.now);
    } else {
      PreparedItems(r, op.manifest, {}, DynamicCatalog);
    }
    hide PrepareAll, ProjectedError, InsertAll, FixedLoop;
    PublishAppends(r, rows, p, op.now);
  }

  // ---- every step keeps the invariant ----

  lemma CreateInv<D>(r: Rules<D>, rows: seq<Source<D>>, input: Input<D>, now: int)
    requires Inv(r, rows) && now > 0 && AfterCreate(r, rows, input, now).Ok?
    ensures Inv(r, AfterCreate(r, rows, input, now).value)
    ensures AfterCreate(r, rows, input, now).value == rows + [Stamp(Candidate(r, input), now)]
    ensures ProjectedError(r, rows + [Candidate(r, input)]).None?
  {
    var c := Candidate(r, input);
    InsertResult(rows, c, now);
    StampedValid(r, c, now);
  }

  lemma UpdateInv<D>(r: Rules<D>, rows: seq<Source<D>>, id: string, change: Input<D>, now: int)
    requires Inv(r, rows) && now > 0 && AfterUpdate(r, rows, id, change, now).Ok?
    ensures Inv(r, AfterUpdate(r, rows, id, change, now).value)
  {
    hide FindID, EnvelopeSize, Is;
    var at := FindID(rows, id);
    var c := Changed(rows[at], change);
    var t := rows[at := c.(updatedAt := now)];
    WebCountPairs(rows[at := c]);
    forall i, j | 0 <= i < j < |t| ensures !(ActiveWeb(t[i]) && ActiveWeb(t[j])) {
      assert ActiveWeb(t[i]) == ActiveWeb(rows[at := c][i]) && ActiveWeb(t[j]) == ActiveWeb(rows[at := c][j]);
    }
    assert ValidSource(r, c, false) && ValidSource(r, rows[at], true);
    assert ValidSource(r, t[at], true);
  }

  lemma DeleteInv<D>(r: Rules<D>, rows: seq<Source<D>>, id: string)
    requires Inv(r, rows) && AfterDelete(rows, id).Ok?
    ensures Inv(r, AfterDelete(rows, id).value)
  {
    var at := FindID(rows, id);
    DroppedInv(r, rows, rows[..at] + rows[at + 1..], at);
  }

  lemma DroppedInv<D>(r: Rules<D>, rows: seq<Source<D>>, t: seq<Source<D>>, at: nat)
    requires Inv(r, rows) && |t| + 1 == |rows| && forall i | 0 <= i < |t| :: t[i] == rows[if i < at then i else i + 1]
    ensures Inv(r, t)
  {
    hide ValidSource, ActiveWeb;
  }

  lemma ImportInv<D>(r: Rules<D>, rows: seq<Source<D>>, op: Op<D>)
    requires Inv(r, rows) && op.Import? && Clocked(op) && RealTimes(op) && Outcome(r, rows, op).Ok?
    ensures Inv(r, Outcome(r, rows, op).value)
    ensures rows != [] ==> Outcome(r, rows, op).value == rows
    ensures rows == [] ==> var p := PrepareAll(r, op.items, {}, Exported).value;
              ProjectedError(r, p).None? && AllValid(r, p, true) && Outcome(r, rows, op).value == p
  {
    PreparedItems(r, op.items, {}, Exported);
    var p := PrepareAll(r, op.items, {}, Exported).value;
    hide PrepareAll;
    if rows == [] {
      assert rows + p == p;
      InsertedInv(r, rows, p, op.now);
      assert StampAll(p, op.now) == p;
    }
  }

  lemma StepKeepsInv<D>(r: Rules<D>, rows: seq<Source<D>>, op: Op<D>)
    requires Inv(r, rows) && Clocked(op) && RealTimes(op)
    ensures Inv(r, After(r, rows, op))
  {
    if Outcome(r, rows, op).Ok? {
      match op {
        case Create(input, now) => CreateInv(r, rows, input, now);
        case PublishFixed(_, _) => PublishOutcome(r, rows, op);
        case PublishDynamic(_, _) => PublishOutcome(r, rows, op);
        case Update(id, change, now) => UpdateInv(r, rows, id, change, now);
        case Delete(id) => DeleteInv(r, rows, id);
        case Import(_, _) => ImportInv(r, rows, op);
      }
    }
  }

  ghost predicate RealOps<D>(ops: seq<Op<D>>) {
    forall i | 0 <= i < |ops| :: Clocked(ops[i]) && RealTimes(ops[i])
  }

  /** Every reachable catalogue is valid, within capacity, with unique codes and ids and at most one
    enabled web search. */
  lemma {:induction false} ReachableInv<D>(r: Rules<D>, rows: seq<Source<D>>, ops: seq<Op<D>>)
    requires Inv(r, rows) && RealOps(ops)
    ensures Inv(r, Run(r, rows, ops))
  {
    if ops != [] {
      ReachableInv(r, rows, ops[..|ops| - 1]);
      StepKeepsInv(r, Run(r, rows, ops[..|ops| - 1]), ops[|ops| - 1]);
    }
  }

  lemma EmptyCatalogue<D>(r: Rules<D>)
    ensures Inv(r, [])
  {
  }

  // ---- identities never change, fixed sources never disappear ----

  predicate SameIdentity<D>(a: Source<D>, b: Source<D>) {
    a.id == b.id && a.code == b.code && a.ownership == b.ownership && a.channel == b.channel
  }

  ghost predicate NoRelabelling<D>(rows: seq<Source<D>>, t: seq<Source<D>>) {
    forall i, j | 0 <= i < |rows| && 0 <= j < |t| ::
      rows[i].id == t[j].id || rows[i].code == t[j].code ==> SameIdentity(rows[i], t[j])
  }

  ghost predicate Holds<D>(t: seq<Source<D>>, s: Source<D>) {
    exists j :: 0 <= j < |t| && SameIdentity(s, t[j])
  }

  ghost predicate KeepsFixed<D>(rows: seq<Source<D>>, t: seq<Source<D>>) {
    forall i | 0 <= i < |rows| && rows[i].ownership == Fixed :: Holds(t, rows[i])
  }

  lemma AppendKeeps<D>(rows: seq<Source<D>>, more: seq<Source<D>>)
    requires UniqueRows(rows + more)
    ensures NoRelabelling(rows, rows + more) && KeepsFixed(rows, rows + more)
  {
    var t := rows + more;
    forall i, j | 0 <= i < |rows| && 0 <= j < |t| && (rows[i].id == t[j].id || rows[i].code == t[j].code)
      ensures SameIdentity(rows[i], t[j])
    {
      assert t[i] == rows[i];
      assert i == j;
    }
    forall i | 0 <= i < |rows| ensures Holds(t, rows[i]) {
      assert SameIdentity(rows[i], t[i]);
    }
  }

  lemma UpdateKeeps<D>(r: Rules<D>, rows: seq<Source<D>>, id: string, change: Input<D>, now: int)
    requires UniqueRows(rows) && AfterUpdate(r, rows, id, change, now).Ok?
    ensures var t := AfterUpdate(r, rows, id, change, now).value; NoRelabelling(rows, t) && KeepsFixed(rows, t)
  {
    var t := AfterUpdate(r, rows, id, change, now).value;
    assert forall i | 0 <= i < |rows| :: SameIdentity(rows[i], t[i]);
    forall i, j | 0 <= i < |rows| && 0 <= j < |t| && (rows[i].id == t[j].id || rows[i].code == t[j].code)
      ensures SameIdentity(rows[i], t[j])
    {
      assert SameIdentity(rows[j], t[j]);
      assert i == j;
    }
    forall i | 0 <= i < |rows| ensures Holds(t, rows[i]) {
      assert SameIdentity(rows[i], t[i]);
    }
  }

  lemma DeleteKeeps<D>(rows: seq<Source<D>>, id: string)
    requires UniqueRows(rows) && AfterDelete(rows, id).Ok?
    ensures var t := AfterDelete(rows, id).value; NoRelabelling(rows, t) && KeepsFixed(rows, t)
  {
    var at := FindID(rows, id);
    var t := AfterDelete(rows, id).value;
    assert forall j | 0 <= j < |t| :: t[j] == rows[if j < at then j else j + 1];
    forall i | 0 <= i < |rows| && rows[i].ownership == Fixed ensures Holds(t, rows[i]) {
      var j := if i < at then i else i - 1;
      assert SameIdentity(rows[i], t[j]);
    }
  }

  /** One step changes no entry's id, code, ownership or channel and removes no fixed entry. */
  lemma StepKeepsIdentities<D>(r: Rules<D>, rows: seq<Source<D>>, op: Op<D>)
    requires Inv(r, rows) && Clocked(op) && RealTimes(op)
    ensures NoRelabelling(rows, After(r, rows, op)) && KeepsFixed(rows, After(r, rows, op))
  {
    StepKeepsInv(r, rows, op);
    assert rows + [] == rows;
    AppendKeeps(rows, []);
    if Outcome(r, rows, op).Ok? {
      match op {
        case Create(input, now) => CreateInv(r, rows, input, now); AppendKeeps(rows, [Stamp(Candidate(r, input), now)]);
        case PublishFixed(_, _) => PublishOutcome(r, rows, op); AppendKeeps(rows, StampAll(Missing(rows, PreparedOf(r, op).value), op.now));
        case PublishDynamic(_, _) => PublishOutcome(r, rows, op); AppendKeeps(rows, StampAll(Missing(rows, PreparedOf(r, op).value), op.now));
        case Update(id, change, now) => UpdateKeeps(r, rows, id, change, now);
        case Delete(id) => DeleteKeeps(rows, id);
        case Import(_, _) => ImportInv(r, rows, op);
      }
    }
  }

  /** Over every run a fixed entry stays, with its id, code, ownership and channel. */
  lemma {:induction false} FixedSourcesStay<D>(r: Rules<D>, rows: seq<Source<D>>, ops: seq<Op<D>>)
    requires Inv(r, rows) && RealOps(ops)
    ensures KeepsFixed(rows, Run(r, rows, ops))
  {
    if ops == [] {
      assert rows + [] == rows;
      AppendKeeps(rows, []);
    } else {
      var before := Run(r, rows, ops[..|ops| - 1]);
      var after := Run(r, rows, ops);
      FixedSourcesStay(r, rows, ops[..|ops| - 1]);
      ReachableInv(r, rows, ops[..|ops| - 1]);
      StepKeepsIdentities(r, before, ops[|ops| - 1]);
      forall i | 0 <= i < |rows| && rows[i].ownership == Fixed ensures Holds(after, rows[i]) {
        assert Holds(before, rows[i]);
        var j :| 0 <= j < |before| && SameIdentity(rows[i], before[j]);
        assert Holds(after, before[j]);
        var k :| 0 <= k < |after| && SameIdentity(before[j], after[k]);
        assert SameIdentity(rows[i], after[k]);
      }
    }
  }
}
