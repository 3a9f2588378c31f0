/** The snapshot envelope over every run, and publications that are repeated. */
module SourceSnapshot {
  import opened Json
  import opened Identity
  import opened SourceCatalog
  import opened SourceCatalogRuns

  // ---- the worst-case timestamp dominates every timestamp ----

  lemma {:induction false} FractionBound(nanos: int, digits: nat)
    ensures FractionWidth(nanos, digits) <= digits
    decreases digits
  {
    if digits > 0 && nanos % 10 == 0 { FractionBound(nanos / 10, digits - 1); }
  }

  lemma WorstStampIsWidest(t: int)
    ensures StampWidth(t) <= StampWidth(WORST_STAMP) == 32
  {
    FractionBound(t % SECOND, 9);
    assert WORST_STAMP % SECOND == WORST_STAMP && WORST_STAMP % 10 == 9;
  }

  // ---- the measure is additive ----

  lemma {:induction false} ItemsSizeConcat<D>(r: Rules<D>, a: seq<Source<D>>, b: seq<Source<D>>)
    ensures ItemsSize(r, a + b) == ItemsSize(r, a) + ItemsSize(r, b)
  {
    hide ItemSize;
    if b == [] {
      assert a + b == a;
    } else {
      var init := b[..|b| - 1];
      assert (a + b)[..|a + b| - 1] == a + init;
      ItemsSizeConcat(r, a, init);
    }
  }

  function OneSize<D>(r: Rules<D>, s: Source<D>): nat { if s.enabled then ItemSize(r, s) + 1 else 0 }

  lemma ItemsSizeOne<D>(r: Rules<D>, s: Source<D>)
    ensures ItemsSize(r, [s]) == OneSize(r, s)
  {
    assert [s][..0] == [];
  }

  lemma SizeWithout<D>(r: Rules<D>, rows: seq<Source<D>>, at: nat)
    requires at < |rows|
    ensures ItemsSize(r, rows) == ItemsSize(r, rows[..at] + rows[at + 1..]) + OneSize(r, rows[at])
  {
    assert rows == rows[..at] + ([rows[at]] + rows[at + 1..]);
    ItemsSizeConcat(r, rows[..at], [rows[at]] + rows[at + 1..]);
    ItemsSizeConcat(r, [rows[at]], rows[at + 1..]);
    ItemsSizeConcat(r, rows[..at], rows[at + 1..]);
    ItemsSizeOne(r, rows[at]);
  }

  lemma SizeReplaced<D>(r: Rules<D>, rows: seq<Source<D>>, at: nat, s: Source<D>)
    requires at < |rows|
    ensures ItemsSize(r, rows[at := s]) == ItemsSize(r, rows[..at] + rows[at + 1..]) + OneSize(r, s)
  {
    SizeWithout(r, rows[at := s], at);
    assert rows[at := s][..at] == rows[..at] && rows[at := s][at + 1..] == rows[at + 1..];
  }

  // ---- what is stored against what was measured ----

  /** How much wider an item is stored than it was measured: without a creation time both times are set anew. */
  function StampRoom<D>(s: Source<D>, now: int): int {
    if s.enabled && s.createdAt == 0 then 2 * StampWidth(now) - StampWidth(WORST_STAMP) - StampWidth(Measured(s.updatedAt)) else 0
  }

  function StampRooms<D>(items: seq<Source<D>>, now: int): int {
    if items == [] then 0 else StampRooms(items[..|items| - 1], now) + StampRoom(items[|items| - 1], now)
  }

  lemma StoredOne<D>(r: Rules<D>, s: Source<D>, now: int)
    requires now != 0
    ensures OneSize(r, Stamp(s, now)) == OneSize(r, s) + StampRoom(s, now)
    ensures OneSize(r, Stamp(s, now)) == 0 <==> OneSize(r, s) == 0
  {
    hide StampWidth;
    assert Stamp(s, now).(createdAt := 0, updatedAt := 0) == s.(createdAt := 0, updatedAt := 0);
  }

  lemma {:induction false} StoredSize<D>(r: Rules<D>, items: seq<Source<D>>, now: int)
    requires now != 0
    ensures ItemsSize(r, StampAll(items, now)) == ItemsSize(r, items) + StampRooms(items, now)
    ensures ItemsSize(r, StampAll(items, now)) == 0 <==> ItemsSize(r, items) == 0
  {
    if items != [] {
      var init, last := items[..|items| - 1], items[|items| - 1];
      StoredSize(r, init, now);
      StoredOne(r, last, now);
      assert StampAll(items, now)[..|items| - 1] == StampAll(init, now);
      hide ItemSize, StampRoom, Stamp;
    }
  }

  lemma StoredEnvelope<D>(r: Rules<D>, rows: seq<Source<D>>, items: seq<Source<D>>, now: int)
    requires now != 0
    ensures EnvelopeSize(r, rows + StampAll(items, now)) == EnvelopeSize(r, rows + items) + StampRooms(items, now)
  {
    ItemsSizeConcat(r, rows, items);
    ItemsSizeConcat(r, rows, StampAll(items, now));
    StoredSize(r, items, now);
  }

  /** An item without a creation time carries no update time either. */
  predicate PlainStamps<D>(s: Source<D>) { s.createdAt == 0 ==> s.updatedAt == 0 }

  /** Plain items are never stored wider than they were measured. */
  lemma {:induction false} PlainRooms<D>(items: seq<Source<D>>, now: int)
    requires forall i | 0 <= i < |items| :: PlainStamps(items[i])
    ensures StampRooms(items, now) <= 0
  {
    if items != [] {
      PlainRooms(items[..|items| - 1], now);
      WorstStampIsWidest(now);
      assert PlainStamps(items[|items| - 1]);
    }
  }

  ghost predicate Fits<D>(r: Rules<D>, rows: seq<Source<D>>) { EnvelopeSize(r, rows) <= MAX_ENVELOPE }

  // ---- a snapshot is served exactly while the envelope fits ----

  lemma {:induction false} EnabledCount<D>(rows: seq<Source<D>>)
    ensures |Enabled(rows)| <= |rows|
  {
    if rows != [] { EnabledCount(rows[..|rows| - 1]); }
  }

  lemma ServedIffFits<D>(r: Rules<D>, rows: seq<Source<D>>)
    requires Inv(r, rows)
    ensures SnapshotServed(r, rows) <==> Fits(r, rows)
  {
    hide ValidSource, EnvelopeSize;
    EnabledCount(rows);
  }

  // ---- steps and the envelope ----

  ghost predicate PlainManifest<D>(op: Op<D>) {
    match op
    case PublishFixed(manifest, _) => forall i | 0 <= i < |manifest| :: PlainStamps(manifest[i])
    case PublishDynamic(manifest, _) => forall i | 0 <= i < |manifest| :: PlainStamps(manifest[i])
    case _ => true
  }

  lemma MissingPlain<D>(r: Rules<D>, rows: seq<Source<D>>, op: Op<D>)
    requires (op.PublishFixed? || op.PublishDynamic?) && PlainManifest(op) && PreparedOf(r, op).Ok?
    ensures var m := Missing(rows, PreparedOf(r, op).value); forall i | 0 <= i < |m| :: PlainStamps(m[i])
  {
    var p := PreparedOf(r, op).value;
    PreparedItems(r, op.manifest, {}, if op.PublishFixed? then FixedManifest else DynamicCatalog);
    MissingFrom(rows, p);
    var m := Missing(rows, p);
    forall i | 0 <= i < |m| ensures PlainStamps(m[i]) {
      assert m[i] in p;
      var k :| 0 <= k < |p| && p[k] == m[i];
      assert PlainStamps(op.manifest[k]);
    }
  }

  lemma PublishMeasured<D>(r: Rules<D>, rows: seq<Source<D>>, op: Op<D>)
    requires Inv(r, rows) && Clocked(op) && RealTimes(op) && (op.PublishFixed? || op.PublishDynamic?) && Outcome(r, rows, op).Ok?
    ensures PreparedOf(r, op).Ok? && Fits(r, rows + Missing(rows, PreparedOf(r, op).value))
    ensures Fits(r, Outcome(r, rows, op).value) <==> RoomFor(r, rows, op)
  {
    PublishOutcome(r, rows, op);
    hide Outcome, Missing, StampAll, StampRooms, Inv, PreparedOf;
    StoredEnvelope(r, rows, Missing(rows, PreparedOf(r, op).value), op.now);
  }

  /** A plain manifest always has room. */
  lemma PlainHasRoom<D>(r: Rules<D>, rows: seq<Source<D>>, op: Op<D>)
    requires Inv(r, rows) && Clocked(op) && RealTimes(op) && PlainManifest(op)
    requires (op.PublishFixed? || op.PublishDynamic?) && Outcome(r, rows, op).Ok?
    ensures RoomFor(r, rows, op)
  {
    PublishMeasured(r, rows, op);
    MissingPlain(r, rows, op);
    hide Outcome, Missing, StampRooms, Inv, PreparedOf, PlainManifest;
    PlainRooms(Missing(rows, PreparedOf(r, op).value), op.now);
  }

  /** An update is measured with the old update time and stored with the new one. */
  lemma UpdateSize<D>(r: Rules<D>, rows: seq<Source<D>>, id: string, change: Input<D>, now: int)
    requires Inv(r, rows) && now > 0 && AfterUpdate(r, rows, id, change, now).Ok?
    ensures FindID(rows, id) >= 0
    ensures var at := FindID(rows, id);
            EnvelopeSize(r, AfterUpdate(r, rows, id, change, now).value) ==
            EnvelopeSize(r, rows[at := Changed(rows[at], change)]) +
            (if change.enabled then StampWidth(now) - StampWidth(rows[at].updatedAt) else 0)
  {
    var at := FindID(rows, id);
    var c := Changed(rows[at], change);
    var s := c.(updatedAt := now);
    hide Is, FindID, ProjectedError, StampWidth;
    SizeReplaced(r, rows, at, c);
    SizeReplaced(r, rows, at, s);
    assert ValidSource(r, rows[at], true);
    assert s.(createdAt := 0, updatedAt := 0) == c.(createdAt := 0, updatedAt := 0);
  }

  /** The room an accepted step needs beyond its measure: an update for its new timestamp, a publication for items
    that carry an update time but no creation time. */
  predicate RoomFor<D>(r: Rules<D>, rows: seq<Source<D>>, op: Op<D>) {
    match op
    case Update(id, change, now) =>
      FindID(rows, id) >= 0 && change.enabled ==>
        var at := FindID(rows, id);
        EnvelopeSize(r, rows[at := Changed(rows[at], change)]) + StampWidth(now) - StampWidth(rows[at].updatedAt) <= MAX_ENVELOPE
    case Create(_, _) => true
    case Delete(_) => true
    case Import(_, _) => true
    case _ =>
      PreparedOf(r, op).Ok? ==>
        var missing := Missing(rows, PreparedOf(r, op).value);
        EnvelopeSize(r, rows + missing) + StampRooms(missing, op.now) <= MAX_ENVELOPE
  }

  /** After an accepted step the envelope fits if and only if the measure had left the room that the timestamps of
    the store need. */
  lemma StepFitsIff<D>(r: Rules<D>, rows: seq<Source<D>>, op: Op<D>)
    requires Inv(r, rows) && Fits(r, rows) && Clocked(op) && RealTimes(op) && Outcome(r, rows, op).Ok?
    ensures Fits(r, Outcome(r, rows, op).value) <==> RoomFor(r, rows, op)
  {
    match op {
      case Create(input, now) =>
        CreateInv(r, rows, input, now);
        CreateFits(r, rows, input, now);
      case PublishFixed(_, _) => PublishMeasured(r, rows, op);
      case PublishDynamic(_, _) => PublishMeasured(r, rows, op);
      case Update(id, change, now) => UpdateSize(r, rows, id, change, now); UpdateMeasured(r, rows, id, change, now);
      case Delete(id) => SizeWithout(r, rows, FindID(rows, id));
      case Import(_, _) => ImportInv(r, rows, op);
    }
  }

  lemma CreateFits<D>(r: Rules<D>, rows: seq<Source<D>>, input: Input<D>, now: int)
    requires now != 0 && Fits(r, rows + [Candidate(r, input)])
    ensures Fits(r, rows + [Stamp(Candidate(r, input), now)])
  {
    var c := Candidate(r, input);
    StoredEnvelope(r, rows, [c], now);
    PlainRooms([c], now);
    assert StampAll([c], now) == [Stamp(c, now)];
  }

  lemma UpdateMeasured<D>(r: Rules<D>, rows: seq<Source<D>>, id: string, change: Input<D>, now: int)
    requires AfterUpdate(r, rows, id, change, now).Ok?
    ensures Fits(r, rows[FindID(rows, id) := Changed(rows[FindID(rows, id)], change)])
  {
  }

  /** Every step of the run that the catalogue accepts has room. */
  ghost predicate RoomyRun<D>(r: Rules<D>, rows: seq<Source<D>>, ops: seq<Op<D>>) {
    forall i | 0 <= i < |ops| :: Outcome(r, Run(r, rows, ops[..i]), ops[i]).Ok? ==> RoomFor(r, Run(r, rows, ops[..i]), ops[i])
  }

  lemma RoomyPrefix<D>(r: Rules<D>, rows: seq<Source<D>>, ops: seq<Op<D>>)
    requires ops != [] && RoomyRun(r, rows, ops)
    ensures RoomyRun(r, rows, ops[..|ops| - 1])
  {
    hide Run, Outcome, RoomFor;
    forall i | 0 <= i < |ops| - 1 ensures ops[..|ops| - 1][..i] == ops[..i] {}
  }

  /** From a served catalogue, a run whose accepted steps have room always serves its snapshot. */
  lemma {:induction false} SnapshotAlwaysServed<D>(r: Rules<D>, rows: seq<Source<D>>, ops: seq<Op<D>>)
    requires Inv(r, rows) && Fits(r, rows) && RealOps(ops) && RoomyRun(r, rows, ops)
    ensures Fits(r, Run(r, rows, ops)) && SnapshotServed(r, Run(r, rows, ops))
  {
    ReachableInv(r, rows, ops);
    if ops != [] {
      var init, op := ops[..|ops| - 1], ops[|ops| - 1];
      RoomyPrefix(r, rows, ops);
      SnapshotAlwaysServed(r, rows, init);
      ReachableInv(r, rows, init);
      var before := Run(r, rows, init);
      if Outcome(r, before, op).Ok? {
        StepFitsIff(r, before, op);
      }
    }
    hide *;
    ServedIffFits(r, Run(r, rows, ops));
  }

  // ---- repeating a publication ----

  lemma {:induction false} FindAppended<D>(rows: seq<Source<D>>, more: seq<Source<D>>, code: string)
    ensures Find(rows + more, code) ==
            if Find(rows, code) >= 0 then Find(rows, code)
            else if Find(more, code) >= 0 then |rows| + Find(more, code) else -1
  {
    if rows == [] {
      assert rows + more == more;
    } else {
      assert (rows + more)[1..] == rows[1..] + more;
      FindAppended(rows[1..], more, code);
    }
  }

  lemma InsertedFound<D>(m: seq<Source<D>>, prepared: seq<Source<D>>, now: int, i: nat)
    requires i < |prepared| && DistinctCodes(prepared) && prepared[i] in m && forall s | s in m :: s in prepared
    ensures var f := Find(StampAll(m, now), prepared[i].code); f >= 0 && StampAll(m, now)[f] == Stamp(prepared[i], now)
  {
    var code := prepared[i].code;
    var k :| 0 <= k < |m| && m[k] == prepared[i];
    assert StampAll(m, now)[k].code == code;
    var f := Find(StampAll(m, now), code);
    hide Find, Stamp;
    assert m[f] in prepared;
  }

  /** Where the repeated publication finds an item: the row it matched, or the one it inserted. */
  lemma FoundAgain<D>(rows: seq<Source<D>>, prepared: seq<Source<D>>, now: int, i: nat)
    requires i < |prepared| && DistinctCodes(prepared)
    ensures var t := rows + StampAll(Missing(rows, prepared), now);
            && Find(t, prepared[i].code) >= 0
            && t[Find(t, prepared[i].code)] == Answer(rows, prepared, now)[i]
  {
    var m, code := Missing(rows, prepared), prepared[i].code;
    MissingFrom(rows, prepared);
    FindAppended(rows, StampAll(m, now), code);
    if Find(rows, code) < 0 {
      InsertedFound(m, prepared, now, i);
    }
    hide Find, Missing, DistinctCodes, Stamp;
  }

  lemma {:induction false} MissingNothing<D>(t: seq<Source<D>>, prepared: seq<Source<D>>)
    requires forall i | 0 <= i < |prepared| :: Find(t, prepared[i].code) >= 0
    ensures Missing(t, prepared) == []
  {
    if prepared != [] { MissingNothing(t, prepared[..|prepared| - 1]); }
  }

  lemma {:induction false} LoopMatchesAll<D>(t: seq<Source<D>>, prepared: seq<Source<D>>, now: int)
    requires forall i | 0 <= i < |prepared| :: Find(t, prepared[i].code) >= 0 && MatchesFixed(t[Find(t, prepared[i].code)], prepared[i])
    ensures FixedLoop(t, prepared, now) == Ok(t)
  {
    if prepared != [] { LoopMatchesAll(t, prepared[..|prepared| - 1], now); }
  }

  lemma InvProjected<D>(r: Rules<D>, t: seq<Source<D>>)
    requires Inv(r, t)
    ensures ProjectedError(r, t) == if Fits(r, t) then None else Some(CapacityExceeded)
  {
    WebCountPairs(t);
  }

  function Again<D>(op: Op<D>, later: int): Op<D> {
    match op
    case PublishFixed(manifest, _) => PublishFixed(manifest, later)
    case PublishDynamic(manifest, _) => PublishDynamic(manifest, later)
    case _ => op
  }

  lemma MatchedAgain<D>(r: Rules<D>, rows: seq<Source<D>>, op: Op<D>, i: nat)
    requires Inv(r, rows) && Clocked(op) && RealTimes(op) && (op.PublishFixed? || op.PublishDynamic?)
    requires Outcome(r, rows, op).Ok? && PreparedOf(r, op).Ok? && i < |PreparedOf(r, op).value|
    ensures var t := Outcome(r, rows, op).value; var p := PreparedOf(r, op).value;
            && Find(t, p[i].code) >= 0 && t[Find(t, p[i].code)] == Answer(rows, p, op.now)[i]
            && if op.PublishFixed? then MatchesFixed(t[Find(t, p[i].code)], p[i]) else MatchesDynamic(t[Find(t, p[i].code)], p[i])
  {
    hide *;
    PublishOutcome(r, rows, op);
    FoundAgain(rows, PreparedOf(r, op).value, op.now, i);
    PreparedKind(r, op, i);
    AnswerMatches(rows, PreparedOf(r, op).value, op.PublishFixed?, op.now, i);
  }

  lemma PreparedKind<D>(r: Rules<D>, op: Op<D>, i: nat)
    requires RealTimes(op) && (op.PublishFixed? || op.PublishDynamic?) && PreparedOf(r, op).Ok? && i < |PreparedOf(r, op).value|
    ensures var x := PreparedOf(r, op).value[i]; x.createdAt >= 0 && if op.PublishFixed? then x.ownership == Fixed else CatalogItem(x)
  {
    PreparedItems(r, op.manifest, {}, if op.PublishFixed? then FixedManifest else DynamicCatalog);
    hide PrepareAll, AllValid, DistinctCodes;
  }

  /** The row answered for an item matches it, whether it was stored before or is new. */
  lemma AnswerMatches<D>(rows: seq<Source<D>>, p: seq<Source<D>>, fixed: bool, now: int, i: nat)
    requires i < |p| && if fixed then p[i].ownership == Fixed else CatalogItem(p[i])
    requires Find(rows, p[i].code) >= 0 ==>
               var row := rows[Find(rows, p[i].code)]; if fixed then MatchesFixed(row, p[i]) else MatchesDynamic(row, p[i])
    ensures var x := Answer(rows, p, now)[i]; if fixed then MatchesFixed(x, p[i]) else MatchesDynamic(x, p[i])
  {
    hide Find;
  }

  lemma NothingLeft<D>(r: Rules<D>, t: seq<Source<D>>, p: seq<Source<D>>, op: Op<D>, later: int)
    requires (op.PublishFixed? || op.PublishDynamic?) && PreparedOf(r, op) == Ok(p) && Inv(r, t)
    requires forall i | 0 <= i < |p| :: Find(t, p[i].code) >= 0
    requires forall i | 0 <= i < |p| :: if op.PublishFixed? then MatchesFixed(t[Find(t, p[i].code)], p[i]) else MatchesDynamic(t[Find(t, p[i].code)], p[i])
    ensures Outcome(r, t, Again(op, later)) == if Fits(r, t) then Ok(t) else Err(CapacityExceeded)
  {
    hide PrepareAll, Find, ProjectedError;
    MissingNothing(t, p);
    InvProjected(r, t);
    assert t + [] == t;
    if op.PublishFixed? {
      LoopMatchesAll(t, p, later);
    }
  }

  /** Publishing the same manifest again at any later time changes nothing. It answers the same rows exactly when the
    first publication had room for its timestamps, and is refused for capacity otherwise. */
  lemma RepeatedPublish<D>(r: Rules<D>, rows: seq<Source<D>>, op: Op<D>, later: int)
    requires Inv(r, rows) && Clocked(op) && RealTimes(op) && (op.PublishFixed? || op.PublishDynamic?)
    requires Outcome(r, rows, op).Ok?
    ensures After(r, Outcome(r, rows, op).value, Again(op, later)) == Outcome(r, rows, op).value
    ensures Outcome(r, Outcome(r, rows, op).value, Again(op, later)) ==
            if RoomFor(r, rows, op) then Outcome(r, rows, op) else Err(CapacityExceeded)
    ensures PreparedOf(r, op).Ok?
    ensures Answer(Outcome(r, rows, op).value, PreparedOf(r, op).value, later) == Answer(rows, PreparedOf(r, op).value, op.now)
  {
    PublishOutcome(r, rows, op);
    PublishMeasured(r, rows, op);
    var p := PreparedOf(r, op).value;
    var t := Outcome(r, rows, op).value;
    hide RoomFor, Outcome, PreparedOf, Inv, Find, Fits, MatchesFixed, MatchesDynamic;
    forall i | 0 <= i < |p|
      ensures Find(t, p[i].code) >= 0 && t[Find(t, p[i].code)] == Answer(rows, p, op.now)[i]
      ensures if op.PublishFixed? then MatchesFixed(t[Find(t, p[i].code)], p[i]) else MatchesDynamic(t[Find(t, p[i].code)], p[i])
    {
      MatchedAgain(r, rows, op, i);
    }
    NothingLeft(r, t, p, op, later);
  }
}
