/** Evidence sets are immutable over every run; permutations replay, other sets are refused. */
module EvidencePublicationRuns {
  import opened Sequences
  import opened Json
  import opened Identity
  import opened Unicode
  import opened EvidencePublication
  import CanonicalForm
  import CanonicalPrinters

  /** Every row belongs to a stored Raw Evidence, and no id occurs twice. */
  ghost predicate Inv(s: State) {
    Distinct(RowIDs(s.rows)) && forall x | x in s.rows :: x.rawId in s.raws
  }

  lemma EmptyInv()
    ensures Inv(State(map[], []))
  {
  }

  // ---- inserting ----

  lemma {:induction false} InsertedRows(rows: seq<StoredEvidence>, added: seq<StoredEvidence>)
    requires Distinct(RowIDs(rows)) && InsertAll(rows, added).Ok?
    ensures InsertAll(rows, added).value == rows + added
    ensures Distinct(RowIDs(rows + added))
  {
    if added == [] {
      assert rows + [] == rows;
    } else {
      var init, last := added[..|added| - 1], added[|added| - 1];
      InsertedRows(rows, init);
      var t := rows + init;
      assert rows + added == t + [last];
      assert RowIDs(t + [last]) == RowIDs(t) + [last.id];
      assert forall j | 0 <= j < |t| :: t[j].id != last.id;
    }
  }

  lemma {:induction false} InsertsSucceed(rows: seq<StoredEvidence>, added: seq<StoredEvidence>)
    requires Distinct(RowIDs(added)) && !AnyID(rows, RowIDs(added))
    ensures InsertAll(rows, added) == Ok(rows + added)
  {
    if added == [] {
      assert rows + [] == rows;
    } else {
      var init, last := added[..|added| - 1], added[|added| - 1];
      assert RowIDs(added) == RowIDs(init) + [last.id];
      forall i, j | 0 <= i < j < |init| ensures RowIDs(init)[i] != RowIDs(init)[j] { assert RowIDs(added)[i] != RowIDs(added)[j]; }
      InsertsSucceed(rows, init);
      var t := rows + init;
      forall j | 0 <= j < |t| ensures t[j].id != last.id {
        if j < |rows| {
          assert RowIDs(added)[|added| - 1] == last.id;
        } else {
          assert RowIDs(added)[j - |rows|] != RowIDs(added)[|added| - 1];
        }
      }
      assert rows + added == t + [last];
    }
  }

  lemma {:induction false} OfConcat(a: seq<StoredEvidence>, b: seq<StoredEvidence>, rawId: string)
    ensures Of(a + b, rawId) == Of(a, rawId) + Of(b, rawId)
  {
    if b == [] {
      assert a + b == a;
    } else {
      var init := b[..|b| - 1];
      assert (a + b)[..|a + b| - 1] == a + init;
      OfConcat(a, init, rawId);
    }
  }

  lemma {:induction false} OfUniform(rows: seq<StoredEvidence>, own: string, rawId: string)
    requires forall x | x in rows :: x.rawId == own
    ensures Of(rows, rawId) == if rawId == own then rows else []
  {
    if rows != [] {
      OfUniform(rows[..|rows| - 1], own, rawId);
      assert rows == rows[..|rows| - 1] + [rows[|rows| - 1]];
    }
  }

  lemma RecordsBelong(r: Rules, rawId: string, input: seq<Evidence>)
    requires Distinct(IDs(r, rawId, input))
    ensures forall x | x in SortedRows(Records(r, rawId, input)) :: x.rawId == rawId
  {
    RecordsDistinct(r, rawId, input);
    var records := Records(r, rawId, input);
    hide SortedRows, EvidenceID;
    forall x | x in SortedRows(records) ensures x.rawId == rawId {
      assert x in Elements(records);
      var i :| 0 <= i < |records| && records[i] == x;
    }
  }

  /** A publication that succeeds either finds its set stored or appends it. */
  lemma PublishOutcome(r: Rules, s: State, rawId: string, input: seq<Evidence>)
    requires Inv(s) && AfterPublish(r, s, rawId, input).Ok?
    ensures var records := SortedRows(Records(r, rawId, input));
            && ValidPublication(r, rawId, input) && rawId in s.raws
            && (if Of(s.rows, rawId) == [] then AfterPublish(r, s, rawId, input).value == s.(rows := s.rows + records)
                else AfterPublish(r, s, rawId, input).value == s && SameRows(Of(s.rows, rawId), records))
    ensures Inv(AfterPublish(r, s, rawId, input).value)
  {
    hide SortedRows, Is, EvidenceID, HasEvidenceID;
    if Of(s.rows, rawId) == [] {
      var records := SortedRows(Records(r, rawId, input));
      RecordsDistinct(r, rawId, input);
      RecordsBelong(r, rawId, input);
      InsertedRows(s.rows, records);
    }
  }

  lemma StepKeepsInv(r: Rules, s: State, op: Op)
    requires Inv(s)
    ensures Inv(After(r, s, op))
  {
    if op.Publish? && Outcome(r, s, op).Ok? {
      PublishOutcome(r, s, op.rawId, op.input);
    }
    hide AfterPublish;
  }

  lemma {:induction false} ReachableInv(r: Rules, s: State, ops: seq<Op>)
    requires Inv(s)
    ensures Inv(Run(r, s, ops))
  {
    if ops != [] {
      ReachableInv(r, s, ops[..|ops| - 1]);
      StepKeepsInv(r, Run(r, s, ops[..|ops| - 1]), ops[|ops| - 1]);
    }
  }

  // ---- immutability ----

  /** One step changes no stored Raw Evidence and no nonempty Evidence set. */
  lemma StepImmutable(r: Rules, s: State, op: Op, rawId: string)
    requires Inv(s)
    ensures var t := After(r, s, op);
            && (rawId in s.raws ==> rawId in t.raws && t.raws[rawId] == s.raws[rawId])
            && (Of(s.rows, rawId) != [] ==> Of(t.rows, rawId) == Of(s.rows, rawId))
  {
    if op.Publish? && Outcome(r, s, op).Ok? {
      PublishOutcome(r, s, op.rawId, op.input);
      hide AfterPublish, SortedRows, EvidenceID;
      if Of(s.rows, op.rawId) == [] {
        var records := SortedRows(Records(r, op.rawId, op.input));
        RecordsBelong(r, op.rawId, op.input);
        OfConcat(s.rows, records, rawId);
        OfUniform(records, op.rawId, rawId);
        assert Of(s.rows, rawId) + [] == Of(s.rows, rawId);
      }
    }
  }

  /** Over every run, what is stored for a Raw Evidence stays exactly what was first stored. */
  lemma {:induction false} RunImmutable(r: Rules, s: State, ops: seq<Op>, rawId: string)
    requires Inv(s)
    ensures var t := Run(r, s, ops);
            && (rawId in s.raws ==> rawId in t.raws && t.raws[rawId] == s.raws[rawId])
            && (Of(s.rows, rawId) != [] ==> Of(t.rows, rawId) == Of(s.rows, rawId))
  {
    if ops != [] {
      RunImmutable(r, s, ops[..|ops| - 1], rawId);
      ReachableInv(r, s, ops[..|ops| - 1]);
      StepImmutable(r, Run(r, s, ops[..|ops| - 1]), ops[|ops| - 1], rawId);
    }
  }

  /** The first accepted publication stores exactly its records. */
  lemma FirstStored(r: Rules, s: State, rawId: string, input: seq<Evidence>)
    requires Inv(s) && Of(s.rows, rawId) == [] && AfterPublish(r, s, rawId, input).Ok?
    ensures Of(AfterPublish(r, s, rawId, input).value.rows, rawId) == SortedRows(Records(r, rawId, input))
    ensures SortedRows(Records(r, rawId, input)) != []
  {
    PublishOutcome(r, s, rawId, input);
    var records := SortedRows(Records(r, rawId, input));
    RecordsBelong(r, rawId, input);
    OfConcat(s.rows, records, rawId);
    OfUniform(records, rawId, rawId);
    hide SortedRows, Records;
    assert [] + records == records;
  }

  // ---- the stored record ----

  /** The same time without what lies below the microsecond. */
  predicate CutTime(stored: int, t: int) { stored <= t < stored + 1000 && stored % 1000 == 0 }

  predicate CutOptional(stored: Option<int>, t: Option<int>) {
    stored.Some? == t.Some? && (t.Some? ==> CutTime(stored.value, t.value))
  }

  /** The row stored for a submitted Evidence: its derived identity, its Raw Evidence, whether the publication was split, and
    the Evidence as submitted with each time cut to the microsecond. */
  predicate StoredFor(r: Rules, rawId: string, input: seq<Evidence>, x: StoredEvidence, e: Evidence) {
    && x.id == "EVD" + r.hash(Seed("EVD", "atomic-evidence", [rawId, r.digest(e)])) && x.rawId == rawId
    && (x.isSplit <==> |input| >= 2)
    && x.evidence.summary == e.summary && x.evidence.keywords == e.keywords && x.evidence.text == e.text
    && CutOptional(x.evidence.startAt, e.startAt) && CutOptional(x.evidence.endAt, e.endAt)
  }

  lemma RecordStored(r: Rules, rawId: string, input: seq<Evidence>, e: Evidence)
    ensures StoredFor(r, rawId, input, Record(r, rawId, input, e), e)
  {
    if e.startAt.Some? { SameMicrosecond(e.startAt.value, e.startAt.value); }
    if e.endAt.Some? { SameMicrosecond(e.endAt.value, e.endAt.value); }
  }

  /** The rows are those of the submitted Evidences, each once, in the order of the identities. */
  ghost predicate StoresAll(r: Rules, rawId: string, input: seq<Evidence>, rows: seq<StoredEvidence>) {
    && |rows| == |input|
    && (forall i, j | 0 <= i < j < |rows| :: Precedes(Utf8(rows[i].id), Utf8(rows[j].id)))
    && (forall e | e in input :: exists x | x in rows :: StoredFor(r, rawId, input, x, e))
    && (forall x | x in rows :: exists e | e in input :: StoredFor(r, rawId, input, x, e))
  }

  lemma RecordsStored(r: Rules, rawId: string, input: seq<Evidence>)
    requires Distinct(IDs(r, rawId, input))
    ensures StoresAll(r, rawId, input, SortedRows(Records(r, rawId, input)))
  {
    var rows := SortedRows(Records(r, rawId, input));
    RowsOrdered(r, rawId, input);
    hide SortedRows, Records, Seed, IDs, StoredFor, Record;
    forall e | e in input ensures exists x | x in rows :: StoredFor(r, rawId, input, x, e) {
      RecordFrom(r, rawId, input, Record(r, rawId, input, e));
      RecordStored(r, rawId, input, e);
    }
    forall x | x in rows ensures exists e | e in input :: StoredFor(r, rawId, input, x, e) {
      RecordFrom(r, rawId, input, x);
      var e :| e in input && x == Record(r, rawId, input, e);
      RecordStored(r, rawId, input, e);
    }
  }

  lemma RowsOrdered(r: Rules, rawId: string, input: seq<Evidence>)
    requires Distinct(IDs(r, rawId, input))
    ensures var rows := SortedRows(Records(r, rawId, input));
            |rows| == |input| && forall i, j | 0 <= i < j < |rows| :: Precedes(Utf8(rows[i].id), Utf8(rows[j].id))
  {
    var rows := SortedRows(Records(r, rawId, input));
    RecordsDistinct(r, rawId, input);
    assert RowIDs(Records(r, rawId, input)) == IDs(r, rawId, input);
    RecordsInOrder(Records(r, rawId, input));
    IdsInOrder(RowIDs(Records(r, rawId, input)));
    hide SortedRows, Records, Sorted, IDs, Precedes, Utf8;
    forall i, j | 0 <= i < j < |rows| ensures Precedes(Utf8(rows[i].id), Utf8(rows[j].id)) {
      assert RowIDs(rows)[i] == rows[i].id && RowIDs(rows)[j] == rows[j].id;
    }
  }

  /** After a first publication the Raw Evidence has one row for each submitted Evidence and no other. */
  lemma StoredSet(r: Rules, s: State, rawId: string, input: seq<Evidence>)
    requires Inv(s) && Of(s.rows, rawId) == [] && Outcome(r, s, Publish(rawId, input)).Ok?
    ensures StoresAll(r, rawId, input, Of(After(r, s, Publish(rawId, input)).rows, rawId))
  {
    PublishOutcome(r, s, rawId, input);
    FirstStored(r, s, rawId, input);
    assert Distinct(IDs(r, rawId, input));
    RecordsStored(r, rawId, input);
    hide SortedRows, Records, Of, Inv, StoresAll, IDs;
  }

  /** The answer names the stored rows in their order, and the identity of each submitted Evidence in the submitted order. */
  lemma AnswerNames(r: Rules, s: State, rawId: string, input: seq<Evidence>)
    requires Inv(s) && Of(s.rows, rawId) == [] && Outcome(r, s, Publish(rawId, input)).Ok?
    ensures var rows, answer := Of(After(r, s, Publish(rawId, input)).rows, rawId), AnswerOf(r, rawId, input);
            && answer.rawId == rawId && |answer.ids| == |rows| && |answer.items| == |input|
            && (forall i | 0 <= i < |rows| :: answer.ids[i] == rows[i].id)
            && forall i | 0 <= i < |input| :: answer.items[i] == "EVD" + r.hash(Seed("EVD", "atomic-evidence", [rawId, r.digest(input[i])]))
  {
    FirstStored(r, s, rawId, input);
    hide SortedRows, Records, Of, Inv, AfterPublish, Seed;
  }

  lemma IdsInOrder(ids: seq<string>)
    requires Distinct(ids)
    ensures forall i, j | 0 <= i < j < |ids| :: Precedes(Utf8(Sorted(ids)[i]), Utf8(Sorted(ids)[j]))
  {
    CanonicalPrinters.SortAscending(CanonicalForm.Utf8Order, ids);
    CanonicalForm.AscendingInOrder(CanonicalForm.Utf8Order, Sorted(ids));
    hide Precedes, CanonicalForm.Less;
  }

  /** What a new Raw Evidence is stored as. */
  lemma StoredRawEvidence(r: Rules, s: State, raw: Raw, catalog: set<string>)
    requires Outcome(r, s, PublishRaw(raw, catalog)).Ok?
    ensures var id, t := "RAW" + r.hash(Seed("RAW", "raw-evidence-publication", [raw.publicationKey])), After(r, s, PublishRaw(raw, catalog));
            && id in t.raws && t.rows == s.rows && t.raws == s.raws[id := t.raws[id]]
            && var x := t.raws[id];
            && x.id == id && x.content == raw.content && x.contentHash == r.textHash(raw.content)
            && CutOptional(x.publishedAt, raw.publishedAt) && CutTime(x.collectedAt, raw.collectedAt)
            && |x.categoryIds| == |raw.categoryIds| && (forall k :: k in x.categoryIds <==> k in raw.categoryIds)
            && forall i, j | 0 <= i < j < |x.categoryIds| :: Precedes(Utf8(x.categoryIds[i]), Utf8(x.categoryIds[j]))
  {
    SameMicrosecond(raw.collectedAt, raw.collectedAt);
    if raw.publishedAt.Some? { SameMicrosecond(raw.publishedAt.value, raw.publishedAt.value); }
    IdsInOrder(raw.categoryIds);
    hide Sorted, Seed, TrimSpace, Is, Precedes;
  }

  // ---- replay and refusal ----

  predicate Valid(r: Rules, rawId: string, input: seq<Evidence>) {
    ValidPublication(r, rawId, input) && forall i | 0 <= i < |input| :: HasEvidenceID(r, rawId, input[i])
  }

  /** On a Raw Evidence with a stored set, a valid publication changes nothing, and is accepted exactly
    when its records are that set. */
  lemma AcceptedIffSameSet(r: Rules, s: State, rawId: string, input: seq<Evidence>)
    requires Inv(s) && Of(s.rows, rawId) != [] && Valid(r, rawId, input)
    ensures After(r, s, Publish(rawId, input)) == s
    ensures Outcome(r, s, Publish(rawId, input)).Ok? <==> SameRows(Of(s.rows, rawId), SortedRows(Records(r, rawId, input)))
    ensures Outcome(r, s, Publish(rawId, input)).Err? ==> Outcome(r, s, Publish(rawId, input)) == Err(SetConflict)
  {
    OfIn(s.rows, rawId);
    assert Of(s.rows, rawId)[0] in Of(s.rows, rawId);
    hide ValidPublication, SortedRows, SameRows, HasEvidenceID, Of;
  }

  /** No two of these Evidences share an id although they differ. */
  ghost predicate NoClash(r: Rules, rawId: string, a: seq<Evidence>, b: seq<Evidence>) {
    forall x, y | x in a && y in b :: EvidenceID(r, rawId, x) == EvidenceID(r, rawId, y) ==> x == y
  }

  lemma RecordFrom(r: Rules, rawId: string, input: seq<Evidence>, x: StoredEvidence)
    requires Distinct(IDs(r, rawId, input))
    ensures x in SortedRows(Records(r, rawId, input)) <==> exists e | e in input :: x == Record(r, rawId, input, e)
  {
    RecordsDistinct(r, rawId, input);
    var records := Records(r, rawId, input);
    hide SortedRows, EvidenceID;
    assert x in SortedRows(records) <==> x in Elements(records);
    if x in records {
      var i :| 0 <= i < |records| && records[i] == x;
      assert input[i] in input;
    }
    if e :| e in input && x == Record(r, rawId, input, e) {
      var i :| 0 <= i < |input| && input[i] == e;
      assert records[i] == x;
    }
  }

  lemma InputCount(r: Rules, rawId: string, input: seq<Evidence>)
    requires Distinct(IDs(r, rawId, input))
    ensures |Elements(input)| == |input|
  {
    forall i, j | 0 <= i < j < |input| ensures input[i] != input[j] { assert IDs(r, rawId, input)[i] != IDs(r, rawId, input)[j]; }
    DistinctCount(input);
  }

  /** Without id clashes two valid publications have the same records exactly when they list the same Evidences. */
  lemma SameRecordsIff(r: Rules, rawId: string, a: seq<Evidence>, b: seq<Evidence>)
    requires Distinct(IDs(r, rawId, a)) && Distinct(IDs(r, rawId, b)) && NoClash(r, rawId, a, b)
    ensures SameRows(SortedRows(Records(r, rawId, a)), SortedRows(Records(r, rawId, b))) <==> Elements(a) == Elements(b)
  {
    var x, y := SortedRows(Records(r, rawId, a)), SortedRows(Records(r, rawId, b));
    InputCount(r, rawId, a);
    InputCount(r, rawId, b);
    hide SortedRows, Records, EvidenceID, CloneEvidence, IDs;
    forall z ensures z in x <==> exists e | e in a :: z == Record(r, rawId, a, e) { RecordFrom(r, rawId, a, z); }
    forall z ensures z in y <==> exists e | e in b :: z == Record(r, rawId, b, e) { RecordFrom(r, rawId, b, z); }
    if SameRows(x, y) {
      SameContents(r, rawId, a, b, x, y);
    }
    if Elements(a) == Elements(b) {
      assert forall e :: e in a <==> e in Elements(b);
      forall e ensures Record(r, rawId, a, e) == Record(r, rawId, b, e) {}
      assert forall z :: z in x <==> z in y;
    }
  }

  lemma SameContents(r: Rules, rawId: string, a: seq<Evidence>, b: seq<Evidence>, x: seq<StoredEvidence>, y: seq<StoredEvidence>)
    requires NoClash(r, rawId, a, b) && SameRows(x, y)
    requires forall z :: z in x <==> exists e | e in a :: z == Record(r, rawId, a, e)
    requires forall z :: z in y <==> exists e | e in b :: z == Record(r, rawId, b, e)
    ensures Elements(a) == Elements(b)
  {
    hide EvidenceID, CloneEvidence;
    forall e | e in a ensures e in b {
      assert Record(r, rawId, a, e) in Elements(x);
      assert Record(r, rawId, a, e) in y;
    }
    forall e | e in b ensures e in a {
      assert Record(r, rawId, b, e) in Elements(y);
      assert Record(r, rawId, b, e) in x;
    }
  }

  /** After a first accepted publication, in every later state, a valid publication to the same Raw Evidence is
    accepted exactly when it lists the same Evidences in any order; either way nothing changes. */
  lemma LaterPublication(r: Rules, s: State, rawId: string, first: seq<Evidence>, ops: seq<Op>, input: seq<Evidence>)
    requires Inv(s) && Of(s.rows, rawId) == [] && Outcome(r, s, Publish(rawId, first)).Ok?
    requires Valid(r, rawId, input) && NoClash(r, rawId, first, input)
    ensures var t := Run(r, After(r, s, Publish(rawId, first)), ops);
            && After(r, t, Publish(rawId, input)) == t
            && (Outcome(r, t, Publish(rawId, input)).Ok? <==> Elements(input) == Elements(first))
  {
    var u := After(r, s, Publish(rawId, first));
    var t := Run(r, u, ops);
    PublishOutcome(r, s, rawId, first);
    FirstStored(r, s, rawId, first);
    StepKeepsInv(r, s, Publish(rawId, first));
    RunImmutable(r, u, ops, rawId);
    ReachableInv(r, u, ops);
    AcceptedIffSameSet(r, t, rawId, input);
    SameRecordsIff(r, rawId, first, input);
    hide Outcome, After, Run, SortedRows, Records, Of, Inv, NoClash, HasEvidenceID;
  }

  /** Permutations are answered with the same sorted ids. */
  lemma PermutationAnswer(r: Rules, rawId: string, a: seq<Evidence>, b: seq<Evidence>)
    requires Distinct(IDs(r, rawId, a)) && Distinct(IDs(r, rawId, b)) && Elements(a) == Elements(b)
    ensures AnswerOf(r, rawId, a).ids == AnswerOf(r, rawId, b).ids
  {
    var x, y := Records(r, rawId, a), Records(r, rawId, b);
    assert RowIDs(x) == IDs(r, rawId, a) && RowIDs(y) == IDs(r, rawId, b);
    RecordsInOrder(x);
    RecordsInOrder(y);
    SameIDs(r, rawId, a, b);
    hide Records, SortedRows, RowIDs, IDs;
    SortedSame(IDs(r, rawId, a), IDs(r, rawId, b));
  }

  lemma SameIDs(r: Rules, rawId: string, a: seq<Evidence>, b: seq<Evidence>)
    requires Elements(a) == Elements(b)
    ensures forall k :: k in IDs(r, rawId, a) <==> k in IDs(r, rawId, b)
  {
    hide EvidenceID;
    IDsFrom(r, rawId, a);
    IDsFrom(r, rawId, b);
    assert forall e :: e in a <==> e in Elements(b);
  }

  lemma IDsFrom(r: Rules, rawId: string, a: seq<Evidence>)
    ensures forall k :: k in IDs(r, rawId, a) <==> exists e | e in a :: k == EvidenceID(r, rawId, e)
  {
    hide EvidenceID;
    forall k | k in IDs(r, rawId, a) ensures exists e | e in a :: k == EvidenceID(r, rawId, e) {
      var i :| 0 <= i < |a| && IDs(r, rawId, a)[i] == k;
      assert a[i] in a;
    }
    forall e | e in a ensures EvidenceID(r, rawId, e) in IDs(r, rawId, a) {
      var i :| 0 <= i < |a| && a[i] == e;
      assert IDs(r, rawId, a)[i] == EvidenceID(r, rawId, e);
    }
  }

  lemma SortedSame(a: seq<string>, b: seq<string>)
    requires Distinct(a) && Distinct(b) && forall k :: k in a <==> k in b
    ensures Sorted(a) == Sorted(b)
  {
    CanonicalPrinters.SortAscending(CanonicalForm.Utf8Order, a);
    CanonicalPrinters.SortAscending(CanonicalForm.Utf8Order, b);
    CanonicalForm.SortedKeysUnique(CanonicalForm.Utf8Order, Sorted(a), Sorted(b));
  }

  // ---- the id conflict cannot happen ----

  /** Every stored id was derived from the row's own Raw Evidence and some Evidence. */
  ghost predicate Derived(r: Rules, rows: seq<StoredEvidence>) {
    forall x | x in rows :: exists e :: DerivedFrom(r, x, e)
  }

  ghost predicate DerivedFrom(r: Rules, x: StoredEvidence, e: Evidence) {
    x.id == EvidenceID(r, x.rawId, e) && x.evidence == CloneEvidence(e) && HasEvidenceID(r, x.rawId, e) && Is(x.rawId, "RAW")
  }

  /** The generator has no collision between the seed of a stored row and the seed of a new Evidence. */
  ghost predicate CollisionFree(r: Rules, rows: seq<StoredEvidence>, rawId: string, input: seq<Evidence>) {
    forall x, e, f | x in rows && DerivedFrom(r, x, e) && f in input :: NoCollision(r.hash, EvidenceSeed(r, x.rawId, e), EvidenceSeed(r, rawId, f))
  }

  /** Content digests are hexadecimal. */
  ghost predicate PlainDigests(r: Rules) { forall e :: r.digest(e) != "" && forall c | c in r.digest(e) :: LowerHex(c) }

  lemma DigestPlain(r: Rules, e: Evidence)
    requires PlainDigests(r)
    ensures TrimSpace(r.digest(e)) == r.digest(e) && NulFree(r.digest(e))
  {
    var d := r.digest(e);
    assert d[0] in d && d[|d| - 1] in d;
    TrimPlain(d);
  }

  /** Ids derived for different Raw Evidences differ. */
  lemma OtherRawOtherID(r: Rules, x: StoredEvidence, e: Evidence, rawId: string, f: Evidence)
    requires PlainDigests(r) && DerivedFrom(r, x, e) && Is(rawId, "RAW") && HasEvidenceID(r, rawId, f)
    requires NoCollision(r.hash, EvidenceSeed(r, x.rawId, e), EvidenceSeed(r, rawId, f))
    ensures x.id == EvidenceID(r, rawId, f) ==> x.rawId == rawId
  {
    CanonicalPlain(x.rawId, "RAW");
    CanonicalPlain(rawId, "RAW");
    DigestPlain(r, e);
    DigestPlain(r, f);
    if x.id == EvidenceID(r, rawId, f) {
      assert x.id[3..] == r.hash(EvidenceSeed(r, x.rawId, e)) && EvidenceID(r, rawId, f)[3..] == r.hash(EvidenceSeed(r, rawId, f));
      var p, q := [x.rawId, r.digest(e)], [rawId, r.digest(f)];
      SeedInjective("EVD", "atomic-evidence", p, "EVD", "atomic-evidence", q);
      assert Trimmed(p)[0] == x.rawId && Trimmed(q)[0] == rawId;
    }
  }

  /** Without hash collisions a first publication never meets an id that is already assigned. */
  lemma NoIdConflict(r: Rules, s: State, rawId: string, input: seq<Evidence>)
    requires PlainDigests(r) && Derived(r, s.rows) && CollisionFree(r, s.rows, rawId, input) && Valid(r, rawId, input)
    requires Of(s.rows, rawId) == []
    ensures !AnyID(s.rows, RowIDs(SortedRows(Records(r, rawId, input))))
  {
    RecordsDistinct(r, rawId, input);
    OfIn(s.rows, rawId);
    RecordsInOrder(Records(r, rawId, input));
    assert RowIDs(Records(r, rawId, input)) == IDs(r, rawId, input);
    IDsFrom(r, rawId, input);
    hide SortedRows, Records, RowIDs, IDs, EvidenceID, Of, TrimSpace, PlainDigests, Sorted;
    forall i | 0 <= i < |s.rows| ensures s.rows[i].id !in IDs(r, rawId, input) {
      var x := s.rows[i];
      assert x in s.rows;
      var e :| DerivedFrom(r, x, e);
      forall f | f in input ensures x.id != EvidenceID(r, rawId, f) {
        var k :| 0 <= k < |input| && input[k] == f;
        OtherRawOtherID(r, x, e, rawId, f);
      }
    }
  }

  /** A valid first publication to a stored Raw Evidence is accepted. */
  lemma FirstAccepted(r: Rules, s: State, rawId: string, input: seq<Evidence>)
    requires PlainDigests(r) && Derived(r, s.rows) && CollisionFree(r, s.rows, rawId, input) && Valid(r, rawId, input)
    requires Of(s.rows, rawId) == [] && rawId in s.raws
    ensures Outcome(r, s, Publish(rawId, input)).Ok?
  {
    NoIdConflict(r, s, rawId, input);
    RecordsDistinct(r, rawId, input);
    InsertsSucceed(s.rows, SortedRows(Records(r, rawId, input)));
    hide SortedRows, Records, RowIDs, CollisionFree, Derived, HasEvidenceID, Of;
  }

  /** Without hash collisions a first publication is accepted exactly when it goes to a stored Raw Evidence and lists at
    least one Evidence, valid ones only and no two with one identity. */
  lemma FirstPublishedIff(r: Rules, s: State, rawId: string, input: seq<Evidence>)
    requires UuidGenerator(r.hash) && PlainDigests(r) && Derived(r, s.rows) && CollisionFree(r, s.rows, rawId, input)
    requires Of(s.rows, rawId) == []
    ensures Outcome(r, s, Publish(rawId, input)).Ok? <==>
              && Is(rawId, "RAW") && rawId in s.raws && input != []
              && (forall i | 0 <= i < |input| :: r.validEvidence(input[i]))
              && (forall i, j | 0 <= i < j < |input| ::
                    r.hash(Seed("EVD", "atomic-evidence", [rawId, r.digest(input[i])])) !=
                    r.hash(Seed("EVD", "atomic-evidence", [rawId, r.digest(input[j])])))
  {
    PublicationValid(r, rawId, input);
    if Valid(r, rawId, input) && rawId in s.raws {
      FirstAccepted(r, s, rawId, input);
    }
    hide ValidPublication, HasEvidenceID, Is, Seed, SortedRows, Records, Of, CollisionFree, Derived, PlainDigests;
  }

  lemma PublicationValid(r: Rules, rawId: string, input: seq<Evidence>)
    requires UuidGenerator(r.hash) && PlainDigests(r)
    ensures Valid(r, rawId, input) <==>
              && Is(rawId, "RAW") && input != [] && (forall i | 0 <= i < |input| :: r.validEvidence(input[i]))
              && (forall i, j | 0 <= i < j < |input| ::
                    r.hash(Seed("EVD", "atomic-evidence", [rawId, r.digest(input[i])])) !=
                    r.hash(Seed("EVD", "atomic-evidence", [rawId, r.digest(input[j])])))
  {
    forall i | 0 <= i < |input| ensures Is(EvidenceID(r, rawId, input[i]), "EVD") && (Is(rawId, "RAW") ==> HasEvidenceID(r, rawId, input[i])) {
      IdentityDerived(r, rawId, input[i]);
    }
    hide Is, Seed, HasEvidenceID, PlainDigests;
    forall i, j | 0 <= i < j < |input|
      ensures IDs(r, rawId, input)[i] == IDs(r, rawId, input)[j] <==>
              r.hash(EvidenceSeed(r, rawId, input[i])) == r.hash(EvidenceSeed(r, rawId, input[j]))
    {
      SamePrefix("EVD", r.hash(EvidenceSeed(r, rawId, input[i])), r.hash(EvidenceSeed(r, rawId, input[j])));
    }
    hide EvidenceID, IDs;
    assert Distinct(IDs(r, rawId, input)) <==>
           forall i, j | 0 <= i < j < |input| :: r.hash(EvidenceSeed(r, rawId, input[i])) != r.hash(EvidenceSeed(r, rawId, input[j]));
  }

  lemma SamePrefix(p: string, a: string, b: string)
    ensures p + a == p + b <==> a == b
  {
    assert (p + a)[|p|..] == a && (p + b)[|p|..] == b;
  }

  lemma IdentityDerived(r: Rules, rawId: string, e: Evidence)
    requires UuidGenerator(r.hash) && PlainDigests(r)
    ensures Is(EvidenceID(r, rawId, e), "EVD")
    ensures Is(rawId, "RAW") ==> HasEvidenceID(r, rawId, e)
  {
    var u := r.hash(EvidenceSeed(r, rawId, e));
    assert ("EVD" + u)[3..] == u;
    DigestPlain(r, e);
    if Is(rawId, "RAW") { CanonicalPlain(rawId, "RAW"); }
    assert TrimSpace("atomic-evidence") == "atomic-evidence" by { TrimPlain("atomic-evidence"); }
    hide EvidenceSeed, Is, TrimSpace, PlainDigests;
  }

  /** Raw Evidence under a new key is accepted exactly when the key is not blank, the fields are valid and the categories are
    different, canonical and in the catalogue. */
  lemma RawPublishedIff(r: Rules, s: State, raw: Raw, catalog: set<string>)
    requires UuidGenerator(r.hash) && "RAW" + r.hash(Seed("RAW", "raw-evidence-publication", [raw.publicationKey])) !in s.raws
    ensures Outcome(r, s, PublishRaw(raw, catalog)).Ok? <==>
              && TrimSpace(raw.publicationKey) != "" && r.validRaw(raw)
              && (forall i | 0 <= i < |raw.categoryIds| :: Is(raw.categoryIds[i], "EVC") && raw.categoryIds[i] in catalog)
              && (forall i, j | 0 <= i < j < |raw.categoryIds| :: raw.categoryIds[i] != raw.categoryIds[j])
  {
    var u := r.hash(Seed("RAW", "raw-evidence-publication", [raw.publicationKey]));
    assert ("RAW" + u)[3..] == u;
    assert Is("RAW" + u, "RAW");
    hide Is, Seed, TrimSpace, Sorted;
    assert forall i | 0 <= i < |raw.categoryIds| :: raw.categoryIds[i] in raw.categoryIds;
  }

  lemma StepKeepsDerived(r: Rules, s: State, op: Op)
    requires Inv(s) && Derived(r, s.rows)
    ensures Derived(r, After(r, s, op).rows)
  {
    if op.Publish? && Outcome(r, s, op).Ok? && Of(s.rows, op.rawId) == [] {
      PublishOutcome(r, s, op.rawId, op.input);
      var records := SortedRows(Records(r, op.rawId, op.input));
      assert forall i | 0 <= i < |op.input| :: HasEvidenceID(r, op.rawId, op.input[i]);
      hide AfterPublish, SortedRows, EvidenceID, HasEvidenceID;
      forall x | x in records ensures exists e :: DerivedFrom(r, x, e) {
        RecordFrom(r, op.rawId, op.input, x);
        var e :| e in op.input && x == Record(r, op.rawId, op.input, e);
        assert DerivedFrom(r, x, e);
      }
    }
  }

  /** Stored ids are derived in every reachable state. */
  lemma {:induction false} ReachableDerived(r: Rules, ops: seq<Op>)
    ensures Inv(Run(r, State(map[], []), ops)) && Derived(r, Run(r, State(map[], []), ops).rows)
  {
    EmptyInv();
    ReachableInv(r, State(map[], []), ops);
    if ops != [] {
      ReachableDerived(r, ops[..|ops| - 1]);
      StepKeepsDerived(r, Run(r, State(map[], []), ops[..|ops| - 1]), ops[|ops| - 1]);
    }
  }

  // ---- Raw Evidence ----

  /** Publishing a Raw Evidence again is accepted exactly when content, times to the microsecond and the set
    of categories agree, as long as the categories still exist; it never changes the stored record. */
  lemma RawReplay(r: Rules, s: State, first: Raw, raw: Raw, catalog: set<string>)
    requires ValidRaw(r, first) && ValidRaw(r, raw) && first.publicationKey == raw.publicationKey && TrimSpace(raw.publicationKey) != ""
    requires RawID(r, first.publicationKey) in s.raws && s.raws[RawID(r, first.publicationKey)] == CloneRaw(r, first)
    requires forall k | k in raw.categoryIds :: k in catalog
    ensures After(r, s, PublishRaw(raw, catalog)) == s
    ensures Outcome(r, s, PublishRaw(raw, catalog)).Ok? <==>
              && raw.content == first.content && PostgresOptional(raw.publishedAt) == PostgresOptional(first.publishedAt)
              && PostgresTime(raw.collectedAt) == PostgresTime(first.collectedAt)
              && Elements(raw.categoryIds) == Elements(first.categoryIds)
  {
    var a, b := raw.categoryIds, first.categoryIds;
    if Elements(a) == Elements(b) {
      assert forall k :: k in a <==> k in Elements(b);
      SortedSame(a, b);
    }
    if Sorted(a) == Sorted(b) {
      assert forall k :: k in a <==> k in Sorted(b);
      assert Elements(a) == Elements(b);
    }
    hide Sorted, TrimSpace, Is, RawID;
  }

  /** Two times are stored alike exactly when they fall into the same microsecond. */
  lemma SameMicrosecond(t: int, u: int)
    ensures PostgresTime(t) == PostgresTime(u) <==> t / MICROSECOND == u / MICROSECOND
    ensures PostgresTime(t) <= t < PostgresTime(t) + MICROSECOND
  {
    assert t == MICROSECOND * (t / MICROSECOND) + t % MICROSECOND;
    assert u == MICROSECOND * (u / MICROSECOND) + u % MICROSECOND;
  }
}
