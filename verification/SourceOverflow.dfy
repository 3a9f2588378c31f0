/** Catalogues of ordinary size, reached from the empty one, whose snapshot an accepted step makes too large. */
module SourceOverflow {
  import opened Json
  import opened Decimal
  import opened Identity
  import opened SourceCatalog
  import opened SourceCatalogRuns
  import opened SourceSnapshot

  // ---- a hundred sources of about five kilobytes ----

  const MICROSECOND := 1_000

  /** Two clock readings of microsecond precision; the first one ends in a zero and is written one digit shorter. */
  const EARLY := SECOND + 10 * MICROSECOND
  const LATE := SECOND + 11 * MICROSECOND

  const TYPICAL := 4_937

  const UUID_HEAD := "00000000-0000-5000-8000-0000000000"

  /** A UUID that ends in the last two characters of the seed. */
  function ByLastTwo(seed: string): string { UUID_HEAD + (if |seed| >= 2 then seed[|seed| - 2..] else "00") }

  /** The details are the number of bytes a source takes without its timestamps; none takes more than 5000. */
  function Plain(): Rules<nat> {
    Rules((size: nat) => 300 <= size <= 5_000, (s: Source<nat>) => s.details, ByLastTwo, (a: nat, b: nat) => a == b, (_: nat) => 3)
  }

  function Code(n: nat): string
    requires n < 100
  {
    [DigitChar(n / 10), DigitChar(n % 10)]
  }

  function CodeID(n: nat): string
    requires n < 100
  {
    "SRC" + (UUID_HEAD + Code(n))
  }

  function Entry(n: nat): Source<nat>
    requires n < 100
  {
    Source(CodeID(n), Code(n), Dynamic, Rss, "generic_rss", true, TYPICAL, EARLY, EARLY)
  }

  function Entries(n: nat): seq<Source<nat>>
    requires n <= 100
  {
    seq(n, i requires 0 <= i < n => Entry(i))
  }

  function Creation(n: nat): Op<nat>
    requires n < 100
  {
    Create(Input(Code(n), "generic_rss", true, TYPICAL), EARLY)
  }

  function Creations(n: nat): seq<Op<nat>>
    requires n <= 100
  {
    seq(n, i requires 0 <= i < n => Creation(i))
  }

  lemma Stamps()
    ensures StampWidth(SECOND) == 22 && StampWidth(EARLY) == 28 && StampWidth(LATE) == 29 && StampWidth(WORST_STAMP) == 32
  {
    WorstStampIsWidest(0);
    assert SECOND % SECOND == 0 && EARLY % SECOND == 10_000 && LATE % SECOND == 11_000;
    assert FractionWidth(0, 9) == FractionWidth(0, 8) == FractionWidth(0, 7) == FractionWidth(0, 6) == FractionWidth(0, 5)
        == FractionWidth(0, 4) == FractionWidth(0, 3) == FractionWidth(0, 2) == FractionWidth(0, 1) == FractionWidth(0, 0);
    assert FractionWidth(10_000, 9) == FractionWidth(1_000, 8) == FractionWidth(100, 7) == FractionWidth(10, 6) == FractionWidth(1, 5) == 5;
    assert FractionWidth(11_000, 9) == FractionWidth(1_100, 8) == FractionWidth(110, 7) == FractionWidth(11, 6) == 6;
  }

  lemma CodePlain(n: nat)
    requires n < 100
    ensures TrimSpace(Code(n)) == Code(n) && ValidCode(Code(n)) && HasID(Code(n))
  {
    TrimPlain(Code(n));
    TrimPlain("source");
    assert ValidKind("SRC");
  }

  lemma CodeSeed(n: nat)
    requires n < 100
    ensures SourceID(Plain(), Code(n)) == CodeID(n)
  {
    CodePlain(n);
    TrimPlain("source");
    var code := Code(n);
    assert Trimmed([code]) == [code];
    var parts := ["SRC", "source", code];
    assert ["SRC", TrimSpace("source")] + Trimmed([code]) == parts;
    assert parts[1..] == ["source", code] && parts[1..][1..] == [code];
    var seed := Seed("SRC", "source", [code]);
    assert Join([code]) == code && Join(parts[1..]) == "source" + ([NUL] + code);
    assert seed == "SRC" + ([NUL] + ("source" + ([NUL] + code)));
    assert |seed| == 13 && seed[11..] == code;
  }

  lemma CodeIDCanonical(n: nat)
    requires n < 100
    ensures Is(CodeID(n), "SRC")
  {
    var suffix := UUID_HEAD + Code(n);
    assert CodeID(n)[3..] == suffix;
    assert suffix[34] == Code(n)[0] && suffix[35] == Code(n)[1];
    assert suffix[14] == '5';
    assert ValidKind("SRC");
  }

  lemma CodesDiffer(m: nat, n: nat)
    requires m < n < 100
    ensures Code(m) != Code(n) && CodeID(m) != CodeID(n)
  {
    assert Code(m)[0] != Code(n)[0] || Code(m)[1] != Code(n)[1] by {
      assert DigitValue(Code(m)[0]) == m / 10 && DigitValue(Code(m)[1]) == m % 10;
      assert DigitValue(Code(n)[0]) == n / 10 && DigitValue(Code(n)[1]) == n % 10;
    }
    assert CodeID(m)[37..] == Code(m) && CodeID(n)[37..] == Code(n);
  }

  lemma {:induction false} EntriesSize(n: nat)
    requires n <= 100
    ensures ItemsSize(Plain(), Entries(n)) == n * 4_994 && WebCount(Entries(n)) == 0
  {
    if n > 0 {
      EntriesSize(n - 1);
      Stamps();
      hide StampWidth;
      assert Entries(n)[..n - 1] == Entries(n - 1) && Entries(n)[n - 1] == Entry(n - 1);
    }
  }

  lemma EntryValid(n: nat)
    requires n < 100
    ensures ValidSource(Plain(), Entry(n), true) && Candidate(Plain(), Creation(n).input) == Entry(n).(createdAt := 0, updatedAt := 0)
  {
    CodePlain(n);
    CodeSeed(n);
    CodeIDCanonical(n);
    hide Is, ValidCode, CodeID, Code;
  }

  lemma EntriesUnique(n: nat)
    requires n <= 100
    ensures UniqueRows(Entries(n)) && AllValid(Plain(), Entries(n), false)
    ensures forall i | 0 <= i < n :: Entries(n)[i] == Entry(i)
  {
    forall i, j | 0 <= i < j < n ensures Entries(n)[i].id != Entries(n)[j].id && Entries(n)[i].code != Entries(n)[j].code { CodesDiffer(i, j); }
    forall i | 0 <= i < n ensures ValidSource(Plain(), Entries(n)[i], false) { EntryValid(i); }
  }

  // ---- reaching them by creations ----

  lemma SizeOf(s: Source<nat>)
    ensures ItemSize(Plain(), s) == s.details + StampWidth(Measured(s.createdAt)) + StampWidth(Measured(s.updatedAt))
  {
    hide StampWidth;
  }

  /** The set a further entry is measured with has no error while it fits. */
  lemma NoError(n: nat, s: Source<nat>)
    requires n < 100 && ValidSource(Plain(), s, false) && s.enabled && s.channel == Rss
    requires n * 4_994 + ItemSize(Plain(), s) + ENVELOPE_BASE <= MAX_ENVELOPE
    ensures ProjectedError(Plain(), Entries(n) + [s]).None?
    ensures EnvelopeSize(Plain(), Entries(n) + [s]) == n * 4_994 + ItemSize(Plain(), s) + ENVELOPE_BASE
  {
    EntriesSize(n);
    EntriesUnique(n);
    hide ValidSource, ItemSize, UniqueRows;
    var t := Entries(n) + [s];
    assert t[..|t| - 1] == Entries(n) && t[|t| - 1] == s;
  }

  lemma NotThere(n: nat)
    requires n < 100
    ensures Find(Entries(n), Code(n)) < 0 && FindID(Entries(n), CodeID(n)) < 0
    ensures forall i | 0 <= i < n :: Entries(n)[i].code != Code(n) && Entries(n)[i].id != CodeID(n) && !ActiveWeb(Entries(n)[i])
  {
    forall i | 0 <= i < n ensures Entries(n)[i].code != Code(n) && Entries(n)[i].id != CodeID(n) { CodesDiffer(i, n); }
    hide Code, CodeID;
  }

  function Draft(n: nat): Source<nat>
    requires n < 100
  {
    Entry(n).(createdAt := 0, updatedAt := 0)
  }

  lemma DraftFits(n: nat)
    requires n < 100
    ensures Candidate(Plain(), Creation(n).input) == Draft(n) && ValidSource(Plain(), Draft(n), false)
    ensures ProjectedError(Plain(), Entries(n) + [Draft(n)]).None?
  {
    EntryValid(n);
    Stamps();
    SizeOf(Draft(n));
    assert ValidSource(Plain(), Draft(n), false);
    hide StampWidth, ItemSize, Code, CodeID, ValidSource, ProjectedError, EnvelopeSize, Candidate;
    NoError(n, Draft(n));
  }

  lemma DraftInserted(n: nat)
    requires n < 100
    ensures Insert(Entries(n), Draft(n), EARLY) == Ok(Entries(n + 1))
  {
    NotThere(n);
    hide Code, CodeID;
    assert Stamp(Draft(n), EARLY) == Entry(n);
    assert Entries(n + 1) == Entries(n) + [Entry(n)];
  }

  lemma CreationAccepted(n: nat)
    requires n < 100
    ensures Outcome(Plain(), Entries(n), Creation(n)) == Ok(Entries(n + 1))
  {
    CodePlain(n);
    DraftFits(n);
    NotThere(n);
    DraftInserted(n);
    assert Draft(n).code == Code(n) && Draft(n).id == CodeID(n);
    hide HasID, Code, CodeID, ValidSource, ProjectedError, Insert, Draft, Entries, Find, FindID;
  }

  lemma {:induction false} Created(n: nat)
    requires n <= 100
    ensures Run(Plain(), [], Creations(n)) == Entries(n) && RealOps(Creations(n))
  {
    hide Creation, Entry, Outcome;
    if n > 0 {
      Created(n - 1);
      assert Creations(n)[..n - 1] == Creations(n - 1);
      CreationAccepted(n - 1);
    }
    forall i | 0 <= i < n ensures Clocked(Creations(n)[i]) && RealTimes(Creations(n)[i]) { CreationClocked(i); }
  }

  lemma CreationClocked(n: nat)
    requires n < 100
    ensures Clocked(Creation(n)) && RealTimes(Creation(n))
  {
  }

  lemma CreatedServed(n: nat)
    requires n <= 100
    ensures Inv(Plain(), Entries(n)) && Fits(Plain(), Entries(n)) && SnapshotServed(Plain(), Entries(n))
  {
    EmptyCatalogue(Plain());
    Created(n);
    ReachableInv(Plain(), [], Creations(n));
    EntriesSize(n);
    hide Entries, Inv, SnapshotServed, Run, Creations, ItemsSize;
    ServedIffFits(Plain(), Entries(n));
  }

  // ---- an update ----

  /** Fills the envelope to its last byte, and is stamped one digit longer than it was measured. */
  function Filling(): Op<nat> { Update(CodeID(0), Input(Code(0), "generic_rss", true, TYPICAL + 47), LATE) }

  function Filled(): Source<nat> { Entry(0).(details := TYPICAL + 47) }

  lemma FilledEntry()
    ensures Entries(100)[0] == Entry(0) && Changed(Entry(0), Filling().change) == Filled()
    ensures ItemSize(Plain(), Entry(0)) == 4_993 && ItemSize(Plain(), Filled()) == 5_040
  {
    Stamps();
    SizeOf(Entry(0));
    SizeOf(Filled());
    hide ItemSize, StampWidth, Code, CodeID;
  }

  lemma FillingSize()
    ensures EnvelopeSize(Plain(), Entries(100)[0 := Filled()]) == MAX_ENVELOPE
  {
    var rows := Entries(100);
    EntriesSize(100);
    FilledEntry();
    hide ItemSize, Entries, Entry, Filled, ItemsSize;
    SizeWithout(Plain(), rows, 0);
    SizeReplaced(Plain(), rows, 0, Filled());
    FilledEnabled();
    EnvelopeSplit(rows[0 := Filled()]);
  }

  lemma FilledEnabled()
    ensures Entry(0).enabled && Filled().enabled
  {
  }

  lemma EnvelopeSplit(rows: seq<Source<nat>>)
    ensures EnvelopeSize(Plain(), rows) == ENVELOPE_BASE + Max(ItemsSize(Plain(), rows) - 1, 0)
  {
  }

  lemma FilledValid()
    ensures ValidSource(Plain(), Filled(), false) && !ActiveWeb(Filled())
  {
    EntryValid(0);
    hide Is, ValidCode, CodeID, Code;
  }

  lemma FillingAccepted()
    ensures ProjectedError(Plain(), Entries(100)[0 := Filled()]).None? && FindID(Entries(100), CodeID(0)) == 0
  {
    var rows := Entries(100);
    var t := rows[0 := Filled()];
    EntriesUnique(100);
    FillingSize();
    FilledValid();
    hide EnvelopeSize, ValidSource, Filled, CodeID, Code;
    assert rows[0] == Entry(0) && rows[0].id == CodeID(0);
    forall i | 0 <= i < |t| ensures ValidSource(Plain(), t[i], false) && !ActiveWeb(t[i]) {
      if i > 0 { assert t[i] == rows[i] == Entry(i); }
    }
    NoWeb(t);
    hide WebCount, ActiveWeb;
  }

  lemma FillingWithoutRoom()
    ensures Outcome(Plain(), Entries(100), Filling()).Ok? && !RoomFor(Plain(), Entries(100), Filling())
    ensures Clocked(Filling()) && RealTimes(Filling())
  {
    FilledEntry();
    FilledValid();
    FillingSize();
    FillingAccepted();
    CodeIDCanonical(0);
    Stamps();
    hide Filled, StampWidth, Is, Code, CodeID, ValidSource, EnvelopeSize, ProjectedError, Entries, FindID;
  }

  /** A catalogue of a hundred ordinary sources, created one after the other, serves its snapshot; it accepts an update
    after which it does not. */
  lemma AcceptedUpdateMayOverflow()
    ensures var t := Run(Plain(), [], Creations(100));
            && RealOps(Creations(100) + [Filling()]) && SnapshotServed(Plain(), t)
            && Outcome(Plain(), t, Filling()).Ok?
            && !SnapshotServed(Plain(), After(Plain(), t, Filling()))
  {
    var rows := Entries(100);
    Created(100);
    CreatedServed(100);
    FillingWithoutRoom();
    hide *;
    StepKeepsInv(Plain(), rows, Filling());
    StepFitsIff(Plain(), rows, Filling());
    StepServed(Plain(), rows, Filling());
    RealAppended(Creations(100), Filling());
  }

  // ---- a publication ----

  /** A manifest item that brings an update time but no creation time: measured with one wide and one short time. */
  function Dated(): Source<nat> { Draft(99).(details := TYPICAL + 49, updatedAt := SECOND) }

  function Dating(): Op<nat> { PublishDynamic([Dated()], EARLY) }

  lemma PrepareSingle(s: Source<nat>, p: Preparation)
    requires PrepareOne(Plain(), s, {}, p).Ok?
    ensures PrepareAll(Plain(), [s], {}, p) == Ok([PrepareOne(Plain(), s, {}, p).value])
  {
    var t := PrepareOne(Plain(), s, {}, p).value;
    hide PrepareOne;
    assert [s][1..] == [] && [t] + [] == [t];
    assert PrepareAll(Plain(), [], {s.code}, p) == Ok([]);
  }

  lemma DatedPrepared()
    ensures PreparedOf(Plain(), Dating()) == Ok([Dated()]) && ValidSource(Plain(), Dated(), false)
  {
    CodePlain(99);
    CodeSeed(99);
    EntryValid(99);
    assert Dated().code == Code(99) && Dated().id == CodeID(99) && CatalogItem(Dated());
    assert ValidSource(Plain(), Dated(), false);
    assert Item(Plain(), Dated(), DynamicCatalog) == Dated();
    hide Code, CodeID, ValidSource, HasID, Item, Dated, CatalogItem;
    assert PrepareOne(Plain(), Dated(), {}, DynamicCatalog) == Ok(Dated());
    PrepareSingle(Dated(), DynamicCatalog);
  }

  lemma DatedMissing()
    ensures Missing(Entries(99), [Dated()]) == [Dated()] && DynamicMatch(Entries(99), [Dated()])
  {
    NotThere(99);
    assert Dated().code == Code(99);
    hide Code, CodeID, Entries, Dated;
    assert [Dated()][..0] == [];
  }

  lemma DatedSize()
    ensures ProjectedError(Plain(), Entries(99) + [Dated()]).None? && EnvelopeSize(Plain(), Entries(99) + [Dated()]) == MAX_ENVELOPE
    ensures StampRooms([Dated()], EARLY) == 2
  {
    DatedPrepared();
    Stamps();
    SizeOf(Dated());
    hide StampWidth, ItemSize, Code, CodeID, ValidSource, ProjectedError, EnvelopeSize;
    NoError(99, Dated());
    assert [Dated()][..0] == [];
    assert StampRoom(Dated(), EARLY) == 2;
  }

  lemma DatedInserts()
    ensures Insert(Entries(99), Dated(), EARLY).Ok?
  {
    NotThere(99);
    DatedShape();
    hide Code, CodeID, Entries, Dated, Stamp, ActiveWeb;
  }

  lemma DatedShape()
    ensures Dated().code == Code(99) && Dated().id == CodeID(99) && !ActiveWeb(Dated())
    ensures Stamp(Dated(), EARLY).createdAt == Stamp(Dated(), EARLY).updatedAt == EARLY
  {
    hide Code, CodeID;
  }

  lemma DatedInserted()
    ensures InsertAll(Entries(99), [Dated()], EARLY).Ok?
  {
    DatedInserts();
    hide Dated, Entries, Insert;
    assert [Dated()][..0] == [];
  }

  lemma DatingAccepted()
    ensures Outcome(Plain(), Entries(99), Dating()).Ok? && !RoomFor(Plain(), Entries(99), Dating())
    ensures Clocked(Dating()) && RealTimes(Dating())
  {
    DatedPrepared();
    DatedMissing();
    DatedSize();
    DatedInserted();
    assert Dated().createdAt == 0;
    hide Dated, EnvelopeSize, ProjectedError, Entries, InsertAll, Missing, DynamicMatch, StampRooms, PrepareAll;
  }

  /** A catalogue of ninety-nine ordinary sources serves its snapshot; it accepts a publication after which it does not. */
  lemma AcceptedPublicationMayOverflow()
    ensures var t := Run(Plain(), [], Creations(99));
            && RealOps(Creations(99) + [Dating()]) && SnapshotServed(Plain(), t)
            && Outcome(Plain(), t, Dating()).Ok?
            && !SnapshotServed(Plain(), After(Plain(), t, Dating()))
  {
    var rows := Entries(99);
    Created(99);
    CreatedServed(99);
    DatingAccepted();
    hide *;
    StepKeepsInv(Plain(), rows, Dating());
    StepFitsIff(Plain(), rows, Dating());
    StepServed(Plain(), rows, Dating());
    RealAppended(Creations(99), Dating());
  }

  lemma StepServed(r: Rules<nat>, rows: seq<Source<nat>>, op: Op<nat>)
    requires Inv(r, After(r, rows, op)) && Outcome(r, rows, op).Ok?
    ensures SnapshotServed(r, After(r, rows, op)) <==> Fits(r, Outcome(r, rows, op).value)
  {
    hide Inv, SnapshotServed, Fits, Outcome;
    ServedIffFits(r, After(r, rows, op));
  }

  lemma RealAppended(ops: seq<Op<nat>>, op: Op<nat>)
    requires RealOps(ops) && Clocked(op) && RealTimes(op)
    ensures RealOps(ops + [op])
  {
    hide Clocked, RealTimes;
  }
}
