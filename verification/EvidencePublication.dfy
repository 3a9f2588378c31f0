/** Publication of Raw Evidence and of the immutable Evidence set that belongs to it. */
module EvidencePublication {
  import opened Json
  import opened Sequences
  import opened Identity
  import CanonicalForm
  import CanonicalPrinters

  /** An Evidence as the publisher sends it; `text` stands for the semantic fields without times. */
  datatype Evidence = Evidence(summary: string, keywords: seq<string>, text: string, startAt: Option<int>, endAt: Option<int>)

  datatype StoredEvidence = StoredEvidence(id: string, rawId: string, isSplit: bool, evidence: Evidence)

  /** `content` stands for the descriptive fields and the raw text; times are nanoseconds since the zero time. */
  datatype Raw = Raw(publicationKey: string, content: string, publishedAt: Option<int>, collectedAt: int, categoryIds: seq<string>)

  datatype StoredRaw = StoredRaw(id: string, content: string, contentHash: string, publishedAt: Option<int>, collectedAt: int, categoryIds: seq<string>)

  datatype Error = Validation | Internal | CategoryNotFound | RawConflict | RawNotFound | IdConflict | SetConflict | Persistence

  datatype Result<T> = Ok(value: T) | Err(error: Error)

  /** Taken from outside: the name-based UUID generator, the content digests and the field validators. */
  datatype Rules = Rules(
    hash: string -> string, digest: Evidence -> string, textHash: string -> string,
    validRaw: Raw -> bool, validEvidence: Evidence -> bool)

  // ---- normal forms ----

  const MICROSECOND := 1_000

  /** PostgreSQL keeps microseconds: the rest is cut off downwards. */
  function PostgresTime(t: int): int { t - t % MICROSECOND }

  function PostgresOptional(t: Option<int>): Option<int> { if t.Some? then Some(PostgresTime(t.value)) else None }

  function CloneEvidence(e: Evidence): Evidence { e.(startAt := PostgresOptional(e.startAt), endAt := PostgresOptional(e.endAt)) }

  function Sorted(ids: seq<string>): (s: seq<string>)
    ensures |s| == |ids| && forall k :: k in s <==> k in ids
  {
    CanonicalPrinters.SortSlice(CanonicalForm.Utf8Order, ids)
  }

  // ---- identities ----

  function RawID(r: Rules, key: string): string { "RAW" + r.hash(Seed("RAW", "raw-evidence-publication", [key])) }

  function EvidenceSeed(r: Rules, rawId: string, e: Evidence): string { Seed("EVD", "atomic-evidence", [rawId, r.digest(e)]) }

  function EvidenceID(r: Rules, rawId: string, e: Evidence): string { "EVD" + r.hash(EvidenceSeed(r, rawId, e)) }

  predicate HasEvidenceID(r: Rules, rawId: string, e: Evidence) { Derivable("EVD", "atomic-evidence", [rawId, r.digest(e)]) }

  function IDs(r: Rules, rawId: string, input: seq<Evidence>): (ids: seq<string>)
    ensures |ids| == |input|
  {
    seq(|input|, i requires 0 <= i < |input| => EvidenceID(r, rawId, input[i]))
  }

  // ---- the Evidence set of a publication ----

  /** `validateEvidencePublication`. */
  predicate ValidPublication(r: Rules, rawId: string, input: seq<Evidence>) {
    && Is(rawId, "RAW") && input != [] && Distinct(IDs(r, rawId, input))
    && (forall i | 0 <= i < |input| :: Is(EvidenceID(r, rawId, input[i]), "EVD"))
    && forall i | 0 <= i < |input| :: r.validEvidence(input[i])
  }

  function Record(r: Rules, rawId: string, input: seq<Evidence>, e: Evidence): StoredEvidence {
    StoredEvidence(EvidenceID(r, rawId, e), rawId, |input| > 1, CloneEvidence(e))
  }

  function Records(r: Rules, rawId: string, input: seq<Evidence>): (s: seq<StoredEvidence>)
    ensures |s| == |input|
  {
    seq(|input|, i requires 0 <= i < |input| => Record(r, rawId, input, input[i]))
  }

  function RowIDs(rows: seq<StoredEvidence>): (ids: seq<string>)
    ensures |ids| == |rows|
  {
    seq(|rows|, i requires 0 <= i < |rows| => rows[i].id)
  }

  function FindRow(rows: seq<StoredEvidence>, id: string): (i: int)
    ensures -1 <= i < |rows|
    ensures i >= 0 ==> rows[i].id == id
    ensures i < 0 ==> forall j | 0 <= j < |rows| :: rows[j].id != id
  {
    if rows == [] then -1
    else if rows[0].id == id then 0
    else var i := FindRow(rows[1..], id); if i < 0 then -1 else i + 1
  }

  /** Rows with distinct ids in the order of the sorted ids. */
  function SortedRows(rows: seq<StoredEvidence>): (s: seq<StoredEvidence>)
    ensures |s| == |rows|
  {
    var ids := Sorted(RowIDs(rows));
    seq(|ids|, i requires 0 <= i < |ids| => assert ids[i] in ids; rows[FindRow(rows, ids[i])])
  }

  // ---- the stored table ----

  function Of(rows: seq<StoredEvidence>, rawId: string): seq<StoredEvidence> {
    if rows == [] then []
    else Of(rows[..|rows| - 1], rawId) + (if rows[|rows| - 1].rawId == rawId then [rows[|rows| - 1]] else [])
  }

  predicate AnyID(rows: seq<StoredEvidence>, ids: seq<string>) { exists i | 0 <= i < |rows| :: rows[i].id in ids }

  function InsertAll(rows: seq<StoredEvidence>, added: seq<StoredEvidence>): Result<seq<StoredEvidence>> {
    if added == [] then Ok(rows)
    else match InsertAll(rows, added[..|added| - 1])
      case Err(e) => Err(e)
      case Ok(t) => if FindRow(t, added[|added| - 1].id) >= 0 then Err(Persistence) else Ok(t + [added[|added| - 1]])
  }

  predicate SameRows(left: seq<StoredEvidence>, right: seq<StoredEvidence>) { Elements(left) == Elements(right) }

  /** `sameEvidenceSet`: on tables with distinct ids it decides equality of sets. */
  method SameEvidenceSet(left: seq<StoredEvidence>, right: seq<StoredEvidence>) returns (same: bool)
    requires Distinct(RowIDs(left)) && Distinct(RowIDs(right))
    ensures same <==> SameRows(left, right)
  {
    RowsCount(left);
    RowsCount(right);
    if |left| != |right| {
      return false;
    }
    var byID: map<string, StoredEvidence> := map[];
    for i := 0 to |left|
      invariant forall k :: k in byID <==> exists j | 0 <= j < i :: left[j].id == k
      invariant forall j | 0 <= j < i :: byID[left[j].id] == left[j]
    {
      forall j | 0 <= j < i ensures left[j].id != left[i].id { assert RowIDs(left)[j] != RowIDs(left)[i]; }
      byID := byID[left[i].id := left[i]];
    }
    for i := 0 to |right|
      invariant forall j | 0 <= j < i :: right[j] in left
    {
      var record := right[i];
      assert record in Elements(right);
      if record.id !in byID || byID[record.id] != record {
        assert record !in left;
        return false;
      }
    }
    SubsetSameSize(Elements(right), Elements(left));
    return true;
  }

  lemma RowsCount(rows: seq<StoredEvidence>)
    requires Distinct(RowIDs(rows))
    ensures Distinct(rows) && |Elements(rows)| == |rows|
  {
    forall i, j | 0 <= i < j < |rows| ensures rows[i] != rows[j] { assert RowIDs(rows)[i] != RowIDs(rows)[j]; }
    DistinctCount(rows);
  }

  // ---- what the operations do ----

  datatype State = State(raws: map<string, StoredRaw>, rows: seq<StoredEvidence>)

  datatype Op = PublishRaw(raw: Raw, catalog: set<string>) | Publish(rawId: string, input: seq<Evidence>)

  function CloneRaw(r: Rules, raw: Raw): StoredRaw {
    StoredRaw(RawID(r, raw.publicationKey), raw.content, r.textHash(raw.content), PostgresOptional(raw.publishedAt),
              PostgresTime(raw.collectedAt), Sorted(raw.categoryIds))
  }

  predicate ValidRaw(r: Rules, raw: Raw) {
    r.validRaw(raw) && Is(RawID(r, raw.publicationKey), "RAW") && Distinct(raw.categoryIds) && forall k | k in raw.categoryIds :: Is(k, "EVC")
  }

  function AfterRaw(r: Rules, s: State, raw: Raw, catalog: set<string>): Result<State> {
    var record := CloneRaw(r, raw);
    if TrimSpace(raw.publicationKey) == "" || !ValidRaw(r, raw) then Err(Validation)
    else if exists k | k in raw.categoryIds :: k !in catalog then Err(CategoryNotFound)
    else if record.id !in s.raws then Ok(s.(raws := s.raws[record.id := record]))
    else if s.raws[record.id] == record then Ok(s)
    else Err(RawConflict)
  }

  function AfterPublish(r: Rules, s: State, rawId: string, input: seq<Evidence>): Result<State> {
    var records := SortedRows(Records(r, rawId, input));
    var existing := Of(s.rows, rawId);
    if exists i | 0 <= i < |input| :: !HasEvidenceID(r, rawId, input[i]) then Err(Internal)
    else if !ValidPublication(r, rawId, input) then Err(Validation)
    else if rawId !in s.raws then Err(RawNotFound)
    else if existing != [] then if SameRows(existing, records) then Ok(s) else Err(SetConflict)
    else if AnyID(s.rows, RowIDs(records)) then Err(IdConflict)
    else match InsertAll(s.rows, records)
      case Err(e) => Err(e)
      case Ok(rows) => Ok(s.(rows := rows))
  }

  function Outcome(r: Rules, s: State, op: Op): Result<State> {
    match op
    case PublishRaw(raw, catalog) => AfterRaw(r, s, raw, catalog)
    case Publish(rawId, input) => AfterPublish(r, s, rawId, input)
  }

  /** A failed transaction is rolled back. */
  function After(r: Rules, s: State, op: Op): State {
    match Outcome(r, s, op)
    case Ok(t) => t
    case Err(_) => s
  }

  function Run(r: Rules, s: State, ops: seq<Op>): State {
    if ops == [] then s else After(r, Run(r, s, ops[..|ops| - 1]), ops[|ops| - 1])
  }

  /** What a publication answers: the sorted ids, and the id of each input in the request's order. */
  datatype Answer = Answer(rawId: string, ids: seq<string>, items: seq<string>)

  function AnswerOf(r: Rules, rawId: string, input: seq<Evidence>): Answer {
    Answer(rawId, RowIDs(SortedRows(Records(r, rawId, input))), IDs(r, rawId, input))
  }

  /** Inserts the records one after the other inside the transaction. */
  method InsertRecords(rows: seq<StoredEvidence>, records: seq<StoredEvidence>) returns (result: Result<seq<StoredEvidence>>)
    ensures result == InsertAll(rows, records)
  {
    var table := rows;
    for i := 0 to |records|
      invariant InsertAll(rows, records[..i]) == Ok(table)
    {
      assert records[..i + 1][..i] == records[..i];
      if FindRow(table, records[i].id) >= 0 {
        InsertAllFails(rows, records, i + 1);
        return Err(Persistence);
      }
      table := table + [records[i]];
    }
    assert records[..|records|] == records;
    return Ok(table);
  }

  // ---- the use case ----

  class UseCase {
    const rules: Rules
    var raws: map<string, StoredRaw>
    var rows: seq<StoredEvidence>

    ghost function Current(): State
      reads this
    {
      State(raws, rows)
    }

    constructor (rules: Rules)
      ensures this.rules == rules && Current() == State(map[], [])
    {
      this.rules := rules;
      raws, rows := map[], [];
    }

    method PublishRawEvidence(raw: Raw, catalog: set<string>) returns (result: Result<string>)
      modifies this
      ensures Current() == After(rules, old(Current()), PublishRaw(raw, catalog))
      ensures match Outcome(rules, old(Current()), PublishRaw(raw, catalog))
        case Ok(_) => result == Ok(RawID(rules, raw.publicationKey))
        case Err(e) => result == Err(e)
    {
      if TrimSpace(raw.publicationKey) == "" || !ValidRaw(rules, raw) {
        return Err(Validation);
      }
      var record := CloneRaw(rules, raw);
      for i := 0 to |raw.categoryIds|
        invariant forall j | 0 <= j < i :: raw.categoryIds[j] in catalog
        invariant Current() == old(Current())
      {
        if raw.categoryIds[i] !in catalog {
          return Err(CategoryNotFound);
        }
      }
      if record.id in raws {
        if raws[record.id] != record {
          return Err(RawConflict);
        }
      } else {
        raws := raws[record.id := record];
      }
      return Ok(record.id);
    }

    method PublishEvidence(rawId: string, input: seq<Evidence>) returns (result: Result<Answer>)
      requires Distinct(RowIDs(rows))
      modifies this
      ensures Current() == After(rules, old(Current()), Publish(rawId, input))
      ensures match Outcome(rules, old(Current()), Publish(rawId, input))
        case Ok(_) => result == Ok(AnswerOf(rules, rawId, input))
        case Err(e) => result == Err(e)
    {
      hide SortedRows, Records, ValidPublication, HasEvidenceID, SameRows;
      for i := 0 to |input|
        invariant forall j | 0 <= j < i :: HasEvidenceID(rules, rawId, input[j])
        invariant Current() == old(Current())
      {
        if !HasEvidenceID(rules, rawId, input[i]) {
          return Err(Internal);
        }
      }
      if !ValidPublication(rules, rawId, input) {
        return Err(Validation);
      }
      var records := SortedRows(Records(rules, rawId, input));
      if rawId !in raws {
        return Err(RawNotFound);
      }
      var existing := Of(rows, rawId);
      if existing != [] {
        OfDistinct(rows, rawId);
        ValidDistinct(rules, rawId, input);
        var same := SameEvidenceSet(existing, records);
        if !same {
          return Err(SetConflict);
        }
      } else {
        if AnyID(rows, RowIDs(records)) {
          return Err(IdConflict);
        }
        var inserted := InsertRecords(rows, records);
        if inserted.Err? {
          return Err(inserted.error);
        }
        rows := inserted.value;
      }
      return Ok(AnswerOf(rules, rawId, input));
    }
  }

  lemma {:induction false} InsertAllFails(rows: seq<StoredEvidence>, added: seq<StoredEvidence>, n: nat)
    requires n <= |added| && InsertAll(rows, added[..n]).Err?
    ensures InsertAll(rows, added) == InsertAll(rows, added[..n])
    decreases |added|
  {
    if n == |added| {
      assert added[..n] == added;
    } else {
      var init := added[..|added| - 1];
      assert init[..n] == added[..n];
      InsertAllFails(rows, init, n);
    }
  }

  lemma {:induction false} OfIn(rows: seq<StoredEvidence>, rawId: string)
    ensures forall x :: x in Of(rows, rawId) <==> x in rows && x.rawId == rawId
  {
    if rows != [] {
      OfIn(rows[..|rows| - 1], rawId);
      assert rows == rows[..|rows| - 1] + [rows[|rows| - 1]];
    }
  }

  lemma {:induction false} OfDistinct(rows: seq<StoredEvidence>, rawId: string)
    requires Distinct(RowIDs(rows))
    ensures Distinct(RowIDs(Of(rows, rawId)))
  {
    if rows != [] {
      var init, last := rows[..|rows| - 1], rows[|rows| - 1];
      forall i, j | 0 <= i < j < |init| ensures RowIDs(init)[i] != RowIDs(init)[j] { assert RowIDs(rows)[i] != RowIDs(rows)[j]; }
      OfDistinct(init, rawId);
      OfIn(init, rawId);
      var t := Of(init, rawId);
      forall i | 0 <= i < |t| ensures t[i].id != last.id {
        assert t[i] in t;
        var k :| 0 <= k < |init| && init[k] == t[i];
        assert RowIDs(rows)[k] != RowIDs(rows)[|rows| - 1];
      }
      var u := Of(rows, rawId);
      assert u == t || u == t + [last];
      forall i, j | 0 <= i < j < |u| ensures u[i].id != u[j].id {
        if j < |t| { assert RowIDs(t)[i] != RowIDs(t)[j]; }
      }
    }
  }

  // ---- sorted records ----

  lemma RecordsInOrder(rows: seq<StoredEvidence>)
    requires Distinct(RowIDs(rows))
    ensures RowIDs(SortedRows(rows)) == Sorted(RowIDs(rows))
    ensures Distinct(RowIDs(SortedRows(rows)))
    ensures Elements(SortedRows(rows)) == Elements(rows)
  {
    var ids := Sorted(RowIDs(rows));
    var s := SortedRows(rows);
    forall i | 0 <= i < |ids| ensures s[i].id == ids[i] && s[i] in rows {
      assert ids[i] in RowIDs(rows);
      var k :| 0 <= k < |rows| && RowIDs(rows)[k] == ids[i];
      assert FindRow(rows, ids[i]) >= 0;
    }
    assert RowIDs(s) == ids;
    SortedDistinct(RowIDs(rows));
    hide SortedRows, Sorted, FindRow;
    forall x | x in rows ensures x in s {
      var k :| 0 <= k < |rows| && rows[k] == x;
      assert RowIDs(rows)[k] in ids;
      var i :| 0 <= i < |ids| && ids[i] == x.id;
      var m :| 0 <= m < |rows| && rows[m] == s[i];
      assert RowIDs(rows)[m] == RowIDs(rows)[k];
    }
  }

  lemma SortedDistinct(ids: seq<string>)
    requires Distinct(ids)
    ensures Distinct(Sorted(ids))
  {
    DistinctCount(ids);
    DistinctCount(Sorted(ids));
    assert Elements(Sorted(ids)) == Elements(ids);
  }

  lemma RecordsDistinct(r: Rules, rawId: string, input: seq<Evidence>)
    requires Distinct(IDs(r, rawId, input))
    ensures Distinct(RowIDs(Records(r, rawId, input))) && Distinct(RowIDs(SortedRows(Records(r, rawId, input))))
    ensures Elements(SortedRows(Records(r, rawId, input))) == Elements(Records(r, rawId, input))
  {
    assert RowIDs(Records(r, rawId, input)) == IDs(r, rawId, input);
    RecordsInOrder(Records(r, rawId, input));
  }

  lemma ValidDistinct(r: Rules, rawId: string, input: seq<Evidence>)
    requires ValidPublication(r, rawId, input)
    ensures Distinct(RowIDs(SortedRows(Records(r, rawId, input))))
  {
    RecordsDistinct(r, rawId, input);
  }
}
