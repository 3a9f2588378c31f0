/** The Source catalogue: every mutation is one transaction under one lock. */
module SourceCatalog {
  import opened Json
  import opened Identity
  import opened Unicode

  const MAX_SOURCES := 200
  const MAX_ENVELOPE := 500_000

  /** Bytes of the snapshot envelope without its sources: 554 with the 128 four-byte characters of
    the longest request identity and the final newline. */
  const ENVELOPE_BASE := 554

  datatype Ownership = Fixed | Dynamic | UnknownOwnership
  datatype Channel = WebSearch | Api | Rss | UnknownChannel

  const ADAPTERS: set<string> := {
    "bocha", "tavily", "parallel", "cls", "eastmoney_fast", "eastmoney_stock", "stcn", "generic_rss"
  }

  /** `details` stands for the fields that only the field validators look at; times are nanoseconds
    since Go's zero time, so 0 is the zero time. */
  datatype Source<D> = Source(
    id: string, code: string, ownership: Ownership, channel: Channel, adapter: string, enabled: bool,
    details: D, createdAt: int, updatedAt: int)

  datatype Input<D> = Input(code: string, adapter: string, enabled: bool, details: D)

  datatype Error = Validation | Conflict | NotFound | FixedDeleteForbidden | CapacityExceeded | Persistence

  datatype Result<T> = Ok(value: T) | Err(error: Error)

  /** What the catalogue takes from outside: the field validators, the byte length of a source's JSON
    without its timestamps, the name-based UUID generator, the comparison of details and the priority among them. */
  datatype Rules<!D> = Rules(
    valid: D -> bool, size: Source<D> -> nat, hash: string -> string, same: (D, D) -> bool, priority: D -> int)

  // ---- validation ----

  predicate CodeChar(c: char) { 'a' <= c <= 'z' || '0' <= c <= '9' }

  predicate ValidCode(code: string) {
    1 <= |code| <= 64 && CodeChar(code[0]) && forall i | 0 < i < |code| :: CodeChar(code[i]) || code[i] == '_' || code[i] == '-'
  }

  predicate ValidSource<D>(r: Rules<D>, s: Source<D>, requireTimestamps: bool) {
    && Is(s.id, "SRC") && ValidCode(s.code) && r.valid(s.details)
    && s.ownership != UnknownOwnership && s.channel != UnknownChannel && s.adapter in ADAPTERS
    && (s.ownership == Dynamic ==> s.channel == Rss && s.adapter == "generic_rss")
    && (requireTimestamps ==> s.createdAt != 0 && s.updatedAt != 0 && s.createdAt <= s.updatedAt)
  }

  function SourceID<D>(r: Rules<D>, code: string): string { "SRC" + r.hash(Seed("SRC", "source", [code])) }

  predicate HasID(code: string) { Derivable("SRC", "source", [code]) }

  // ---- the snapshot envelope ----

  const SECOND := 1_000_000_000

  function FractionWidth(nanos: int, digits: nat): nat
    decreases digits
  {
    if digits == 0 then 0 else if nanos % 10 == 0 then FractionWidth(nanos / 10, digits - 1) else digits
  }

  /** Length of a quoted RFC 3339 timestamp: trailing zeros of the fraction are not written. */
  function StampWidth(t: int): (w: nat)
  {
    var fraction := FractionWidth(t % SECOND, 9);
    if fraction == 0 then 22 else 23 + fraction
  }

  /** The worst timestamp the measure assumes for a source not yet stamped. */
  const WORST_STAMP := 999_999_999

  function Measured(t: int): int { if t == 0 then WORST_STAMP else t }

  function ItemSize<D>(r: Rules<D>, s: Source<D>): nat {
    r.size(s.(createdAt := 0, updatedAt := 0)) + StampWidth(Measured(s.createdAt)) + StampWidth(Measured(s.updatedAt))
  }

  /** Each enabled source with the comma or bracket before it. */
  function ItemsSize<D>(r: Rules<D>, rows: seq<Source<D>>): nat {
    if rows == [] then 0
    else ItemsSize(r, rows[..|rows| - 1]) + (if rows[|rows| - 1].enabled then ItemSize(r, rows[|rows| - 1]) + 1 else 0)
  }

  function Max(a: int, b: int): int { if a >= b then a else b }

  /** `snapshotEnvelopeSize` of the enabled rows: one comma fewer than there are sources. */
  function EnvelopeSize<D>(r: Rules<D>, rows: seq<Source<D>>): int {
    ENVELOPE_BASE + Max(ItemsSize(r, rows) - 1, 0)
  }

  function WebCount<D>(rows: seq<Source<D>>): nat {
    if rows == [] then 0
    else WebCount(rows[..|rows| - 1]) + (if ActiveWeb(rows[|rows| - 1]) then 1 else 0)
  }

  predicate ActiveWeb<D>(s: Source<D>) { s.enabled && s.channel == WebSearch }

  predicate AllValid<D>(r: Rules<D>, rows: seq<Source<D>>, requireTimestamps: bool) {
    forall i | 0 <= i < |rows| :: ValidSource(r, rows[i], requireTimestamps)
  }

  function ProjectedError<D>(r: Rules<D>, rows: seq<Source<D>>): Option<Error> {
    if |rows| > MAX_SOURCES then Some(CapacityExceeded)
    else if !AllValid(r, rows, false) then Some(Validation)
    else if WebCount(rows) > 1 then Some(Conflict)
    else if EnvelopeSize(r, rows) > MAX_ENVELOPE then Some(CapacityExceeded)
    else None
  }

  lemma MeasureStep<D>(r: Rules<D>, rows: seq<Source<D>>, i: nat)
    requires i < |rows|
    ensures ItemsSize(r, rows[..i + 1]) == ItemsSize(r, rows[..i]) + (if rows[i].enabled then ItemSize(r, rows[i]) + 1 else 0)
    ensures WebCount(rows[..i + 1]) == WebCount(rows[..i]) + (if ActiveWeb(rows[i]) then 1 else 0)
  {
    hide ItemSize, ActiveWeb;
    assert rows[..i + 1][..i] == rows[..i] && rows[..i + 1][i] == rows[i];
  }

  method ValidateProjectedSet<D>(r: Rules<D>, rows: seq<Source<D>>) returns (error: Option<Error>)
    ensures error == ProjectedError(r, rows)
  {
    hide ValidSource, ItemSize, ItemsSize, WebCount;
    if |rows| > MAX_SOURCES {
      return Some(CapacityExceeded);
    }
    var size, activeWeb := 0, 0;
    NothingMeasured(r);
    assert rows[..0] == [];
    for i := 0 to |rows|
      invariant forall j | 0 <= j < i :: ValidSource(r, rows[j], false)
      invariant size == ItemsSize(r, rows[..i])
      invariant activeWeb == WebCount(rows[..i])
    {
      if !ValidSource(r, rows[i], false) {
        return Some(Validation);
      }
      MeasureStep(r, rows, i);
      if rows[i].enabled {
        size := size + ItemSize(r, rows[i]) + 1;
        if rows[i].channel == WebSearch {
          activeWeb := activeWeb + 1;
        }
      }
    }
    assert rows[..|rows|] == rows;
    if activeWeb > 1 {
      return Some(Conflict);
    }
    if ENVELOPE_BASE + Max(size - 1, 0) > MAX_ENVELOPE {
      return Some(CapacityExceeded);
    }
    return None;
  }

  lemma NothingMeasured<D>(r: Rules<D>)
    ensures ItemsSize(r, []) == 0 && WebCount<D>([]) == 0
  {
  }

  // ---- the table ----

  predicate UniqueRows<D>(rows: seq<Source<D>>) {
    forall i, j | 0 <= i < j < |rows| :: rows[i].id != rows[j].id && rows[i].code != rows[j].code
  }

  /** The store stamps a source that carries no creation time. */
  function Stamp<D>(s: Source<D>, now: int): Source<D> {
    if s.createdAt == 0 then s.(createdAt := now, updatedAt := now) else s
  }

  /** Insert under the table's constraints: unique id, unique code, one enabled web search, ordered times. */
  function Insert<D>(rows: seq<Source<D>>, s: Source<D>, now: int): Result<seq<Source<D>>> {
    if exists i | 0 <= i < |rows| :: rows[i].id == s.id || rows[i].code == s.code || (ActiveWeb(rows[i]) && ActiveWeb(s))
    then Err(Conflict)
    else if Stamp(s, now).updatedAt < Stamp(s, now).createdAt then Err(Persistence)
    else Ok(rows + [Stamp(s, now)])
  }

  function Find<D>(rows: seq<Source<D>>, code: string): (i: int)
    ensures -1 <= i < |rows|
    ensures i >= 0 ==> rows[i].code == code
    ensures i < 0 ==> forall j | 0 <= j < |rows| :: rows[j].code != code
  {
    if rows == [] then -1
    else if rows[0].code == code then 0
    else var i := Find(rows[1..], code); if i < 0 then -1 else i + 1
  }

  function FindID<D>(rows: seq<Source<D>>, id: string): (i: int)
    ensures -1 <= i < |rows|
    ensures i >= 0 ==> rows[i].id == id
    ensures i < 0 ==> forall j | 0 <= j < |rows| :: rows[j].id != id
  {
    if rows == [] then -1
    else if rows[0].id == id then 0
    else var i := FindID(rows[1..], id); if i < 0 then -1 else i + 1
  }

  // ---- preparing a manifest ----

  datatype Preparation = FixedManifest | DynamicCatalog | Exported

  predicate CatalogItem<D>(s: Source<D>) { s.ownership == Dynamic && s.channel == Rss && s.adapter == "generic_rss" }

  /** The item with its derived identity; a fixed manifest decides the ownership itself. */
  function Item<D>(r: Rules<D>, s: Source<D>, p: Preparation): Source<D> {
    if p.FixedManifest? then s.(id := SourceID(r, s.code), ownership := Fixed) else s.(id := SourceID(r, s.code))
  }

  /** Only an import brings timestamps of its own to be checked. */
  function PrepareOne<D>(r: Rules<D>, s: Source<D>, seen: set<string>, p: Preparation): Result<Source<D>> {
    if p.DynamicCatalog? && !CatalogItem(s) then Err(Conflict)
    else if !HasID(s.code) then Err(Validation)
    else if s.code in seen then Err(Conflict)
    else if !ValidSource(r, Item(r, s, p), p.Exported?) then Err(Validation)
    else Ok(Item(r, s, p))
  }

  function PrepareAll<D>(r: Rules<D>, items: seq<Source<D>>, seen: set<string>, p: Preparation): Result<seq<Source<D>>>
    decreases |items|
  {
    if items == [] then Ok([])
    else match PrepareOne(r, items[0], seen, p)
      case Err(e) => Err(e)
      case Ok(head) =>
        match PrepareAll(r, items[1..], seen + {items[0].code}, p)
        case Err(e) => Err(e)
        case Ok(tail) => Ok([head] + tail)
  }

  predicate DistinctCodes<D>(items: seq<Source<D>>) {
    forall i, j | 0 <= i < j < |items| :: items[i].code != items[j].code
  }

  /** A prepared manifest is valid, has no code twice and keeps the request's order. */
  lemma {:induction false} PreparedItems<D>(r: Rules<D>, items: seq<Source<D>>, seen: set<string>, p: Preparation)
    requires PrepareAll(r, items, seen, p).Ok?
    ensures var t := PrepareAll(r, items, seen, p).value;
            && |t| == |items| && AllValid(r, t, p.Exported?) && DistinctCodes(t)
            && (forall i | 0 <= i < |t| :: t[i].code !in seen && t[i] == Item(r, items[i], p))
            && (p.DynamicCatalog? ==> forall i | 0 <= i < |t| :: CatalogItem(items[i]))
    decreases |items|
  {
    hide ValidSource, SourceID, HasID, CatalogItem;
    if items != [] {
      PreparedItems(r, items[1..], seen + {items[0].code}, p);
    }
  }

  /** How the preparation of the rest completes what is prepared so far. */
  function Extend<D>(prepared: seq<Source<D>>, rest: Result<seq<Source<D>>>): Result<seq<Source<D>>> {
    match rest
    case Err(e) => Err(e)
    case Ok(tail) => Ok(prepared + tail)
  }

  lemma ExtendStep<D>(prepared: seq<Source<D>>, head: Source<D>, rest: Result<seq<Source<D>>>)
    ensures Extend(prepared, Extend([head], rest)) == Extend(prepared + [head], rest)
  {
    if rest.Ok? {
      assert prepared + ([head] + rest.value) == prepared + [head] + rest.value;
    }
  }

  method Prepare<D>(r: Rules<D>, items: seq<Source<D>>, p: Preparation) returns (result: Result<seq<Source<D>>>)
    ensures result == PrepareAll(r, items, {}, p)
  {
    var prepared: seq<Source<D>> := [];
    var seen: set<string> := {};
    ghost var all := PrepareAll(r, items, {}, p);
    assert items[0..] == items;
    assert all.Ok? ==> [] + all.value == all.value;
    hide PrepareOne;
    for i := 0 to |items|
      invariant Extend(prepared, PrepareAll(r, items[i..], seen, p)) == all
    {
      var one := PrepareOne(r, items[i], seen, p);
      assert items[i..][1..] == items[i + 1..] && items[i..][0] == items[i];
      if one.Err? {
        return Err(one.error);
      }
      ExtendStep(prepared, one.value, PrepareAll(r, items[i + 1..], seen + {items[i].code}, p));
      prepared := prepared + [one.value];
      seen := seen + {items[i].code};
    }
    assert prepared + [] == prepared;
    return Ok(prepared);
  }

  // ---- what each operation does to the table ----

  datatype Op<D> =
    | Create(input: Input<D>, now: int)
    | PublishFixed(manifest: seq<Source<D>>, now: int)
    | PublishDynamic(manifest: seq<Source<D>>, now: int)
    | Update(id: string, change: Input<D>, now: int)
    | Delete(id: string)
    | Import(items: seq<Source<D>>, now: int)

  function Candidate<D>(r: Rules<D>, input: Input<D>): Source<D> {
    Source(SourceID(r, input.code), input.code, Dynamic, Rss, "generic_rss", input.enabled, input.details, 0, 0)
  }

  function AfterCreate<D>(r: Rules<D>, rows: seq<Source<D>>, input: Input<D>, now: int): Result<seq<Source<D>>> {
    var candidate := Candidate(r, input);
    if !HasID(input.code) || !ValidSource(r, candidate, false) then Err(Validation)
    else if Find(rows, candidate.code) >= 0 || FindID(rows, candidate.id) >= 0 then Err(Conflict)
    else match ProjectedError(r, rows + [candidate])
      case Some(e) => Err(e)
      case None => Insert(rows, candidate, now)
  }

  predicate MatchesFixed<D>(current: Source<D>, item: Source<D>) {
    current.id == item.id && current.ownership == Fixed && current.channel == item.channel
  }

  predicate MatchesDynamic<D>(current: Source<D>, item: Source<D>) {
    current.id == item.id && current.ownership == Dynamic && current.channel == Rss && current.adapter == "generic_rss"
  }

  /** The prepared items whose code the table does not hold. */
  function Missing<D>(rows: seq<Source<D>>, prepared: seq<Source<D>>): seq<Source<D>> {
    if prepared == [] then []
    else Missing(rows, prepared[..|prepared| - 1]) +
         (if Find(rows, prepared[|prepared| - 1].code) >= 0 then [] else [prepared[|prepared| - 1]])
  }

  function InsertAll<D>(rows: seq<Source<D>>, items: seq<Source<D>>, now: int): Result<seq<Source<D>>> {
    if items == [] then Ok(rows)
    else match InsertAll(rows, items[..|items| - 1], now)
      case Err(e) => Err(e)
      case Ok(t) => Insert(t, items[|items| - 1], now)
  }

  /** The publication loop for fixed sources: match or insert, one prepared item after the other. */
  function FixedLoop<D>(base: seq<Source<D>>, prepared: seq<Source<D>>, now: int): Result<seq<Source<D>>> {
    if prepared == [] then Ok(base)
    else
      var item := prepared[|prepared| - 1];
      var at := Find(base, item.code);
      match FixedLoop(base, prepared[..|prepared| - 1], now)
      case Err(e) => Err(e)
      case Ok(t) =>
        if at < 0 then Insert(t, item, now)
        else if MatchesFixed(base[at], item) then Ok(t)
        else Err(Conflict)
  }

  function AfterPublishFixed<D>(r: Rules<D>, rows: seq<Source<D>>, manifest: seq<Source<D>>, now: int): Result<seq<Source<D>>> {
    match PrepareAll(r, manifest, {}, FixedManifest)
    case Err(e) => Err(e)
    case Ok(prepared) =>
      match FixedLoop(rows, prepared, now)
      case Err(e) => Err(e)
      case Ok(after) =>
        match ProjectedError(r, rows + Missing(rows, prepared))
        case Some(e) => Err(e)
        case None => Ok(after)
  }

  predicate DynamicMatch<D>(rows: seq<Source<D>>, prepared: seq<Source<D>>) {
    forall i | 0 <= i < |prepared| :: Find(rows, prepared[i].code) >= 0 ==>
      MatchesDynamic(rows[Find(rows, prepared[i].code)], prepared[i])
  }

  function AfterPublishDynamic<D>(r: Rules<D>, rows: seq<Source<D>>, manifest: seq<Source<D>>, now: int): Result<seq<Source<D>>> {
    match PrepareAll(r, manifest, {}, DynamicCatalog)
    case Err(e) => Err(e)
    case Ok(prepared) =>
      if !DynamicMatch(rows, prepared) then Err(Conflict)
      else match ProjectedError(r, rows + Missing(rows, prepared))
        case Some(e) => Err(e)
        case None => InsertAll(rows, Missing(rows, prepared), now)
  }

  /** The row an update proposes: identity, ownership, channel and times are kept. */
  function Changed<D>(current: Source<D>, change: Input<D>): Source<D> {
    current.(adapter := change.adapter, enabled := change.enabled, details := change.details)
  }

  function AfterUpdate<D>(r: Rules<D>, rows: seq<Source<D>>, id: string, change: Input<D>, now: int): Result<seq<Source<D>>> {
    if !Is(id, "SRC") then Err(Validation)
    else
      var at := FindID(rows, id);
      if at < 0 then Err(NotFound)
      else
        var candidate := Changed(rows[at], change);
        if !ValidSource(r, candidate, false) then Err(Validation)
        else match ProjectedError(r, rows[at := candidate])
          case Some(e) => Err(e)
          case None =>
            if now < candidate.createdAt then Err(Persistence)
            else Ok(rows[at := candidate.(updatedAt := now)])
  }

  function AfterDelete<D>(rows: seq<Source<D>>, id: string): Result<seq<Source<D>>> {
    if !Is(id, "SRC") then Err(Validation)
    else
      var at := FindID(rows, id);
      if at < 0 then Err(NotFound)
      else if rows[at].ownership == Fixed then Err(FixedDeleteForbidden)
      else Ok(rows[..at] + rows[at + 1..])
  }

  const MICROSECOND := 1_000

  predicate SameStamp(a: int, b: int) { a / MICROSECOND == b / MICROSECOND }

  predicate SameSource<D>(r: Rules<D>, a: Source<D>, b: Source<D>) {
    && a.id == b.id && a.code == b.code && a.ownership == b.ownership && a.channel == b.channel
    && a.adapter == b.adapter && a.enabled == b.enabled && r.same(a.details, b.details)
    && SameStamp(a.createdAt, b.createdAt) && SameStamp(a.updatedAt, b.updatedAt)
  }

  predicate SameRows<D>(r: Rules<D>, rows: seq<Source<D>>, prepared: seq<Source<D>>) {
    && |rows| == |prepared|
    && forall i | 0 <= i < |prepared| :: Find(rows, prepared[i].code) >= 0 && SameSource(r, rows[Find(rows, prepared[i].code)], prepared[i])
  }

  function AfterImport<D>(r: Rules<D>, rows: seq<Source<D>>, items: seq<Source<D>>, now: int): Result<seq<Source<D>>> {
    match PrepareAll(r, items, {}, Exported)
    case Err(e) => Err(e)
    case Ok(prepared) =>
      match ProjectedError(r, prepared)
      case Some(e) => Err(e)
      case None =>
        if rows == [] then InsertAll(rows, prepared, now)
        else if SameRows(r, rows, prepared) then Ok(rows)
        else Err(Conflict)
  }

  function Outcome<D>(r: Rules<D>, rows: seq<Source<D>>, op: Op<D>): Result<seq<Source<D>>> {
    match op
    case Create(input, now) => AfterCreate(r, rows, input, now)
    case PublishFixed(manifest, now) => AfterPublishFixed(r, rows, manifest, now)
    case PublishDynamic(manifest, now) => AfterPublishDynamic(r, rows, manifest, now)
    case Update(id, change, now) => AfterUpdate(r, rows, id, change, now)
    case Delete(id) => AfterDelete(rows, id)
    case Import(items, now) => AfterImport(r, rows, items, now)
  }

  /** A failed transaction is rolled back. */
  function After<D>(r: Rules<D>, rows: seq<Source<D>>, op: Op<D>): seq<Source<D>> {
    match Outcome(r, rows, op)
    case Ok(t) => t
    case Err(_) => rows
  }

  function Run<D>(r: Rules<D>, rows: seq<Source<D>>, ops: seq<Op<D>>): seq<Source<D>> {
    if ops == [] then rows else After(r, Run(r, rows, ops[..|ops| - 1]), ops[|ops| - 1])
  }

  /** What a publication answers: for each prepared item the row already stored, or the one it inserts. */
  function Answer<D>(rows: seq<Source<D>>, prepared: seq<Source<D>>, now: int): seq<Source<D>> {
    seq(|prepared|, i requires 0 <= i < |prepared| =>
      var at := Find(rows, prepared[i].code); if at >= 0 then rows[at] else Stamp(prepared[i], now))
  }

  // ---- the order of answers ----

  /** An import is answered by code, a snapshot by channel, priority, code and id. */
  datatype Order = ByCode | BySnapshot

  /** The channel names `api`, `rss` and `web_search` in the order of their bytes. */
  function ChannelRank(c: Channel): nat {
    match c
    case UnknownChannel => 0
    case Api => 1
    case Rss => 2
    case WebSearch => 3
  }

  predicate Before<D>(r: Rules<D>, o: Order, a: Source<D>, b: Source<D>) {
    match o
    case ByCode => KeyLess8(a.code, b.code)
    case BySnapshot =>
      if a.channel != b.channel then ChannelRank(a.channel) < ChannelRank(b.channel)
      else if r.priority(a.details) != r.priority(b.details) then r.priority(a.details) < r.priority(b.details)
      else if a.code != b.code then KeyLess8(a.code, b.code)
      else KeyLess8(a.id, b.id)
  }

  function InsertOrdered<D>(r: Rules<D>, o: Order, x: Source<D>, rows: seq<Source<D>>): (t: seq<Source<D>>)
    ensures multiset(t) == multiset(rows) + multiset{x}
  {
    if rows == [] then [x]
    else if Before(r, o, x, rows[0]) then [x] + rows
    else
      assert rows == [rows[0]] + rows[1..];
      [rows[0]] + InsertOrdered(r, o, x, rows[1..])
  }

  /** Go's `sort.Slice`: the same rows, no row before an earlier one. */
  function Sorted<D>(r: Rules<D>, o: Order, rows: seq<Source<D>>): (t: seq<Source<D>>)
    ensures multiset(t) == multiset(rows)
  {
    if rows == [] then []
    else
      assert rows == [rows[0]] + rows[1..];
      InsertOrdered(r, o, rows[0], Sorted(r, o, rows[1..]))
  }

  ghost predicate InOrder<D>(r: Rules<D>, o: Order, rows: seq<Source<D>>) {
    forall i, j | 0 <= i < j < |rows| :: !Before(r, o, rows[j], rows[i])
  }

  lemma BeforeIsOrder<D>(r: Rules<D>, o: Order, a: Source<D>, b: Source<D>, c: Source<D>)
    ensures Before(r, o, a, b) ==> !Before(r, o, b, a)
    ensures !Before(r, o, b, a) && !Before(r, o, c, b) ==> !Before(r, o, c, a)
    ensures !Before(r, o, a, b) && !Before(r, o, b, a) ==> a.code == b.code
  {
    KeyLess8IsStrictTotalOrder(a.code, b.code, c.code);
    KeyLess8IsStrictTotalOrder(c.code, b.code, a.code);
    KeyLess8IsStrictTotalOrder(c.code, a.code, b.code);
    KeyLess8IsStrictTotalOrder(a.id, b.id, c.id);
    KeyLess8IsStrictTotalOrder(c.id, b.id, a.id);
    KeyLess8IsStrictTotalOrder(c.id, a.id, b.id);
    hide KeyLess8;
  }

  lemma {:induction false} InsertInOrder<D>(r: Rules<D>, o: Order, x: Source<D>, rows: seq<Source<D>>)
    requires InOrder(r, o, rows)
    ensures InOrder(r, o, InsertOrdered(r, o, x, rows))
  {
    hide Before;
    if rows == [] {
    } else if Before(r, o, x, rows[0]) {
      BeforeIsOrder(r, o, x, rows[0], rows[0]);
      forall j | 0 <= j < |rows| ensures !Before(r, o, rows[j], x) { BeforeIsOrder(r, o, x, rows[0], rows[j]); }
    } else {
      InsertInOrder(r, o, x, rows[1..]);
      var t := InsertOrdered(r, o, x, rows[1..]);
      forall y | y in t ensures !Before(r, o, y, rows[0]) {
        assert y in multiset(t) && y in multiset(rows[1..]) + multiset{x};
      }
    }
  }

  /** The answer is in order; rows with different codes have one order only. */
  lemma {:induction false} SortedInOrder<D>(r: Rules<D>, o: Order, rows: seq<Source<D>>)
    ensures InOrder(r, o, Sorted(r, o, rows))
  {
    if rows != [] {
      SortedInOrder(r, o, rows[1..]);
      InsertInOrder(r, o, rows[0], Sorted(r, o, rows[1..]));
    }
  }

  /** Over rows with distinct codes the order leaves no choice: any listing of the same rows in order is the answer. */
  lemma {:induction false} OneOrder<D>(r: Rules<D>, o: Order, s: seq<Source<D>>, t: seq<Source<D>>)
    requires multiset(s) == multiset(t) && InOrder(r, o, s) && InOrder(r, o, t)
    requires forall a, b | a in s && b in s && a.code == b.code :: a == b
    ensures s == t
  {
    if s == [] {
      assert |multiset(t)| == 0;
    } else {
      assert |t| == |multiset(t)| == |multiset(s)| == |s|;
      SameHead(r, o, s, t);
      SameTails(s, t);
      TailInOrder(r, o, s);
      TailInOrder(r, o, t);
      hide *;
      assert forall a | a in s[1..] :: a in s;
      OneOrder(r, o, s[1..], t[1..]);
      assert s == [s[0]] + s[1..] && t == [t[0]] + t[1..];
    }
  }

  lemma SameTails<T>(s: seq<T>, t: seq<T>)
    requires s != [] && t != [] && multiset(s) == multiset(t) && s[0] == t[0]
    ensures multiset(s[1..]) == multiset(t[1..])
  {
    assert s == [s[0]] + s[1..] && t == [t[0]] + t[1..];
    assert multiset(s[1..]) == multiset(s) - multiset{s[0]};
    assert multiset(t[1..]) == multiset(t) - multiset{t[0]};
  }

  lemma TailInOrder<D>(r: Rules<D>, o: Order, s: seq<Source<D>>)
    requires s != [] && InOrder(r, o, s)
    ensures InOrder(r, o, s[1..])
  {
    hide Before;
  }

  lemma SameHead<D>(r: Rules<D>, o: Order, s: seq<Source<D>>, t: seq<Source<D>>)
    requires s != [] && t != [] && multiset(s) == multiset(t) && InOrder(r, o, s) && InOrder(r, o, t)
    requires forall a, b | a in s && b in s && a.code == b.code :: a == b
    ensures s[0] == t[0]
  {
    hide Before;
    assert s[0] in multiset(t) && t[0] in multiset(s);
    assert t[0] in s && s[0] in t;
    BeforeIsOrder(r, o, s[0], t[0], t[0]);
    BeforeIsOrder(r, o, s[0], s[0], t[0]);
  }

  // ---- the loops of the publications ----

  /** The loop over the locked rows: is the code or the id in use? */
  method Taken<D>(rows: seq<Source<D>>, code: string, id: string) returns (taken: bool)
    ensures taken <==> Find(rows, code) >= 0 || FindID(rows, id) >= 0
  {
    for i := 0 to |rows|
      invariant forall j | 0 <= j < i :: rows[j].code != code && rows[j].id != id
    {
      if rows[i].code == code || rows[i].id == id {
        return true;
      }
    }
    taken := false;
  }

  lemma InsertAppends<D>(rows: seq<Source<D>>, s: Source<D>, now: int)
    requires Insert(rows, s, now).Ok?
    ensures Insert(rows, s, now).value == rows + [Stamp(s, now)]
  {
  }

  /** Inserts the items one after the other inside the transaction. */
  method InsertRows<D>(base: seq<Source<D>>, items: seq<Source<D>>, now: int) returns (result: Result<seq<Source<D>>>)
    ensures result == InsertAll(base, items, now)
  {
    hide Insert;
    var table := base;
    for i := 0 to |items|
      invariant InsertAll(base, items[..i], now) == Ok(table)
    {
      assert items[..i + 1][..i] == items[..i];
      var created := Insert(table, items[i], now);
      if created.Err? {
        InsertAllFails(base, items, i + 1, now);
        return Err(created.error);
      }
      table := created.value;
    }
    assert items[..|items|] == items;
    return Ok(table);
  }

  method FixedInserts<D>(existing: seq<Source<D>>, prepared: seq<Source<D>>, now: int)
    returns (result: Result<seq<Source<D>>>, projected: seq<Source<D>>, stored: seq<Source<D>>)
    ensures result == FixedLoop(existing, prepared, now)
    ensures result.Ok? ==> projected == existing + Missing(existing, prepared) && stored == Answer(existing, prepared, now)
  {
    hide Insert, MatchesFixed, Find, Stamp;
    var table := existing;
    projected, stored := existing, [];
    for i := 0 to |prepared|
      invariant FixedLoop(existing, prepared[..i], now) == Ok(table)
      invariant projected == existing + Missing(existing, prepared[..i])
      invariant stored == Answer(existing, prepared, now)[..i]
    {
      var item := prepared[i];
      assert prepared[..i + 1][..i] == prepared[..i];
      var at := Find(existing, item.code);
      if at >= 0 {
        if !MatchesFixed(existing[at], item) {
          FixedLoopFails(existing, prepared, i + 1, now);
          return Err(Conflict), projected, stored;
        }
        stored := stored + [existing[at]];
      } else {
        projected := projected + [item];
        var created := Insert(table, item, now);
        if created.Err? {
          FixedLoopFails(existing, prepared, i + 1, now);
          return Err(created.error), projected, stored;
        }
        table := created.value;
        stored := stored + [Stamp(item, now)];
      }
    }
    assert prepared[..|prepared|] == prepared;
    result := Ok(table);
  }

  method DynamicMissing<D>(existing: seq<Source<D>>, prepared: seq<Source<D>>) returns (matched: bool, toInsert: seq<Source<D>>)
    ensures matched <==> DynamicMatch(existing, prepared)
    ensures matched ==> toInsert == Missing(existing, prepared)
  {
    hide MatchesDynamic;
    toInsert := [];
    for i := 0 to |prepared|
      invariant toInsert == Missing(existing, prepared[..i])
      invariant forall j | 0 <= j < i && Find(existing, prepared[j].code) >= 0 ::
                  MatchesDynamic(existing[Find(existing, prepared[j].code)], prepared[j])
    {
      var item := prepared[i];
      assert prepared[..i + 1][..i] == prepared[..i];
      var at := Find(existing, item.code);
      if at < 0 {
        toInsert := toInsert + [item];
      } else if !MatchesDynamic(existing[at], item) {
        return false, toInsert;
      }
    }
    assert prepared[..|prepared|] == prepared;
    matched := true;
  }

  method CompareRows<D>(r: Rules<D>, existing: seq<Source<D>>, prepared: seq<Source<D>>) returns (same: bool)
    ensures same <==> SameRows(r, existing, prepared)
  {
    hide SameSource;
    if |existing| != |prepared| {
      return false;
    }
    for i := 0 to |prepared|
      invariant forall j | 0 <= j < i :: Find(existing, prepared[j].code) >= 0 &&
                  SameSource(r, existing[Find(existing, prepared[j].code)], prepared[j])
    {
      var at := Find(existing, prepared[i].code);
      if at < 0 || !SameSource(r, existing[at], prepared[i]) {
        return false;
      }
    }
    return true;
  }

  // ---- the use case ----

  class UseCase<D> {
    const rules: Rules<D>
    var rows: seq<Source<D>>

    constructor (rules: Rules<D>)
      ensures this.rules == rules && rows == []
    {
      this.rules := rules;
      this.rows := [];
    }

    method CreateDynamic(input: Input<D>, now: int) returns (result: Result<Source<D>>)
      modifies this
      ensures rows == After(rules, old(rows), Create(input, now))
      ensures result.Ok? <==> Outcome(rules, old(rows), Create(input, now)).Ok?
      ensures result.Ok? ==> rows == old(rows) + [result.value]
      ensures result.Err? ==> Outcome(rules, old(rows), Create(input, now)) == Err(result.error)
    {
      if !HasID(input.code) {
        return Err(Validation);
      }
      var candidate := Candidate(rules, input);
      if !ValidSource(rules, candidate, false) {
        return Err(Validation);
      }
      hide ValidSource, ProjectedError, Insert, Find, FindID, HasID, Candidate;
      var existing := rows;
      var taken := Taken(existing, candidate.code, candidate.id);
      if taken {
        return Err(Conflict);
      }
      var projected := ValidateProjectedSet(rules, existing + [candidate]);
      if projected.Some? {
        return Err(projected.value);
      }
      var inserted := Insert(existing, candidate, now);
      if inserted.Err? {
        return Err(inserted.error);
      }
      InsertAppends(existing, candidate, now);
      rows := inserted.value;
      return Ok(Stamp(candidate, now));
    }

    method PublishFixedManifest(manifest: seq<Source<D>>, now: int) returns (result: Result<seq<Source<D>>>)
      modifies this
      ensures rows == After(rules, old(rows), PublishFixed(manifest, now))
      ensures match Outcome(rules, old(rows), PublishFixed(manifest, now))
        case Err(e) => result == Err(e)
        case Ok(_) => result == Ok(Answer(old(rows), PrepareAll(rules, manifest, {}, FixedManifest).value, now))
    {
      var prepare := Prepare(rules, manifest, FixedManifest);
      if prepare.Err? {
        return Err(prepare.error);
      }
      var prepared := prepare.value;
      var inserted, projected, stored := FixedInserts(rows, prepared, now);
      if inserted.Err? {
        return Err(inserted.error);
      }
      var error := ValidateProjectedSet(rules, projected);
      if error.Some? {
        return Err(error.value);
      }
      rows := inserted.value;
      return Ok(stored);
    }

    method UpdateSource(id: string, change: Input<D>, now: int) returns (result: Result<Source<D>>)
      modifies this
      ensures rows == After(rules, old(rows), Update(id, change, now))
      ensures result.Ok? <==> Outcome(rules, old(rows), Update(id, change, now)).Ok?
      ensures result.Ok? ==> result.value.id == id && rows == old(rows)[FindID(old(rows), id) := result.value]
      ensures result.Err? ==> Outcome(rules, old(rows), Update(id, change, now)) == Err(result.error)
    {
      if !Is(id, "SRC") {
        return Err(Validation);
      }
      var index := FindID(rows, id);
      if index < 0 {
        return Err(NotFound);
      }
      var current := rows[index];
      var candidate := Source(current.id, current.code, current.ownership, current.channel, change.adapter,
                              change.enabled, change.details, current.createdAt, current.updatedAt);
      if !ValidSource(rules, candidate, false) {
        return Err(Validation);
      }
      var error := ValidateProjectedSet(rules, rows[index := candidate]);
      if error.Some? {
        return Err(error.value);
      }
      if now < candidate.createdAt {
        return Err(Persistence);
      }
      rows := rows[index := candidate.(updatedAt := now)];
      return Ok(candidate.(updatedAt := now));
    }

    method DeleteSource(id: string) returns (result: Result<()>)
      modifies this
      ensures rows == After(rules, old(rows), Delete(id))
      ensures result.Ok? <==> Outcome(rules, old(rows), Delete(id)).Ok?
      ensures result.Err? ==> Outcome(rules, old(rows), Delete(id)) == Err(result.error)
    {
      if !Is(id, "SRC") {
        return Err(Validation);
      }
      var index := FindID(rows, id);
      if index < 0 {
        return Err(NotFound);
      }
      if rows[index].ownership == Fixed {
        return Err(FixedDeleteForbidden);
      }
      rows := rows[..index] + rows[index + 1..];
      return Ok(());
    }

    method PublishDynamicCatalog(manifest: seq<Source<D>>, now: int) returns (result: Result<seq<Source<D>>>)
      modifies this
      ensures rows == After(rules, old(rows), PublishDynamic(manifest, now))
      ensures match Outcome(rules, old(rows), PublishDynamic(manifest, now))
        case Err(e) => result == Err(e)
        case Ok(_) => result == Ok(Answer(old(rows), PrepareAll(rules, manifest, {}, DynamicCatalog).value, now))
    {
      var prepare := Prepare(rules, manifest, DynamicCatalog);
      if prepare.Err? {
        return Err(prepare.error);
      }
      var prepared := prepare.value;
      var matched, toInsert := DynamicMissing(rows, prepared);
      if !matched {
        return Err(Conflict);
      }
      var error := ValidateProjectedSet(rules, rows + toInsert);
      if error.Some? {
        return Err(error.value);
      }
      var inserted := InsertRows(rows, toInsert, now);
      if inserted.Err? {
        return Err(inserted.error);
      }
      var existing := rows;
      rows := inserted.value;
      return Ok(Answer(existing, prepared, now));
    }

    method ImportSources(items: seq<Source<D>>, now: int) returns (result: Result<seq<Source<D>>>)
      modifies this
      ensures rows == After(rules, old(rows), Import(items, now))
      ensures match Outcome(rules, old(rows), Import(items, now))
        case Err(e) => result == Err(e)
        case Ok(_) => result == Ok(Sorted(rules, ByCode, Answer(old(rows), PrepareAll(rules, items, {}, Exported).value, now)))
    {
      hide PrepareAll, ProjectedError, InsertAll, SameRows, Find;
      var prepare := Prepare(rules, items, Exported);
      if prepare.Err? {
        return Err(prepare.error);
      }
      var prepared := prepare.value;
      var error := ValidateProjectedSet(rules, prepared);
      if error.Some? {
        return Err(error.value);
      }
      if rows == [] {
        var inserted := InsertRows(rows, prepared, now);
        if inserted.Err? {
          return Err(inserted.error);
        }
        rows := inserted.value;
        return Ok(Sorted(rules, ByCode, Answer([], prepared, now)));
      }
      var same := CompareRows(rules, rows, prepared);
      if !same {
        return Err(Conflict);
      }
      return Ok(Sorted(rules, ByCode, Answer(rows, prepared, now)));
    }

    /** The enabled sources, or an error when a persisted row is invalid or the envelope too large. */
    method ActiveSnapshot() returns (result: Result<seq<Source<D>>>)
      ensures result.Ok? <==> SnapshotServed(rules, rows)
      ensures result.Ok? ==> result.value == Sorted(rules, BySnapshot, Enabled(rows))
    {
      hide ValidSource, ItemSize;
      var active: seq<Source<D>> := [];
      var size := 0;
      for i := 0 to |rows|
        invariant active == Enabled(rows[..i])
        invariant size == ItemsSize(rules, rows[..i])
        invariant forall j | 0 <= j < i && rows[j].enabled :: ValidSource(rules, rows[j], true)
      {
        assert rows[..i + 1][..i] == rows[..i];
        if rows[i].enabled {
          if !ValidSource(rules, rows[i], true) {
            return Err(Persistence);
          }
          active := active + [rows[i]];
          size := size + ItemSize(rules, rows[i]) + 1;
        }
      }
      assert rows[..|rows|] == rows;
      if |active| > MAX_SOURCES || ENVELOPE_BASE + Max(size - 1, 0) > MAX_ENVELOPE {
        return Err(CapacityExceeded);
      }
      return Ok(Sorted(rules, BySnapshot, active));
    }
  }

  predicate SnapshotServed<D>(r: Rules<D>, rows: seq<Source<D>>) {
    && (forall i | 0 <= i < |rows| && rows[i].enabled :: ValidSource(r, rows[i], true))
    && |Enabled(rows)| <= MAX_SOURCES && EnvelopeSize(r, rows) <= MAX_ENVELOPE
  }

  /** The store's list of active rows. */
  function Enabled<D>(rows: seq<Source<D>>): seq<Source<D>> {
    if rows == [] then []
    else Enabled(rows[..|rows| - 1]) + (if rows[|rows| - 1].enabled then [rows[|rows| - 1]] else [])
  }

  lemma {:induction false} FixedLoopFails<D>(base: seq<Source<D>>, prepared: seq<Source<D>>, n: nat, now: int)
    requires n <= |prepared| && FixedLoop(base, prepared[..n], now).Err?
    ensures FixedLoop(base, prepared, now) == FixedLoop(base, prepared[..n], now)
    decreases |prepared|
  {
    if n == |prepared| {
      assert prepared[..n] == prepared;
    } else {
      var init := prepared[..|prepared| - 1];
      assert init[..n] == prepared[..n];
      FixedLoopFails(base, init, n, now);
    }
  }

  lemma {:induction false} InsertAllFails<D>(base: seq<Source<D>>, items: seq<Source<D>>, n: nat, now: int)
    requires n <= |items| && InsertAll(base, items[..n], now).Err?
    ensures InsertAll(base, items, now) == InsertAll(base, items[..n], now)
    decreases |items|
  {
    if n == |items| {
      assert items[..n] == items;
    } else {
      var init := items[..|items| - 1];
      assert init[..n] == items[..n];
      InsertAllFails(base, init, n, now);
    }
  }
}
