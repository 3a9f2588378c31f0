/** Publication of a batch of daily quotes: append-only, conserving, all or nothing. */
module DailyQuotes {
  import opened Identity
  import opened DailyQuoteRecord

  datatype Entry = Entry(symbol: string, quote: Quote)

  datatype Batch = Batch(symbols: seq<string>, quotes: seq<Entry>)

  datatype QuoteKey = QuoteKey(stockId: string, date: string)

  datatype Error = Invalid | Internal | Conflict | Persistence

  datatype Result<T> = Ok(value: T) | Err(error: Error)

  datatype Normalization = Normalization(symbol: string, date: string)

  datatype Counts = Counts(
    stocks: nat, stocksWithQuotes: nat, rows: nat, observed: nat, placeholders: nat, added: nat, replayed: nat,
    applied: bool, normalizations: seq<Normalization>)

  /** Taken from outside: the calendar check of dates and the name-based UUID generator. */
  datatype Rules = Rules(validDate: string -> bool, hash: string -> string)

  /** The stored stocks by symbol, and the stored quotes by stock and date. */
  datatype State = State(stocks: map<string, string>, quotes: map<QuoteKey, Quote>)

  // ---- preparing the batch ----

  function StockID(stocks: map<string, string>, symbol: string): string { if symbol in stocks then stocks[symbol] else "" }

  predicate KnownStock(stocks: map<string, string>, symbol: string) { Is(StockID(stocks, symbol), "STK") }

  function QuoteID(r: Rules, stockId: string, date: string): string { "SDQ" + r.hash(Seed("SDQ", "stock-daily-quote", [stockId, date])) }

  predicate HasQuoteID(stockId: string, date: string) { Derivable("SDQ", "stock-daily-quote", [stockId, date]) }

  function Identified(r: Rules, stocks: map<string, string>, e: Entry): Quote {
    var stockId := StockID(stocks, e.symbol);
    e.quote.(stockId := stockId, id := QuoteID(r, stockId, e.quote.date))
  }

  ghost function PrepareOne(r: Rules, stocks: map<string, string>, e: Entry, seen: set<string>): Result<Quote> {
    var q := Identified(r, stocks, e);
    if !ValidQuote(r.validDate, e.quote) || !KnownStock(stocks, e.symbol) then Err(Invalid)
    else if !HasQuoteID(q.stockId, q.date) then Err(Internal)
    else if q.id in seen then Err(Invalid)
    else Ok(q)
  }

  /** The prepared quotes of the first `n` entries, or the first error. */
  ghost function Prepared(r: Rules, stocks: map<string, string>, entries: seq<Entry>, n: nat): Result<seq<Quote>>
    requires n <= |entries|
  {
    if n == 0 then Ok([])
    else match Prepared(r, stocks, entries, n - 1)
      case Err(e) => Err(e)
      case Ok(quotes) =>
        match PrepareOne(r, stocks, entries[n - 1], IDs(quotes))
        case Err(e) => Err(e)
        case Ok(q) => Ok(quotes + [q])
  }

  function IDs(quotes: seq<Quote>): set<string> { set q | q in quotes :: q.id }

  function KeyOf(q: Quote): QuoteKey { QuoteKey(q.stockId, q.date) }

  predicate IsPlaceholder(e: Entry) { e.quote.status == PLACEHOLDER }

  function Placeholders(entries: seq<Entry>): seq<Normalization> {
    if entries == [] then []
    else
      var e := entries[|entries| - 1];
      Placeholders(entries[..|entries| - 1]) + (if IsPlaceholder(e) then [Normalization(e.symbol, e.quote.date)] else [])
  }

  function Observed(entries: seq<Entry>): nat {
    if entries == [] then 0 else Observed(entries[..|entries| - 1]) + (if IsPlaceholder(entries[|entries| - 1]) then 0 else 1)
  }

  function Symbols(entries: seq<Entry>): set<string> { set e | e in entries :: e.symbol }

  // ---- comparing with what is stored ----

  ghost predicate StoredValid(r: Rules, q: Quote) { Is(q.id, "SDQ") && Is(q.stockId, "STK") && ValidQuote(r.validDate, q) }

  predicate Matches(quotes: map<QuoteKey, Quote>, q: Quote) { KeyOf(q) in quotes && quotes[KeyOf(q)] == q }

  predicate Conflicts(quotes: map<QuoteKey, Quote>, q: Quote) { KeyOf(q) in quotes && quotes[KeyOf(q)] != q }

  /** The rows that are not stored yet. */
  function Pending(quotes: map<QuoteKey, Quote>, batch: seq<Quote>): seq<Quote> {
    if batch == [] then []
    else
      var q := batch[|batch| - 1];
      Pending(quotes, batch[..|batch| - 1]) + (if KeyOf(q) in quotes then [] else [q])
  }

  function Unchanged(quotes: map<QuoteKey, Quote>, batch: seq<Quote>): nat {
    if batch == [] then 0 else Unchanged(quotes, batch[..|batch| - 1]) + (if KeyOf(batch[|batch| - 1]) in quotes then 1 else 0)
  }

  function InsertAll(quotes: map<QuoteKey, Quote>, rows: seq<Quote>): map<QuoteKey, Quote> {
    if rows == [] then quotes else InsertAll(quotes, rows[..|rows| - 1])[KeyOf(rows[|rows| - 1]) := rows[|rows| - 1]]
  }

  /** The table refuses an id that another row has. */
  predicate IdTaken(quotes: map<QuoteKey, Quote>, rows: seq<Quote>) {
    exists k, q | k in quotes && q in rows :: quotes[k].id == q.id
  }

  ghost function CountsOf(quotes: map<QuoteKey, Quote>, batch: Batch, prepared: seq<Quote>, apply: bool): Counts {
    Counts(|batch.symbols|, |Symbols(batch.quotes)|, |batch.quotes|, Observed(batch.quotes), |Placeholders(batch.quotes)|,
           |Pending(quotes, prepared)|, Unchanged(quotes, prepared), apply, Placeholders(batch.quotes))
  }

  ghost function Outcome(r: Rules, s: State, batch: Batch, apply: bool): Result<(Counts, State)> {
    if exists symbol | symbol in batch.symbols :: !KnownStock(s.stocks, symbol) then Err(Invalid)
    else match Prepared(r, s.stocks, batch.quotes, |batch.quotes|)
      case Err(e) => Err(e)
      case Ok(prepared) =>
        if exists q | q in prepared :: KeyOf(q) in s.quotes && !StoredValid(r, s.quotes[KeyOf(q)]) then Err(Persistence)
        else if exists q | q in prepared :: Conflicts(s.quotes, q) then Err(Conflict)
        else if apply && IdTaken(s.quotes, Pending(s.quotes, prepared)) then Err(Persistence)
        else
          Ok((CountsOf(s.quotes, batch, prepared, apply),
              if apply then s.(quotes := InsertAll(s.quotes, Pending(s.quotes, prepared))) else s))
  }

  /** A failed transaction is rolled back. */
  ghost function After(r: Rules, s: State, batch: Batch, apply: bool): State {
    match Outcome(r, s, batch, apply)
    case Ok(o) => o.1
    case Err(_) => s
  }

  // ---- the loops ----

  /** One round of the loop over the batch. */
  method PrepareEntry(r: Rules, stocks: map<string, string>, e: Entry, seen: set<string>) returns (result: Result<Quote>)
    ensures result == PrepareOne(r, stocks, e, seen)
  {
    hide ValidQuote, QuoteID, HasQuoteID, KnownStock;
    var valid := ValidateDailyQuote(r.validDate, e.quote);
    if !valid || !KnownStock(stocks, e.symbol) {
      return Err(Invalid);
    }
    var stockId := StockID(stocks, e.symbol);
    if !HasQuoteID(stockId, e.quote.date) {
      return Err(Internal);
    }
    var q := e.quote.(stockId := stockId, id := QuoteID(r, stockId, e.quote.date));
    if q.id in seen {
      return Err(Invalid);
    }
    return Ok(q);
  }

  lemma CountStep(entries: seq<Entry>, i: nat)
    requires i < |entries|
    ensures Observed(entries[..i + 1]) == Observed(entries[..i]) + (if IsPlaceholder(entries[i]) then 0 else 1)
    ensures Placeholders(entries[..i + 1]) ==
            Placeholders(entries[..i]) + (if IsPlaceholder(entries[i]) then [Normalization(entries[i].symbol, entries[i].quote.date)] else [])
    ensures Symbols(entries[..i + 1]) == Symbols(entries[..i]) + {entries[i].symbol}
  {
    hide IsPlaceholder;
    assert entries[..i + 1] == entries[..i] + [entries[i]] && entries[..i + 1][..i] == entries[..i];
  }

  method PrepareQuotes(r: Rules, stocks: map<string, string>, entries: seq<Entry>)
    returns (result: Result<seq<Quote>>, observed: nat, normalizations: seq<Normalization>, withQuotes: set<string>)
    ensures result == Prepared(r, stocks, entries, |entries|)
    ensures result.Ok? ==> observed == Observed(entries) && normalizations == Placeholders(entries) && withQuotes == Symbols(entries)
  {
    hide PrepareOne, Observed, Placeholders, Symbols;
    var quotes: seq<Quote> := [];
    var seen: set<string> := {};
    observed, normalizations, withQuotes := 0, [], {};
    NothingCounted();
    assert entries[..0] == [];
    for i := 0 to |entries|
      invariant Prepared(r, stocks, entries, i) == Ok(quotes) && seen == IDs(quotes)
      invariant observed == Observed(entries[..i]) && normalizations == Placeholders(entries[..i])
      invariant withQuotes == Symbols(entries[..i])
    {
      var e := entries[i];
      CountStep(entries, i);
      var prepared := PrepareEntry(r, stocks, e, seen);
      if prepared.Err? {
        PreparedFails(r, stocks, entries, i + 1, |entries|);
        return Err(prepared.error), observed, normalizations, withQuotes;
      }
      var q := prepared.value;
      seen := seen + {q.id};
      quotes := quotes + [q];
      withQuotes := withQuotes + {e.symbol};
      if e.quote.status == PLACEHOLDER {
        normalizations := normalizations + [Normalization(e.symbol, e.quote.date)];
      } else {
        observed := observed + 1;
      }
    }
    assert entries[..|entries|] == entries;
    result := Ok(quotes);
  }

  lemma NothingCounted()
    ensures Observed([]) == 0 && Placeholders([]) == [] && Symbols([]) == {}
  {
  }

  lemma {:induction false} PreparedFails(r: Rules, stocks: map<string, string>, entries: seq<Entry>, n: nat, m: nat)
    requires n <= m <= |entries| && Prepared(r, stocks, entries, n).Err?
    ensures Prepared(r, stocks, entries, m) == Prepared(r, stocks, entries, n)
    decreases m
  {
    if n < m { PreparedFails(r, stocks, entries, n, m - 1); }
  }

  method CheckStored(r: Rules, quotes: map<QuoteKey, Quote>, prepared: seq<Quote>) returns (ok: bool)
    ensures ok <==> forall q | q in prepared && KeyOf(q) in quotes :: StoredValid(r, quotes[KeyOf(q)])
  {
    hide ValidQuote, Is;
    for i := 0 to |prepared|
      invariant forall q | q in prepared[..i] && KeyOf(q) in quotes :: StoredValid(r, quotes[KeyOf(q)])
    {
      var q := prepared[i];
      assert q in prepared && prepared[..i + 1] == prepared[..i] + [q];
      if KeyOf(q) in quotes {
        var stored := quotes[KeyOf(q)];
        var valid := ValidateDailyQuote(r.validDate, stored);
        if !Is(stored.id, "SDQ") || !Is(stored.stockId, "STK") || !valid {
          return false;
        }
      }
    }
    assert prepared[..|prepared|] == prepared;
    ok := true;
  }

  method Compare(quotes: map<QuoteKey, Quote>, prepared: seq<Quote>) returns (conflict: bool, pending: seq<Quote>, replayed: nat)
    ensures conflict <==> exists q | q in prepared :: Conflicts(quotes, q)
    ensures !conflict ==> pending == Pending(quotes, prepared) && replayed == Unchanged(quotes, prepared)
  {
    pending, replayed := [], 0;
    for i := 0 to |prepared|
      invariant forall q | q in prepared[..i] :: !Conflicts(quotes, q)
      invariant pending == Pending(quotes, prepared[..i]) && replayed == Unchanged(quotes, prepared[..i])
    {
      var q := prepared[i];
      assert q in prepared && prepared[..i + 1] == prepared[..i] + [q];
      if KeyOf(q) in quotes {
        if quotes[KeyOf(q)] != q {
          return true, pending, replayed;
        }
        replayed := replayed + 1;
      } else {
        pending := pending + [q];
      }
    }
    assert prepared[..|prepared|] == prepared;
    conflict := false;
  }

  class Repository {
    const rules: Rules
    var stocks: map<string, string>
    var quotes: map<QuoteKey, Quote>

    ghost function Current(): State
      reads this
    {
      State(stocks, quotes)
    }

    constructor (rules: Rules, stocks: map<string, string>)
      ensures this.rules == rules && Current() == State(stocks, map[])
    {
      this.rules := rules;
      this.stocks := stocks;
      quotes := map[];
    }

    method PublishDailyQuotes(batch: Batch, apply: bool) returns (result: Result<Counts>)
      modifies this
      ensures Current() == After(rules, old(Current()), batch, apply)
      ensures match Outcome(rules, old(Current()), batch, apply)
        case Ok(o) => result == Ok(o.0)
        case Err(e) => result == Err(e)
    {
      hide KnownStock, Prepared, Pending, Conflicts, StoredValid;
      for i := 0 to |batch.symbols|
        invariant forall j | 0 <= j < i :: KnownStock(stocks, batch.symbols[j])
        invariant Current() == old(Current())
      {
        if !KnownStock(stocks, batch.symbols[i]) {
          assert batch.symbols[i] in batch.symbols;
          return Err(Invalid);
        }
      }
      var prepare, observed, normalizations, withQuotes := PrepareQuotes(rules, stocks, batch.quotes);
      if prepare.Err? {
        return Err(prepare.error);
      }
      var prepared := prepare.value;
      var storedOk := CheckStored(rules, quotes, prepared);
      if !storedOk {
        return Err(Persistence);
      }
      var conflict, pending, replayed := Compare(quotes, prepared);
      if conflict {
        return Err(Conflict);
      }
      if apply {
        if IdTaken(quotes, pending) {
          return Err(Persistence);
        }
        quotes := InsertRows(quotes, pending);
      }
      return Ok(Counts(|batch.symbols|, |withQuotes|, |batch.quotes|, observed, |normalizations|, |pending|, replayed, apply, normalizations));
    }
  }

  method InsertRows(quotes: map<QuoteKey, Quote>, rows: seq<Quote>) returns (after: map<QuoteKey, Quote>)
    ensures after == InsertAll(quotes, rows)
  {
    after := quotes;
    for i := 0 to |rows|
      invariant after == InsertAll(quotes, rows[..i])
    {
      assert rows[..i + 1] == rows[..i] + [rows[i]];
      after := after[KeyOf(rows[i]) := rows[i]];
    }
    assert rows[..|rows|] == rows;
  }

  // ---- conservation ----

  lemma {:induction false} KindsPartition(entries: seq<Entry>)
    ensures Observed(entries) + |Placeholders(entries)| == |entries|
  {
    if entries != [] { KindsPartition(entries[..|entries| - 1]); }
  }

  lemma {:induction false} RowsPartition(quotes: map<QuoteKey, Quote>, batch: seq<Quote>)
    ensures |Pending(quotes, batch)| + Unchanged(quotes, batch) == |batch|
  {
    if batch != [] { RowsPartition(quotes, batch[..|batch| - 1]); }
  }

  lemma {:induction false} PreparedRows(r: Rules, stocks: map<string, string>, entries: seq<Entry>, n: nat)
    requires n <= |entries| && Prepared(r, stocks, entries, n).Ok?
    ensures var p := Prepared(r, stocks, entries, n).value;
            && |p| == n
            && (forall i | 0 <= i < n :: p[i] == Identified(r, stocks, entries[i]) && ValidQuote(r.validDate, entries[i].quote)
                                         && Is(p[i].stockId, "STK") && HasQuoteID(p[i].stockId, p[i].date))
            && (forall i, j | 0 <= i < j < n :: p[i].id != p[j].id)
  {
    hide ValidQuote, HasQuoteID, QuoteID, Is;
    if n > 0 {
      PreparedRows(r, stocks, entries, n - 1);
    }
  }

  lemma Succeeded(r: Rules, s: State, batch: Batch, apply: bool)
    requires Outcome(r, s, batch, apply).Ok?
    ensures Prepared(r, s.stocks, batch.quotes, |batch.quotes|).Ok?
    ensures var prepared := Prepared(r, s.stocks, batch.quotes, |batch.quotes|).value;
            && (forall q | q in prepared :: !Conflicts(s.quotes, q))
            && Outcome(r, s, batch, apply).value.0 == CountsOf(s.quotes, batch, prepared, apply)
            && After(r, s, batch, apply) == if apply then s.(quotes := InsertAll(s.quotes, Pending(s.quotes, prepared))) else s
    ensures forall symbol | symbol in batch.symbols :: KnownStock(s.stocks, symbol)
  {
    hide Prepared, Pending, InsertAll, KnownStock, StoredValid, Conflicts, CountsOf, IdTaken;
  }

  lemma Succeeds(r: Rules, s: State, batch: Batch, apply: bool, prepared: seq<Quote>)
    requires forall symbol | symbol in batch.symbols :: KnownStock(s.stocks, symbol)
    requires Prepared(r, s.stocks, batch.quotes, |batch.quotes|) == Ok(prepared)
    requires forall q | q in prepared :: !Conflicts(s.quotes, q) && (KeyOf(q) in s.quotes ==> StoredValid(r, s.quotes[KeyOf(q)]))
    requires !IdTaken(s.quotes, Pending(s.quotes, prepared))
    ensures Outcome(r, s, batch, apply).Ok?
  {
    hide Prepared, Pending, InsertAll, KnownStock, StoredValid, Conflicts, CountsOf, IdTaken;
  }

  /** Every row is observed or a placeholder, and every row is new or replayed. */
  lemma CountsConserve(r: Rules, s: State, batch: Batch, apply: bool)
    requires Outcome(r, s, batch, apply).Ok?
    ensures var c := Outcome(r, s, batch, apply).value.0;
            && c.observed + c.placeholders == c.rows == |batch.quotes| == c.added + c.replayed
            && |c.normalizations| == c.placeholders && c.applied == apply
  {
    hide Outcome, After, Prepared, Pending, Unchanged, Observed, Placeholders, Conflicts;
    Succeeded(r, s, batch, apply);
    KindsPartition(batch.quotes);
    PreparedRows(r, s.stocks, batch.quotes, |batch.quotes|);
    RowsPartition(s.quotes, Prepared(r, s.stocks, batch.quotes, |batch.quotes|).value);
  }

  // ---- append-only ----

  lemma {:induction false} InPending(quotes: map<QuoteKey, Quote>, batch: seq<Quote>)
    ensures forall q :: q in Pending(quotes, batch) <==> q in batch && KeyOf(q) !in quotes
  {
    if batch != [] {
      InPending(quotes, batch[..|batch| - 1]);
      assert batch == batch[..|batch| - 1] + [batch[|batch| - 1]];
    }
  }

  ghost predicate DistinctKeys(rows: seq<Quote>) { forall i, j | 0 <= i < j < |rows| :: KeyOf(rows[i]) != KeyOf(rows[j]) }

  lemma {:induction false} InsertedRows(quotes: map<QuoteKey, Quote>, rows: seq<Quote>)
    requires DistinctKeys(rows) && forall q | q in rows :: KeyOf(q) !in quotes
    ensures var t := InsertAll(quotes, rows);
            && (forall k | k in quotes :: k in t && t[k] == quotes[k])
            && (forall q | q in rows :: KeyOf(q) in t && t[KeyOf(q)] == q)
            && (forall k | k in t :: k in quotes || exists q | q in rows :: KeyOf(q) == k)
            && |t| == |quotes| + |rows|
  {
    if rows != [] {
      var init, last := rows[..|rows| - 1], rows[|rows| - 1];
      LastKeyNew(rows);
      assert rows == init + [last];
      hide KeyOf;
      InsertedRows(quotes, init);
      var u := InsertAll(quotes, init);
      assert KeyOf(last) !in u;
      assert InsertAll(quotes, rows) == u[KeyOf(last) := last];
      hide *;
      assert u[KeyOf(last) := last].Keys == u.Keys + {KeyOf(last)};
    }
  }

  lemma LastKeyNew(rows: seq<Quote>)
    requires rows != [] && DistinctKeys(rows)
    ensures DistinctKeys(rows[..|rows| - 1])
    ensures forall q | q in rows[..|rows| - 1] :: KeyOf(q) != KeyOf(rows[|rows| - 1])
  {
    hide KeyOf;
    forall q | q in rows[..|rows| - 1] ensures KeyOf(q) != KeyOf(rows[|rows| - 1]) {
      var i :| 0 <= i < |rows| - 1 && rows[i] == q;
    }
  }

  lemma {:induction false} PendingDistinct(quotes: map<QuoteKey, Quote>, batch: seq<Quote>)
    requires DistinctKeys(batch)
    ensures DistinctKeys(Pending(quotes, batch))
  {
    if batch != [] {
      var init, last := batch[..|batch| - 1], batch[|batch| - 1];
      assert forall i, j | 0 <= i < j < |init| :: KeyOf(init[i]) == KeyOf(batch[i]) && KeyOf(init[j]) == KeyOf(batch[j]);
      PendingDistinct(quotes, init);
      InPending(quotes, init);
      var p := Pending(quotes, init);
      forall i | 0 <= i < |p| ensures KeyOf(p[i]) != KeyOf(last) {
        assert p[i] in init;
        var k :| 0 <= k < |init| && init[k] == p[i];
        assert KeyOf(batch[k]) != KeyOf(batch[|batch| - 1]);
      }
    }
  }

  /** Distinct ids imply distinct stock and date: the id is derived from them. */
  lemma PreparedDistinct(r: Rules, stocks: map<string, string>, entries: seq<Entry>)
    requires Prepared(r, stocks, entries, |entries|).Ok?
    ensures DistinctKeys(Prepared(r, stocks, entries, |entries|).value)
  {
    PreparedRows(r, stocks, entries, |entries|);
    var p := Prepared(r, stocks, entries, |entries|).value;
    hide Prepared, ValidQuote, HasQuoteID, QuoteID, Is;
    forall i, j | 0 <= i < j < |p| ensures KeyOf(p[i]) != KeyOf(p[j]) {
      assert p[i].id == QuoteID(r, p[i].stockId, p[i].date) && p[j].id == QuoteID(r, p[j].stockId, p[j].date);
    }
  }

  /** On success the table is the old one extended by exactly the pending rows, a dry run changes nothing. */
  lemma AppendsPending(r: Rules, s: State, batch: Batch)
    requires Outcome(r, s, batch, true).Ok?
    ensures var c := Outcome(r, s, batch, true).value.0; var t := After(r, s, batch, true);
            var prepared := Prepared(r, s.stocks, batch.quotes, |batch.quotes|).value;
            && t.stocks == s.stocks
            && (forall k | k in s.quotes :: k in t.quotes && t.quotes[k] == s.quotes[k])
            && (forall k | k in t.quotes && k !in s.quotes :: exists q | q in prepared :: KeyOf(q) == k && t.quotes[k] == q)
            && (forall q | q in prepared :: Matches(t.quotes, q))
            && |t.quotes| == |s.quotes| + c.added
  {
    hide Outcome, After, Prepared, Pending, InsertAll, KnownStock, QuoteID;
    Succeeded(r, s, batch, true);
    var prepared := Prepared(r, s.stocks, batch.quotes, |batch.quotes|).value;
    PreparedDistinct(r, s.stocks, batch.quotes);
    PendingDistinct(s.quotes, prepared);
    InPending(s.quotes, prepared);
    hide DistinctKeys;
    InsertedRows(s.quotes, Pending(s.quotes, prepared));
  }

  /** A dry run reports the counts of the real run and has no effect. */
  lemma DryRun(r: Rules, s: State, batch: Batch)
    ensures After(r, s, batch, false) == s
    ensures Outcome(r, s, batch, true).Ok? ==>
              Outcome(r, s, batch, false).Ok?
              && Outcome(r, s, batch, false).value.0 == Outcome(r, s, batch, true).value.0.(applied := false)
    ensures Outcome(r, s, batch, true).Err? ==> After(r, s, batch, true) == s
  {
    hide Prepared, Pending, InsertAll, KnownStock, StoredValid, Conflicts;
  }

  /** A batch conflicts exactly when one of its rows is stored with another record, and then nothing is stored. */
  lemma ConflictIff(r: Rules, s: State, batch: Batch, apply: bool)
    requires forall symbol | symbol in batch.symbols :: KnownStock(s.stocks, symbol)
    requires Prepared(r, s.stocks, batch.quotes, |batch.quotes|).Ok? && forall k | k in s.quotes :: StoredValid(r, s.quotes[k])
    ensures Outcome(r, s, batch, apply) == Err(Conflict) <==>
            exists q | q in Prepared(r, s.stocks, batch.quotes, |batch.quotes|).value :: Conflicts(s.quotes, q)
    ensures Outcome(r, s, batch, apply).Err? ==> After(r, s, batch, apply) == s
  {
    hide Prepared, Pending, InsertAll, KnownStock, StoredValid, Conflicts, CountsOf;
  }

  // ---- running the same batch again ----

  lemma {:induction false} AllStored(quotes: map<QuoteKey, Quote>, batch: seq<Quote>)
    requires forall q | q in batch :: KeyOf(q) in quotes
    ensures Pending(quotes, batch) == [] && Unchanged(quotes, batch) == |batch|
  {
    if batch != [] { AllStored(quotes, batch[..|batch| - 1]); }
  }

  lemma NewRowsValid(r: Rules, s: State, batch: Batch, q: Quote)
    requires UuidGenerator(r.hash) && Outcome(r, s, batch, true).Ok?
    requires q in Prepared(r, s.stocks, batch.quotes, |batch.quotes|).value
    ensures StoredValid(r, q)
  {
    PreparedRows(r, s.stocks, batch.quotes, |batch.quotes|);
    var p := Prepared(r, s.stocks, batch.quotes, |batch.quotes|).value;
    var i :| 0 <= i < |p| && p[i] == q;
    hide Prepared, HasQuoteID;
    assert q == Identified(r, s.stocks, batch.quotes[i]);
    CanonicalQuoteID(r, q.stockId, q.date);
    assert q.id == QuoteID(r, q.stockId, q.date);
    hide QuoteID, Is;
    assert ValidQuote(r.validDate, batch.quotes[i].quote) ==> ValidQuote(r.validDate, q);
  }

  lemma CanonicalQuoteID(r: Rules, stockId: string, date: string)
    requires UuidGenerator(r.hash)
    ensures Is(QuoteID(r, stockId, date), "SDQ")
  {
    var u := r.hash(Seed("SDQ", "stock-daily-quote", [stockId, date]));
    assert ("SDQ" + u)[3..] == u;
  }

  /** Running an applied batch again stores nothing: every row is replayed. */
  lemma SecondRun(r: Rules, s: State, batch: Batch, apply: bool)
    requires UuidGenerator(r.hash) && Outcome(r, s, batch, true).Ok?
    ensures var t := After(r, s, batch, true);
            && Outcome(r, t, batch, apply).Ok? && After(r, t, batch, apply) == t
            && Outcome(r, t, batch, apply).value.0.added == 0
            && Outcome(r, t, batch, apply).value.0.replayed == |batch.quotes|
  {
    hide Outcome, After, Prepared, Pending, Unchanged, KnownStock, StoredValid, QuoteID;
    Succeeded(r, s, batch, true);
    var t := After(r, s, batch, true);
    var prepared := Prepared(r, s.stocks, batch.quotes, |batch.quotes|).value;
    AppendsPending(r, s, batch);
    PreparedRows(r, s.stocks, batch.quotes, |batch.quotes|);
    forall q | q in prepared ensures KeyOf(q) in t.quotes && StoredValid(r, t.quotes[KeyOf(q)]) && !Conflicts(t.quotes, q) {
      NewRowsValid(r, s, batch, q);
      assert Matches(t.quotes, q);
    }
    AllStored(t.quotes, prepared);
    Succeeds(r, t, batch, apply, prepared);
    Succeeded(r, t, batch, apply);
    assert InsertAll(t.quotes, []) == t.quotes;
  }

  // ---- every run ----

  datatype Step = Step(batch: Batch, apply: bool)

  ghost function Run(r: Rules, s: State, steps: seq<Step>): State {
    if steps == [] then s
    else After(r, Run(r, s, steps[..|steps| - 1]), steps[|steps| - 1].batch, steps[|steps| - 1].apply)
  }

  /** No run ever changes or removes a stored row. */
  lemma {:induction false} RowsStay(r: Rules, s: State, steps: seq<Step>, key: QuoteKey)
    requires key in s.quotes
    ensures var t := Run(r, s, steps); key in t.quotes && t.quotes[key] == s.quotes[key]
  {
    hide Outcome;
    if steps != [] {
      RowsStay(r, s, steps[..|steps| - 1], key);
      var u, step := Run(r, s, steps[..|steps| - 1]), steps[|steps| - 1];
      DryRun(r, u, step.batch);
      if step.apply && Outcome(r, u, step.batch, true).Ok? {
        AppendsPending(r, u, step.batch);
      }
    }
  }
}
