/** What a publication of daily quotes reports and stores, row by row. */
module DailyQuoteRows {
  import opened Json
  import opened Identity
  import opened Decimal
  import opened JsonNumber
  import opened QuoteDecimal
  import opened DailyQuoteRecord
  import opened DailyQuotes

  // ---- which rows are reported as normalized ----

  ghost predicate Ascending(at: seq<nat>) { forall i, j | 0 <= i < j < |at| :: at[i] < at[j] }

  /** `at` lists the rows with the given status in batch order, and the normalizations name them one by one. */
  ghost predicate Lists(entries: seq<Entry>, at: seq<nat>, normalizations: seq<Normalization>) {
    && Ascending(at) && |normalizations| == |at|
    && (forall k | 0 <= k < |at| :: at[k] < |entries| &&
          normalizations[k] == Normalization(entries[at[k]].symbol, entries[at[k]].quote.date))
    && (forall i | 0 <= i < |entries| :: i in at <==> entries[i].quote.status == "placeholder")
  }

  lemma {:induction false} ListedRows(entries: seq<Entry>) returns (at: seq<nat>)
    ensures Lists(entries, at, Placeholders(entries))
    ensures Observed(entries) == |entries| - |at|
  {
    if entries == [] {
      at := [];
    } else {
      var n := |entries| - 1;
      at := ListedRows(entries[..n]);
      ListedOneMore(entries, at, Placeholders(entries[..n]));
      hide Lists;
      if entries[n].quote.status == "placeholder" {
        at := at + [n];
      }
    }
  }

  lemma ListedOneMore(entries: seq<Entry>, at: seq<nat>, listed: seq<Normalization>)
    requires entries != [] && Lists(entries[..|entries| - 1], at, listed)
    ensures var n := |entries| - 1; var e := entries[n];
            if e.quote.status == "placeholder" then Lists(entries, at + [n], listed + [Normalization(e.symbol, e.quote.date)])
            else Lists(entries, at, listed)
  {
    var n := |entries| - 1;
    assert forall i | 0 <= i < n :: entries[..n][i] == entries[i];
    forall i | i in at ensures i < n {
      var k :| 0 <= k < |at| && at[k] == i;
    }
  }

  /** The rows reported as normalized are those with placeholder status, one entry each and in batch order; the others are
    observed. */
  lemma NormalizedRows(r: Rules, s: State, batch: Batch, apply: bool) returns (at: seq<nat>)
    requires Outcome(r, s, batch, apply).Ok?
    ensures var c := Outcome(r, s, batch, apply).value.0;
            && Lists(batch.quotes, at, c.normalizations) && c.placeholders == |at| && c.observed == |batch.quotes| - |at|
            && c.stocks == |batch.symbols| && c.rows == |batch.quotes|
            && c.stocksWithQuotes == |set e | e in batch.quotes :: e.symbol|
  {
    at := ListedRows(batch.quotes);
    Succeeded(r, s, batch, apply);
    assert Symbols(batch.quotes) == set e | e in batch.quotes :: e.symbol;
    hide Outcome, Prepared, Pending, Unchanged, Lists, Observed, Placeholders;
  }

  /** A batch read from the file: each row decoded under its symbol. */
  ghost predicate Reads(quotes: seq<Entry>, symbols: seq<string>, rows: seq<Row>) {
    && |quotes| == |symbols| == |rows|
    && forall i | 0 <= i < |rows| :: RowFits(rows[i]) && quotes[i] == Entry(symbols[i], Decoded(rows[i]))
  }

  ghost predicate IsZero(raw: string) { QuotePattern(raw) && SameRational(ValueOf(raw), Scaled(0, 0)) }

  /** Of a batch read from the file exactly the rows whose open, high, low and volume are zero in value are normalized. */
  lemma NormalizedWhenZero(r: Rules, s: State, batch: Batch, apply: bool, symbols: seq<string>, rows: seq<Row>) returns (at: seq<nat>)
    requires Outcome(r, s, batch, apply).Ok? && Reads(batch.quotes, symbols, rows)
    ensures Lists(batch.quotes, at, Outcome(r, s, batch, apply).value.0.normalizations)
    ensures forall i | 0 <= i < |rows| :: i in at <==>
              IsZero(rows[i].open) && IsZero(rows[i].high) && IsZero(rows[i].low) && IsZero(rows[i].volume)
    ensures forall k | 0 <= k < |at| :: at[k] < |rows| &&
              Outcome(r, s, batch, apply).value.0.normalizations[k] == Normalization(symbols[at[k]], rows[at[k]].date)
  {
    at := NormalizedRows(r, s, batch, apply);
    forall i | 0 <= i < |rows|
      ensures batch.quotes[i].symbol == symbols[i] && batch.quotes[i].quote.date == rows[i].date
      ensures batch.quotes[i].quote.status == "placeholder" <==>
              IsZero(rows[i].open) && IsZero(rows[i].high) && IsZero(rows[i].low) && IsZero(rows[i].volume)
    {
      DecodedFields(rows[i]);
    }
    hide Outcome, IsZero, Decoded, RowFits;
  }

  // ---- what a decoded row holds ----

  /** The text is a number with the value of the raw one. */
  ghost predicate Holds(text: string, raw: string) {
    QuotePattern(text) && QuotePattern(raw) && SameRational(ValueOf(text), ValueOf(raw))
  }

  ghost predicate HoldsOptional(text: Option<string>, raw: string) {
    if raw == "null" then text.None? else text.Some? && Holds(text.value, raw)
  }

  /** Each field of a decoded row has the value of its own raw text; a row that was not traded has no open, high and low. */
  lemma DecodedFields(r: Row)
    requires RowFits(r)
    ensures var q := Decoded(r);
            && q.date == r.date && Holds(q.close, r.close) && Holds(q.volume, r.volume)
            && HoldsOptional(q.turnover, r.turnover) && HoldsOptional(q.changePct, r.change)
            && if IsZero(r.open) && IsZero(r.high) && IsZero(r.low) && IsZero(r.volume) then
                 q.status == "placeholder" && q.open.None? && q.high.None? && q.low.None?
               else
                 && q.status == "observed" && q.open.Some? && q.high.Some? && q.low.Some?
                 && Holds(q.open.value, r.open) && Holds(q.high.value, r.high) && Holds(q.low.value, r.low)
  {
    NumberHolds(r.open, 20, 6);
    NumberHolds(r.high, 20, 6);
    NumberHolds(r.low, 20, 6);
    NumberHolds(r.close, 20, 6);
    NumberHolds(r.volume, 24, 6);
    OptionalHolds(r.turnover, 20, 10);
    OptionalHolds(r.change, 20, 10);
    hide NumberOf, OptionalOf, Holds, HoldsOptional, SameRational, ValueOf, DecimalFits, IsZero;
  }

  lemma NumberHolds(raw: string, precision: nat, scale: nat)
    requires DecimalFits(raw, precision, scale)
    ensures Holds(NumberOf(raw, precision, scale), raw) && QuotePattern(raw)
    ensures IsZero(raw) <==> SameRational(ValueOf(raw), ZERO)
  {
    CanonicalText(raw, precision, scale);
    hide ValueOf, QuotePattern, Fits, ReadLiteral, CanonicalLiteral;
  }

  lemma OptionalHolds(raw: string, precision: nat, scale: nat)
    requires raw == "null" || DecimalFits(raw, precision, scale)
    ensures HoldsOptional(OptionalOf(raw, precision, scale), raw)
  {
    if raw != "null" { NumberHolds(raw, precision, scale); }
    hide NumberOf, Holds, DecimalFits;
  }

  // ---- when a record is valid ----

  /** The text is a plain decimal literal whose value is an integer of at most so many digits over a power of ten: what a
    column `numeric(precision, scale)` holds. */
  ghost predicate Column(text: string, precision: nat, scale: nat) {
    exists l, n :: ColumnAs(text, precision, scale, l, n)
  }

  ghost predicate ColumnAs(text: string, precision: nat, scale: nat, l: Literal, n: int) {
    Plain(l) && Render(l) == text && SameRational(Meaning(l), Scaled(n, 0 - scale)) && 0 - Pow10(precision) < n < Pow10(precision)
  }

  ghost predicate OptionalColumn(text: Option<string>, precision: nat, scale: nat) { text.Some? ==> Column(text.value, precision, scale) }

  lemma ColumnIff(text: string, precision: nat, scale: nat)
    ensures DecimalFits(text, precision, scale) <==> Column(text, precision, scale)
  {
    if DecimalFits(text, precision, scale) {
      LiteralRead(text);
      var n :| FitsAs(ValueOf(text), n, precision, scale);
      assert ColumnAs(text, precision, scale, ReadLiteral(text), n);
    }
    if l, n :| ColumnAs(text, precision, scale, l, n) {
      PatternMatches(l);
      LiteralRead(text);
      RenderPlain(l, ReadLiteral(text));
      assert FitsAs(ValueOf(text), n, precision, scale);
    }
  }

  ghost predicate ColumnsHold(q: Quote) {
    && Column(q.close, 20, 6) && Column(q.volume, 24, 6) && OptionalColumn(q.turnover, 20, 10) && OptionalColumn(q.changePct, 20, 10)
    && OptionalColumn(q.open, 20, 6) && OptionalColumn(q.high, 20, 6) && OptionalColumn(q.low, 20, 6)
  }

  lemma ColumnsIff(q: Quote)
    ensures DecimalsFit(q) <==> ColumnsHold(q)
  {
    hide Column, DecimalFits, OptionalColumn, OptionalFits;
    ColumnIff(q.close, 20, 6);
    ColumnIff(q.volume, 24, 6);
    OptionalColumnIff(q.turnover, 20, 10);
    OptionalColumnIff(q.changePct, 20, 10);
    OptionalColumnIff(q.open, 20, 6);
    OptionalColumnIff(q.high, 20, 6);
    OptionalColumnIff(q.low, 20, 6);
  }

  lemma OptionalColumnIff(text: Option<string>, precision: nat, scale: nat)
    ensures OptionalFits(text, precision, scale) <==> OptionalColumn(text, precision, scale)
  {
    if text.Some? { ColumnIff(text.value, precision, scale); }
    hide Column, DecimalFits;
  }

  lemma NumbersRead(q: Quote)
    requires DecimalsFit(q)
    ensures QuotePattern(q.close) && Number(q.close) == ValueOf(q.close)
    ensures QuotePattern(q.volume) && Number(q.volume) == ValueOf(q.volume)
    ensures q.turnover.Some? ==> QuotePattern(q.turnover.value) && Number(q.turnover.value) == ValueOf(q.turnover.value)
    ensures q.open.Some? ==> QuotePattern(q.open.value) && Number(q.open.value) == ValueOf(q.open.value)
    ensures q.high.Some? ==> QuotePattern(q.high.value) && Number(q.high.value) == ValueOf(q.high.value)
    ensures q.low.Some? ==> QuotePattern(q.low.value) && Number(q.low.value) == ValueOf(q.low.value)
  {
    hide ValueOf, Fits, QuotePattern;
  }

  /** A record is valid exactly when its numbers fit their columns, the close is positive, volume and turnover are not
    negative, and either it is a placeholder without open, high and low and with volume zero, or it has all three, low is
    positive, and open and close lie between low and high. */
  lemma ValidQuoteIff(validDate: string -> bool, q: Quote)
    ensures ValidQuote(validDate, q) <==>
              && validDate(q.date) && ColumnsHold(q)
              && LessRational(Scaled(0, 0), Number(q.close)) && !LessRational(Number(q.volume), Scaled(0, 0))
              && (q.turnover.Some? ==> !LessRational(Number(q.turnover.value), Scaled(0, 0)))
              && ((q.status == "placeholder" && q.open.None? && q.high.None? && q.low.None? && SameRational(Number(q.volume), Scaled(0, 0)))
                  || (q.status == "observed" && q.open.Some? && q.high.Some? && q.low.Some? && InRange(q)))
  {
    ColumnsIff(q);
    if DecimalsFit(q) { NumbersRead(q); }
    hide ColumnsHold, DecimalsFit, ValueOf, Number, QuotePattern, SameRational, LessRational;
  }

  /** The value of a decimal text. */
  ghost function Number(text: string): Scaled { if QuotePattern(text) then ValueOf(text) else Scaled(0, 0) }

  ghost predicate InRange(q: Quote)
    requires q.open.Some? && q.high.Some? && q.low.Some?
  {
    var open, high, low, close := Number(q.open.value), Number(q.high.value), Number(q.low.value), Number(q.close);
    && LessRational(Scaled(0, 0), low) && !LessRational(high, low)
    && !LessRational(open, low) && !LessRational(high, open) && !LessRational(close, low) && !LessRational(high, close)
  }

  // ---- when a batch is accepted ----

  /** The identity and the key of a row, from its stock and date, and the record it asks to store. */
  function RowID(r: Rules, s: State, e: Entry): string {
    "SDQ" + r.hash(Seed("SDQ", "stock-daily-quote", [RowKey(s, e).stockId, e.quote.date]))
  }

  function RowKey(s: State, e: Entry): QuoteKey { QuoteKey(if e.symbol in s.stocks then s.stocks[e.symbol] else "", e.quote.date) }

  function RowRecord(r: Rules, s: State, e: Entry): Quote { e.quote.(id := RowID(r, s, e), stockId := RowKey(s, e).stockId) }

  /** The row is valid, belongs to a stored stock and has a date that an identity can be derived from. */
  ghost predicate RowAdmitted(r: Rules, s: State, e: Entry) {
    && e.symbol in s.stocks && Is(s.stocks[e.symbol], "STK")
    && ValidQuote(r.validDate, e.quote) && TrimSpace(e.quote.date) != ""
  }

  ghost predicate RowsDiffer(r: Rules, s: State, q: seq<Entry>, n: nat)
    requires n <= |q|
  {
    forall i, j | 0 <= i < j < n :: RowID(r, s, q[i]) != RowID(r, s, q[j])
  }

  lemma RowPrepared(r: Rules, s: State, e: Entry, seen: set<string>)
    ensures PrepareOne(r, s.stocks, e, seen).Ok? <==> RowAdmitted(r, s, e) && RowID(r, s, e) !in seen
    ensures PrepareOne(r, s.stocks, e, seen).Ok? ==> PrepareOne(r, s.stocks, e, seen).value == RowRecord(r, s, e)
    ensures RowRecord(r, s, e).id == RowID(r, s, e) && KeyOf(RowRecord(r, s, e)) == RowKey(s, e)
  {
    assert !Is("", "STK");
    if KnownStock(s.stocks, e.symbol) { QuoteIDDerivable(s.stocks[e.symbol], e.quote.date); }
    hide Seed, Is, ValidQuote, HasQuoteID, TrimSpace;
  }

  lemma QuoteIDDerivable(stockId: string, date: string)
    requires Is(stockId, "STK")
    ensures HasQuoteID(stockId, date) <==> TrimSpace(date) != ""
  {
    CanonicalPlain(stockId, "STK");
    TrimPlain("stock-daily-quote");
    assert ValidKind("SDQ");
    hide Is, TrimSpace, ValidKind;
    var parts := [stockId, date];
    assert parts[0] == stockId && parts[1] == date;
  }

  lemma {:induction false} PreparedIff(r: Rules, s: State, q: seq<Entry>, n: nat)
    requires n <= |q|
    ensures Prepared(r, s.stocks, q, n).Ok? <==> (forall i | 0 <= i < n :: RowAdmitted(r, s, q[i])) && RowsDiffer(r, s, q, n)
    ensures Prepared(r, s.stocks, q, n).Ok? ==>
              var p := Prepared(r, s.stocks, q, n).value; |p| == n && forall i | 0 <= i < n :: p[i] == RowRecord(r, s, q[i])
  {
    hide PrepareOne, RowAdmitted, RowID, RowRecord;
    if n > 0 {
      PreparedIff(r, s, q, n - 1);
      if Prepared(r, s.stocks, q, n - 1).Ok? {
        var p := Prepared(r, s.stocks, q, n - 1).value;
        RowPrepared(r, s, q[n - 1], IDs(p));
        forall i | 0 <= i < n - 1 ensures p[i].id == RowID(r, s, q[i]) {
          RowPrepared(r, s, q[i], {});
        }
        SeenBefore(r, s, q, n - 1, p);
      }
    }
  }

  lemma SeenBefore(r: Rules, s: State, q: seq<Entry>, n: nat, p: seq<Quote>)
    requires n < |q| && |p| == n && forall i | 0 <= i < n :: p[i].id == RowID(r, s, q[i])
    ensures RowID(r, s, q[n]) in IDs(p) <==> exists i | 0 <= i < n :: RowID(r, s, q[i]) == RowID(r, s, q[n])
  {
    hide RowID;
    forall i | 0 <= i < n ensures p[i] in p {}
  }

  /** What the stored table must say about a row: a row under its key is valid and holds just what the new one holds. */
  ghost predicate MeetsStored(r: Rules, s: State, e: Entry) {
    RowKey(s, e) in s.quotes ==> StoredValid(r, s.quotes[RowKey(s, e)]) && s.quotes[RowKey(s, e)] == RowRecord(r, s, e)
  }

  /** A dry run of a batch is accepted exactly when every symbol and every row belongs to a stored stock, every row is valid
    with a date, no two rows derive one identity, and every stored row they meet is valid and holds what the new
    one holds. A real run asks besides that no identity it adds is taken. */
  lemma PublishedIff(r: Rules, s: State, batch: Batch, apply: bool)
    ensures var q := batch.quotes;
            Outcome(r, s, batch, apply).Ok? <==>
              && (forall symbol | symbol in batch.symbols :: symbol in s.stocks && Is(s.stocks[symbol], "STK"))
              && (forall i | 0 <= i < |q| :: RowAdmitted(r, s, q[i])) && RowsDiffer(r, s, q, |q|)
              && (forall i | 0 <= i < |q| :: MeetsStored(r, s, q[i]))
              && (apply ==> forall k, i | k in s.quotes && 0 <= i < |q| && RowKey(s, q[i]) !in s.quotes ::
                    s.quotes[k].id != RowID(r, s, q[i]))
  {
    hide *;
    SymbolsKnown(s, batch.symbols);
    PreparedIff(r, s, batch.quotes, |batch.quotes|);
    OutcomeOk(r, s, batch, apply);
    if Prepared(r, s.stocks, batch.quotes, |batch.quotes|).Ok? {
      var p := Prepared(r, s.stocks, batch.quotes, |batch.quotes|).value;
      RowsMeet(r, s, batch.quotes, p);
      RowsTaken(r, s, batch.quotes, p);
    }
  }

  lemma SymbolsKnown(s: State, symbols: seq<string>)
    ensures (forall symbol | symbol in symbols :: KnownStock(s.stocks, symbol)) <==>
            forall symbol | symbol in symbols :: symbol in s.stocks && Is(s.stocks[symbol], "STK")
  {
    assert !Is("", "STK");
    hide Is;
  }

  lemma OutcomeOk(r: Rules, s: State, batch: Batch, apply: bool)
    ensures Outcome(r, s, batch, apply).Ok? <==>
              && (forall symbol | symbol in batch.symbols :: KnownStock(s.stocks, symbol))
              && Prepared(r, s.stocks, batch.quotes, |batch.quotes|).Ok?
              && var p := Prepared(r, s.stocks, batch.quotes, |batch.quotes|).value;
              && ((forall x | x in p && KeyOf(x) in s.quotes :: StoredValid(r, s.quotes[KeyOf(x)])) && (forall x | x in p :: !Conflicts(s.quotes, x)))
              && (apply ==> !IdTaken(s.quotes, Pending(s.quotes, p)))
  {
    hide Prepared, KnownStock, Pending, IdTaken, Conflicts, StoredValid, CountsOf, InsertAll, KeyOf;
  }

  lemma RowsMeet(r: Rules, s: State, q: seq<Entry>, p: seq<Quote>)
    requires |p| == |q| && forall i | 0 <= i < |q| :: p[i] == RowRecord(r, s, q[i])
    ensures (forall x | x in p && KeyOf(x) in s.quotes :: StoredValid(r, s.quotes[KeyOf(x)])) && (forall x | x in p :: !Conflicts(s.quotes, x))
            <==> forall i | 0 <= i < |q| :: MeetsStored(r, s, q[i])
  {
    forall i | 0 <= i < |q| ensures p[i] in p && KeyOf(p[i]) == RowKey(s, q[i]) {
      RowPrepared(r, s, q[i], {});
    }
    hide RowID, RowKey, RowRecord, StoredValid, KeyOf;
  }

  lemma TakenByNew(quotes: map<QuoteKey, Quote>, p: seq<Quote>)
    ensures IdTaken(quotes, Pending(quotes, p)) <==>
            exists k, x | k in quotes && x in p && KeyOf(x) !in quotes :: quotes[k].id == x.id
  {
    InPending(quotes, p);
    hide Pending, KeyOf;
  }

  lemma RowsTaken(r: Rules, s: State, q: seq<Entry>, p: seq<Quote>)
    requires |p| == |q| && forall i | 0 <= i < |q| :: p[i] == RowRecord(r, s, q[i])
    ensures IdTaken(s.quotes, Pending(s.quotes, p)) <==>
            exists k, i | k in s.quotes && 0 <= i < |q| && RowKey(s, q[i]) !in s.quotes :: s.quotes[k].id == RowID(r, s, q[i])
  {
    hide *;
    TakenByNew(s.quotes, p);
    forall i | 0 <= i < |q| ensures p[i] in p && KeyOf(p[i]) == RowKey(s, q[i]) && p[i].id == RowID(r, s, q[i]) {
      RowPrepared(r, s, q[i], {});
    }
  }

  // ---- what is stored ----

  /** After an applied batch every row stands in the table under its stock and date: the submitted record with the stock's
    identity and the identity derived from stock and date. */
  lemma StoredRows(r: Rules, s: State, batch: Batch, i: nat)
    requires Outcome(r, s, batch, true).Ok? && i < |batch.quotes|
    ensures var e, t := batch.quotes[i], After(r, s, batch, true);
            && e.symbol in s.stocks
            && var stock := s.stocks[e.symbol];
            && var key := QuoteKey(stock, e.quote.date);
            && key in t.quotes
            && t.quotes[key] == e.quote.(id := "SDQ" + r.hash(Seed("SDQ", "stock-daily-quote", [stock, e.quote.date])), stockId := stock)
  {
    AppendsPending(r, s, batch);
    Succeeded(r, s, batch, true);
    PreparedRows(r, s.stocks, batch.quotes, |batch.quotes|);
    var prepared := Prepared(r, s.stocks, batch.quotes, |batch.quotes|).value;
    assert prepared[i] in prepared && Is(prepared[i].stockId, "STK");
    hide Outcome, After, Prepared, Pending, Unchanged, ValidQuote, HasQuoteID, Seed;
    assert !Is("", "STK");
  }
}
