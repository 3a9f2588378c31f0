# Verified model of the research platform's decision cores

The platform publishes sources, evidence, events, reports, stock classifications and daily quotes, and answers
research graph queries. What it stores or refuses hangs on a few self-contained pieces: canonical texts whose digest
decides between replay and conflict, a strict request binder, numeric normal forms, the report conversion, evidence
scopes, publication transactions, derived identities, migration control and a login budget. This project models those
pieces in Dafny and proves what they promise, over every input and every run.

`dafny verify dfyconfig.toml` checks everything.

## How the parts fit together

- **Canonical texts.** `Unicode`, `CanonicalText`, `CanonicalForm`, `CanonicalPrinters`, `CanonicalAgreement`,
  `CanonicalReader`, `StringLiteral`. A decoded JSON value has one ordered document, a document has one text, and a text can be read in
  one way only; a reader after the grammar reads the value back. Both printers of the repository, the rune-wise one for reports and the byte-wise one for research
  payloads, are written as loops over a byte buffer and proved to append exactly that text. Doubles are parameters:
  parsing and formatting are assumed faithful (one text for each double, 0 and -0 alike).
- **Binding.** `Binding` drives a token cursor through a shape; `BindingValues` shows that it accepts exactly the
  conforming values, `BindingPlaces` that a refusal names a place that breaks a rule. `Check` is the specification of the cursor's methods. A stream may end in a misplaced bracket or
  in unreadable text, which the decoder notices only when it looks for more.
- **Numbers.** `Decimal`, `JsonNumber`, `SourceConfig`, `QuoteDecimal`, `DailyQuoteRecord`. Literals denote rationals
  `mantissa * 10^exponent`; comparing canonical texts is comparing rationals.
- **Identities.** `Identity`. The UUID of a seed is a parameter. No global injectivity of the hash is assumed:
  theorems that need it ask that the seeds at hand do not collide.
- **Source catalogue.** `SourceCatalog`, `SourceCatalogRuns`, `SourceEffects`, `SourceSnapshot`, `SourceEnvelope`, `SourceOverflow`. Every operation is one
  transaction on the table. The clock reading is a parameter, positive and the same for the rows of one insertion. The store stamps
  rows as its SQL does (`data-service/backend/internal/data/source/transaction.go`, lines 44 to 80).
- **Reports.** `ReportModel`, `ReportClosure`, `UnifiedClosure`, `BaseReport` hold the validators' uniqueness, closure
  and binding checks; `ReportUnify`, `ReportUnifyMeaning`, `ReportUnifyContent`, `ReportUnifyClosure`,
  `ReportUnifySignals`, `ReportUnifyRefusals` the offline conversion to version 6; `EvidenceScopes`, `EvidenceScopeAgreement`,
  `EvidenceScopeIndex`, `EvidenceTree` the two scope traversals.
- **Publication.** `EvidencePublication`, `EvidencePublicationRuns`, `ReportPublication`, `EventPublication`,
  `DailyQuotes`, `DailyQuoteRows`, `Classification`, `ClassificationClosure`, `ClassificationContent`. A use case is a class over its tables; its methods are
  proved against an atomic step function, and the theorems are about every run of such steps.
- **Research graph.** `ResearchGraph`: the normalised query, its fingerprint, and the check of a result's references.
- **Migrations.** `Migration`, `MigrationRun`, `AdvisoryLocker`. Every call to the database may fail; which ones fail
  is an arbitrary function of a call counter. A pinned connection is live, dropped or back in the pool, as Go's
  `database/sql` documents it: a bad connection is dropped, and statements and discards fail on one that is done.
- **Login budget.** `LoginBudget`. Times are integers; the first call comes at least a minute after the zero time.

## What the proofs found

- The login budget admits at most 119 calls in any half-open minute, one fewer than two full windows, because a window
  opens with an admitted call. The bound is attained.
- `Update` measures the snapshot envelope with the old timestamps, and a publication measures an item that brings an
  update time but no creation time with that time, though the store sets both anew. An accepted step can therefore make
  the snapshot unservable: `SourceOverflow` holds both cases on catalogues of ordinary size, `StepFitsIff` says exactly
  when it happens.
- The two canonical printers write the same bytes for a text-only value exactly when no two sibling keys set a
  supplementary character against one from U+E000 to U+FFFF at their first difference.
- Two seeds are equal exactly when kind, namespace and parts have the same pieces between NULs. Names are not checked for
  NUL; `SeparatorOrphans` shows what such a name does to a classification.
- The membership test of graph results is right about a list of entities exactly when no id holds a NUL. The store's
  canonical object ids meet that condition.
- The tree walk and the typed traversal of a version 4 report agree exactly when no unit carries `reasonings`. The
  test for signal fields does not look for them; `AcceptedReportMayDiffer` is an accepted report on which they differ.
- The version 6 checks of uniqueness, closure and binding can refuse a converted unit for three reasons only: a
  generated key is too long (a macro key above 118 or a chain key above 122 characters), a generated key is not fresh,
  or a geopolitical unit cites no Evidence in its summary, which version 6 asks for and version 4 does not.
  `ReportUnifyRefusals` has a closed unit for each.
- The empty-text sentinel of `firstMissingEvidence` is exact only because validated Evidence ids are never empty, and
  the length test of Event publication only because they are distinct.

## Model

| member | source | states |
|---|---|---|
| Unicode.Utf16Less | data-service/backend/internal/biz/report/canonical.go:101-110 | `utf16Less` is true exactly when after some common beginning of the two UTF-16 encodings either the left one is at its end and the right one goes on, or the next left unit is the smaller |
| Unicode.KeyOrdersPrecede | data-service/backend/internal/biz/report/canonical.go:101-110 | Both key orders stated on the encodings alone: the first difference decides, and an encoding that ends first comes first |
| Unicode.PrefixFirst | data-service/backend/internal/biz/report/canonical.go:109 | Under both orders a key comes before every longer key that starts with it, and never after |
| Unicode.Utf16Standard | data-service/backend/internal/biz/report/canonical.go:102-103 | A character outside the Basic Multilingual Plane is one high and one low surrogate carrying its bits, any other is its own unit |
| Unicode.Utf8Standard | data-service/backend/internal/biz/research/biz.go:349-383 | Each character is encoded as section 3 of RFC 3629 asks: lead byte by length, continuation bytes, the carried bits are the character, shortest form |
| Unicode.KeyLess16IsStrictTotalOrder | data-service/backend/internal/biz/report/canonical.go:101-110 | The key order of section 3.2.3 of RFC 8785 is irreflexive, transitive, asymmetric and total |
| Unicode.Utf16Injective | data-service/backend/internal/biz/report/canonical.go:102-103 | Different strings have different UTF-16 encodings, so unequal keys never compare as equal |
| Unicode.Utf8Injective | data-service/backend/internal/biz/research/biz.go:349-383 | Different strings have different UTF-8 encodings (section 3 of RFC 3629), so hashed bytes stand for one text |
| Unicode.KeyLess8IsStrictTotalOrder | data-service/backend/internal/biz/research/biz.go:324-328 | Go's byte order of keys, which the research printer sorts by, is a strict total order |
| Unicode.KeyOrdersAgree | data-service/backend/internal/biz/report/canonical.go:101-110 | Byte order and UTF-16 order agree on two strings exactly when their first difference does not set a supplementary character against one from U+E000 up; both directions |
| Unicode.BmpNeverCrosses | data-service/backend/internal/biz/report/canonical.go:101-110 | On the Basic Multilingual Plane the two orders always agree |
| CanonicalText.BodyRead | data-service/backend/internal/biz/report/canonical.go:112-145 | An escaped string literal followed by anything is readable in one way: equal texts have equal strings and equal remainders |
| CanonicalText.NumberRead | data-service/backend/internal/biz/report/canonical.go:50-63 | A number token followed by a delimiter ends where the number ends |
| CanonicalText.TextRead | data-service/backend/internal/biz/report/canonical.go:36-99 | Unique readability of whole documents: if two texts, each followed by nothing or a delimiter, are equal, then the documents and the remainders are equal |
| CanonicalForm.SortedKeysUnique | data-service/backend/internal/biz/report/canonical.go:75-80 | Whatever order a map is iterated in, its sorted key sequence is the same |
| CanonicalForm.CanonicalDecides | data-service/backend/internal/biz/report/canonical.go:36-99 | Two accepted values have one canonical document exactly when they are the same value |
| CanonicalForm.TextDecidesValue | data-service/backend/internal/biz/report/canonical.go:36-99 | Two accepted values print alike, with any delimited text behind each, exactly when they are the same value and the texts behind are equal |
| CanonicalForm.HashInputDecidesValue | data-service/backend/internal/biz/report/canonical.go:17-34 | The UTF-8 bytes given to the digest are equal exactly for the same value |
| CanonicalPrinters.WriteReportString | data-service/backend/internal/biz/report/canonical.go:112-145 | The rune loop appends the quoted text of section 3.2.2.2 of RFC 8785 in UTF-8 and nothing else |
| CanonicalPrinters.CollectKeys | data-service/backend/internal/biz/report/canonical.go:75-80 | Keys collected in any iteration order and sorted are exactly the object's keys, each encoding preceding all later ones |
| CanonicalPrinters.PrintedObject | data-service/backend/internal/biz/report/canonical.go:68-99 | A printed object is one member for each key between braces, the members in the order in which their UTF-16 (Report) or UTF-8 (research) encodings precede each other |
| CanonicalPrinters.WriteReportJSON | data-service/backend/internal/biz/report/canonical.go:36-99 | The recursive writer succeeds exactly on accepted values and then appends exactly the canonical bytes to what the buffer held |
| CanonicalPrinters.ByteEscapingIsRuneEscaping | data-service/backend/internal/biz/research/biz.go:349-383 | Escaping the UTF-8 bytes one at a time gives the encoding of escaping the characters one at a time, on every string |
| CanonicalPrinters.WriteResearchString | data-service/backend/internal/biz/research/biz.go:349-383 | The byte-wise writer appends the same quoted text as the rune-wise one |
| CanonicalPrinters.WriteResearchJSON | data-service/backend/internal/biz/research/biz.go:304-347 | The research writer succeeds exactly on values without booleans and appends exactly their canonical bytes |
| CanonicalAgreement.ReportHashInputDecides | data-service/backend/internal/biz/report/canonical.go:17-34 | Two reports have equal hash inputs exactly when they are equal up to the spelling of doubles, with 0 and -0 identified |
| CanonicalAgreement.ResearchHashInputDecides | data-service/backend/internal/biz/research/biz.go:285-302 | Two research payloads have equal hash inputs exactly when they are equal |
| CanonicalAgreement.AcceptedIff | data-service/backend/internal/biz/report/canonical.go:36-66 | The Report printer accepts exactly the values whose numbers are all finite doubles, the research printer exactly those without booleans |
| CanonicalAgreement.OnlyTextIff | data-service/backend/internal/biz/research/biz.go:304-347 | The text-only values of the next two rows are exactly those in which no number and no boolean occurs |
| CanonicalAgreement.DocumentsAgree | data-service/backend/internal/biz/research/biz.go:304-347 | The canonical documents of a text-only value under the two printers coincide exactly when no two of its sibling keys cross |
| CanonicalAgreement.PrintersAgree | data-service/backend/internal/biz/research/biz.go:304-383 | Both printers accept every value without numbers and booleans, and write identical bytes for it exactly when no two sibling keys cross |
| StringLiteral.RoundTrip | data-service/backend/internal/biz/report/canonical.go:112-145 | Reading a printed string literal back by section 7 of RFC 8259 gives the string and leaves exactly what follows it |
| CanonicalReader.ReadBack | data-service/backend/internal/biz/report/canonical.go:36-99 | A reader written after the grammar of RFC 8259 reads the text of any document, with a delimiter or nothing behind it, back as that document and leaves what follows |
| CanonicalReader.PrintedValueBack | data-service/backend/internal/biz/report/canonical.go:36-99 | Reading what either printer wrote for an accepted value gives that value back, with every number as the printer spells it and nothing left over |
| CanonicalReader.ResearchValueBack | data-service/backend/internal/biz/research/biz.go:304-347 | Reading what the research printer wrote gives the very value back |
| Binding.Decoder.Token | data-service/backend/api/data/v1/binding.go:81-85 | The cursor hands out the next token and moves past it, or reports the end and stays |
| Binding.Decoder.ValidateValue | data-service/backend/api/data/v1/binding.go:81-181 | On every token stream the recursive checker fails as its specification does, or leaves exactly the tokens the specification leaves |
| Binding.Decoder.ConsumeComposite | data-service/backend/api/data/v1/binding.go:183-210 | Skipping a composite moves the cursor exactly behind it, or fails where the stream breaks off |
| Binding.DecodeStrict | data-service/backend/api/data/v1/binding.go:60-79 | The whole decoding: shape check, then the test that nothing follows |
| Binding.Check | data-service/backend/api/data/v1/binding.go:81-181 | Termination on the remaining tokens: a successful check always consumes at least one, whatever the shape, cyclic ones included |
| BindingValues.ConformsIff | data-service/backend/api/data/v1/binding.go:81-181 | A value conforms (no duplicate or unknown keys, required keys present, leaf kinds right, null only where allowed) exactly when the checker finds no problem in it |
| BindingValues.IntegerConforms | data-service/backend/api/data/v1/binding.go:158-166 | An integer field admits a number exactly when it is written without fraction and exponent and lies in [-2^63, 2^63), and of other values null alone when nullable |
| BindingValues.ExactValue | data-service/backend/api/data/v1/binding.go:81-181 | On the tokens of a value followed by anything, the checker consumes exactly the value or reports its first problem |
| BindingValues.Extension | data-service/backend/api/data/v1/binding.go:81-181 | A success does not depend on what follows: extending the stream extends the rest by the same tokens |
| BindingValues.TruncatedRefused | data-service/backend/api/data/v1/binding.go:81-181 | Every proper prefix of a value's tokens is refused |
| BindingValues.AcceptedIffConforming | data-service/backend/api/data/v1/binding.go:60-79 | A body is accepted if and only if it is exactly one value, that value conforms to the shape, and no unreadable text follows |
| BindingPlaces.ProblemLocated | data-service/backend/api/data/v1/binding.go:81-181 | A reported failure names its place: following the path from the body leads to a value, or to a member, that breaks the very rule the reason names |
| BindingPlaces.ConformsUnlessViolated | data-service/backend/api/data/v1/binding.go:81-181 | A value conforms exactly when no place of it breaks a rule of its shape |
| BindingPlaces.RefusalLocated | data-service/backend/api/data/v1/binding.go:60-79 | A whole body that does not conform is refused with the path of a place that breaks a rule, keys joined by dots and positions in brackets |
| BindingValues.CyclicShape | data-service/backend/api/data/v1/binding.go:12-42 | A shape that refers to itself admits values of every depth |
| JsonNumber.NormalizeJSONNumber | data-service/backend/internal/biz/source/biz.go:826-854 | On every number of section 6 of RFC 8259 the result is the canonical text of the rational the literal denotes |
| JsonNumber.NumbersDecide | data-service/backend/internal/biz/source/biz.go:826-854 | Two number literals normalise to the same text exactly when they denote the same rational; signed zeros coincide |
| JsonNumber.RenderInjective | data-service/backend/internal/biz/source/biz.go:826-834 | The number grammar is uniquely readable: a literal text has one meaning |
| JsonNumber.Int64Read | data-service/backend/api/data/v1/binding.go:158-166 | Of the numbers of section 6 of RFC 8259, `strconv.ParseInt` reads exactly those without fraction and exponent that denote a value in [-2^63, 2^63), and it reads that value |
| Decimal.NormalDecides | data-service/backend/internal/biz/source/biz.go:842-853 | n*10^e and m*10^f are the same rational exactly when their forms without trailing zeros are equal |
| Decimal.ValueNatText | data-service/backend/internal/biz/source/biz.go:842-853 | A digit string without leading zero is the decimal text of its value |
| SourceConfig.NormalizeJSONValue | data-service/backend/internal/biz/source/biz.go:802-824 | Rewriting a decoded value in place yields the tree with every number replaced by its canonical text, and never fails on decoded values |
| SourceConfig.SameConfig | data-service/backend/internal/biz/source/biz.go:773-780 | Two configurations are the same exactly when both decode and are structurally equal up to numeric value |
| SourceConfig.NormalTreeDecides | data-service/backend/internal/biz/source/biz.go:773-824 | The rewritten trees are equal exactly when the values are equal up to the spelling of numbers |
| SourceConfig.SameConfigIsEquivalence | data-service/backend/internal/biz/source/biz.go:773-780 | Configuration equality is reflexive, symmetric and transitive |
| QuoteDecimal.CanonicalQuoteDecimal | data-service/backend/internal/biz/stock/biz.go:540-562 | Accepts a plain decimal exactly when v*10^scale is an integer below 10^precision in magnitude, answers its canonical text, and refuses everything off the pattern |
| QuoteDecimal.LiteralRead | data-service/backend/internal/biz/stock/biz.go:540-543 | Every text that matches the pattern is the text of a plain decimal literal |
| QuoteDecimal.ValuePreserved | data-service/backend/internal/biz/stock/biz.go:547-561 | The canonical literal denotes the same rational |
| QuoteDecimal.Idempotent | data-service/backend/internal/biz/stock/biz.go:547-561 | Canonical text is its own canonical text |
| QuoteDecimal.TextDecidesValue | data-service/backend/internal/biz/stock/biz.go:547-561 | Two accepted texts canonicalise to one text exactly when their values are equal |
| QuoteDecimal.ZeroText | data-service/backend/internal/biz/stock/biz.go:690-696 | The textual comparison with "0" is a test of the value |
| QuoteDecimal.FitsByDigits | data-service/backend/internal/biz/stock/biz.go:552-556 | The two length tests accept exactly the values the column can hold |
| QuoteDecimal.FitsExactly | data-service/backend/internal/biz/stock/biz.go:552-556 | Over 10^-scale a rational has at most one numerator, so the bound on that numerator alone decides whether it fits |
| DailyQuoteRecord.CompareZero | data-service/backend/internal/biz/stock/biz.go:574-577 | Comparing texts through `compareQuoteDecimal` is comparing their values with zero, all three signs |
| DailyQuoteRecord.ValidateDailyQuote | data-service/backend/internal/biz/stock/biz.go:579-619 | A record is valid exactly when its decimals fit and the relations of open, high, low, close and volume hold of the values |
| DailyQuoteRecord.DecodeRow | data-service/backend/internal/biz/stock/biz.go:679-699 | A row is decoded exactly when its numbers fit and the record is valid; it is a placeholder exactly when open, high, low and volume are zero in value |
| DailyQuoteRecord.ZeroByText | data-service/backend/internal/biz/stock/biz.go:690-696 | A decoded number reads "0" exactly when its value is zero |
| DailyQuoteRecord.DecodedCanonical | data-service/backend/internal/biz/stock/biz.go:679-696 | Every decoded row is a record of canonical texts |
| DailyQuoteRecord.RecordTextDecides | data-service/backend/internal/biz/stock/transaction.go:136-146 | Comparing canonical records field by field as text compares them by value |
| DailyQuotes.PrepareQuotes | data-service/backend/internal/biz/stock/transaction.go:90-120 | The loop over the batch yields the identified rows, the placeholder list and the counts, or the first failure |
| DailyQuoteRows.NormalizedRows | data-service/backend/internal/biz/stock/transaction.go:113-122 | On success the normalizations name, in batch order and once each, exactly the rows with placeholder status; observed counts the other rows, and stocks with quotes the different symbols |
| DailyQuoteRows.NormalizedWhenZero | data-service/backend/internal/biz/stock/biz.go:690-696 | Of a batch read from the file exactly the rows whose open, high, low and volume are zero in value are normalized |
| DailyQuoteRows.DecodedFields | data-service/backend/internal/biz/stock/biz.go:680-699 | Each field of a decoded row has the value of its own raw text; a row that was not traded has no open, high and low |
| DailyQuoteRows.StoredRows | data-service/backend/internal/biz/stock/transaction.go:93-160 | After an applied batch every row stands under its stock and date as submitted, with the stock's identity and the identity derived from stock and date |
| DailyQuoteRows.PublishedIff | data-service/backend/internal/biz/stock/transaction.go:78-160 | A batch is accepted exactly when all symbols and rows belong to stored stocks, all rows are valid, no two derive one identity, every stored row met is valid and equal, and, when applied, no new identity is taken |
| DailyQuoteRows.ValidQuoteIff | data-service/backend/internal/biz/stock/biz.go:579-622 | A record is valid exactly when each number is a plain decimal its column holds and the values stand in the required relations, for placeholders and observed rows alike |
| DailyQuotes.Compare | data-service/backend/internal/biz/stock/transaction.go:136-147 | A conflict is found exactly when a row is stored with another record; otherwise pending and unchanged rows are told apart |
| DailyQuotes.Repository.PublishDailyQuotes | data-service/backend/internal/biz/stock/transaction.go:78-160 | One publication: new table, counts and failures are those of the atomic step, a failure or dry run leaves the table alone |
| DailyQuotes.CountsConserve | data-service/backend/internal/biz/stock/transaction.go:112-147 | Observed + placeholders = rows = new + unchanged, and every placeholder is listed as a normalization |
| DailyQuotes.AppendsPending | data-service/backend/internal/biz/stock/transaction.go:136-152 | On success the table is the old one extended by exactly the rows that were not stored, each under its own key, and by as many as reported |
| DailyQuotes.DryRun | data-service/backend/internal/biz/stock/transaction.go:148-158 | A dry run changes nothing and reports the counts the real run reports; a failing run changes nothing |
| DailyQuotes.ConflictIff | data-service/backend/internal/biz/stock/transaction.go:137-146 | A prepared batch conflicts exactly when one of its rows is stored with a different record, and then nothing is stored |
| DailyQuotes.SecondRun | data-service/backend/internal/biz/stock/transaction.go:78-160 | Running an applied batch again succeeds, stores nothing, and counts every row as unchanged |
| DailyQuotes.RowsStay | data-service/backend/internal/biz/stock/transaction.go:78-160 | No run of publications changes or removes a stored row |
| Identity.Derive | data-service/backend/internal/core/id/id.go:87-107 | Derivation succeeds exactly on a registered kind, nonblank namespace and nonblank parts, and then is the prefix followed by the UUID of the joined seed |
| Identity.SplitInvertsJoin | data-service/backend/internal/core/id/id.go:104 | Splitting at NUL undoes the seed join exactly on lists of NUL-free parts |
| Identity.SeedInjective | data-service/backend/internal/core/id/id.go:93-104 | On NUL-free parts the seed is injective in kind, trimmed namespace and trimmed part list, for lists of every length |
| Identity.SeedsEqualIff | data-service/backend/internal/core/id/id.go:87-104 | For all arguments that derivation accepts, two seeds are equal if and only if kind, namespace and parts have the same pieces between NULs |
| Identity.NulPartsCollide | data-service/backend/internal/core/id/id.go:104 | Without that condition it is not: two different part lists with one seed |
| Identity.KindsDisjoint | data-service/backend/internal/core/id/id.go:121-163 | No string is a canonical identity of two kinds |
| Identity.CanonicalPlain | data-service/backend/internal/core/id/id.go:121-142 | A canonical identity is nonblank, stands without space around it and holds no NUL |
| Identity.TrimMeaning | data-service/backend/internal/core/id/id.go:88-101 | Trimming takes away space at both ends and nothing else |
| Identity.BlankMeans | data-service/backend/internal/core/id/id.go:88-101 | Trimming leaves nothing exactly of a text that holds only space |
| Identity.DerivedIdentities | data-service/backend/internal/core/id/id.go:87-142 | A derived identity is canonical for its kind, and two derivations whose seeds do not collide in the hash are equal exactly for the same arguments |
| SourceCatalog.ValidateProjectedSet | data-service/backend/internal/biz/source/biz.go:551-575 | The projected set is refused for the first invalid, repeated or second web-search entry, above capacity, or above the envelope limit, and for nothing else |
| SourceCatalog.Prepare | data-service/backend/internal/biz/source/biz.go:503-518 | The preparation loop answers the prepared manifest or its first failure |
| SourceCatalog.PreparedItems | data-service/backend/internal/biz/source/biz.go:503-518 | A prepared manifest is valid, keeps the request's order and names no code twice |
| SourceCatalog.FixedInserts | data-service/backend/internal/biz/source/biz.go:260-281 | The publication loop matches or inserts item by item; projected set, answer and first failure are as specified |
| SourceCatalog.DynamicMissing | data-service/backend/internal/biz/source/biz.go:313-331 | Matches every known code and collects the unknown items, in order, or reports a mismatch |
| SourceCatalog.CompareRows | data-service/backend/internal/biz/source/biz.go:479-494 | An import into a filled catalogue compares row by row |
| SourceEffects.ImportReplays | data-service/backend/internal/biz/source/biz.go:446-501 | An import into a filled catalogue succeeds exactly when items and rows are equally many and each item has a stored row with its id, code, ownership, channel, adapter and switch, details alike and both times in the same microsecond; otherwise it is a conflict; nothing changes |
| SourceEffects.ConfigsDecide | data-service/backend/internal/biz/source/biz.go:763-784 | The catalogue imported again with other configurations is a replay exactly when each configuration has the numeric value of the stored one, however its numbers are spelled |
| SourceEffects.FixedMeets | data-service/backend/internal/biz/source/biz.go:260-281 | A published fixed manifest agrees with every row stored under one of its codes in identity, ownership and channel; with all codes stored it succeeds, without effect, exactly when they agree within the limits |
| SourceEffects.DynamicMeets | data-service/backend/internal/biz/source/biz.go:313-331 | The same for the dynamic catalogue: identity, dynamic ownership, RSS and the generic adapter |
| SourceCatalog.UseCase.CreateDynamic | data-service/backend/internal/biz/source/biz.go:201-238 | Appends exactly the stamped new entry or changes nothing |
| SourceCatalog.UseCase.PublishFixedManifest | data-service/backend/internal/biz/source/biz.go:240-288 | The table after a fixed publication and its answer, one row for each manifest item, or an error and no change |
| SourceCatalog.UseCase.PublishDynamicCatalog | data-service/backend/internal/biz/source/biz.go:290-358 | The table after a dynamic publication and its answer, or an error and no change |
| SourceCatalog.UseCase.UpdateSource | data-service/backend/internal/biz/source/biz.go:383-421 | Replaces exactly the row of that id by the answered one, or changes nothing |
| SourceCatalog.UseCase.DeleteSource | data-service/backend/internal/biz/source/biz.go:423-444 | Removes exactly the dynamic row of that id, or changes nothing |
| SourceCatalog.UseCase.ImportSources | data-service/backend/internal/biz/source/biz.go:446-501 | Fills an empty catalogue as a whole, replays an equal one, refuses any other without effect; the answer is the imported rows in the order of their codes |
| SourceCatalog.UseCase.ActiveSnapshot | data-service/backend/internal/biz/source/biz.go:520-539 | Serves exactly the enabled rows in snapshot order, and does so exactly when every persisted row is valid and they fit capacity and envelope |
| SourceEffects.CreatedIff | data-service/backend/internal/biz/source/biz.go:201-238 | A dynamic source is created exactly when code and details are valid, code and identity are free and the limits hold; the new row is an RSS source with the generic adapter stamped with the time of the call |
| SourceEffects.UpdatedIff | data-service/backend/internal/biz/source/biz.go:383-421 | An update succeeds exactly when adapter and details suit the row, no second web search is enabled, the limits hold and the clock is not behind the creation; it changes adapter, switch, details and update time of that row only |
| SourceEffects.DeletedIff | data-service/backend/internal/biz/source/biz.go:423-444 | A deletion succeeds exactly for the identity of a stored dynamic row and leaves the other rows; a fixed row is refused as such |
| SourceEffects.PublicationAdds | data-service/backend/internal/biz/source/biz.go:240-358 | A successful publication leaves every row and adds, in manifest order, one row for each item whose code was not stored, with its fields, derived identity and times |
| SourceEffects.AnswerStored | data-service/backend/internal/biz/source/biz.go:240-358 | The answer is, item by item, the row that now stands under the item's code |
| SourceEffects.ImportFills | data-service/backend/internal/biz/source/biz.go:462-473 | An import into an empty catalogue stores one row for each item, in order and with the times of the request |
| SourceEffects.AnswersInOrder | data-service/backend/internal/biz/source/biz.go:698-711 | A snapshot lists rows by channel name, then priority, then code; an import lists them by code |
| SourceCatalog.SortedInOrder | data-service/backend/internal/biz/source/biz.go:698-711 | The sorted answer holds the same rows, and none stands before one that precedes it by channel, priority, code and id |
| SourceCatalog.OneOrder | data-service/backend/internal/biz/source/biz.go:698-711 | Over rows with distinct codes the order leaves no choice: every ordered listing of the same rows is the same list |
| SourceCatalogRuns.StepKeepsInv | data-service/backend/internal/biz/source/biz.go:201-501 | Every operation keeps the catalogue invariant |
| SourceCatalogRuns.ReachableInv | data-service/backend/internal/biz/source/biz.go:201-501 | Over any interleaving of the six operations: at most 200 entries, all valid, unique codes and ids, at most one enabled web search |
| SourceCatalogRuns.PublishAppends | data-service/backend/internal/biz/source/biz.go:240-358 | A publication that succeeds appends exactly the stamped items whose code was missing |
| SourceCatalogRuns.StepKeepsIdentities | data-service/backend/internal/biz/source/biz.go:201-501 | No operation changes an entry's id, code, ownership or channel, and none removes a fixed entry |
| SourceCatalogRuns.FixedSourcesStay | data-service/backend/internal/biz/source/biz.go:201-501 | Over every run a fixed entry stays, with its id, code, ownership and channel |
| SourceSnapshot.WorstStampIsWidest | data-service/backend/internal/biz/source/biz.go:673-696 | No timestamp is written wider than the one the write-time measure puts in for a missing one |
| SourceEnvelope.StampWritten | data-service/backend/internal/biz/source/biz.go:673-696 | A quoted timestamp has 22 characters, and with a fraction a point and the digits up to the last that is not zero |
| SourceEnvelope.MeasureIsLength | data-service/backend/internal/biz/source/biz.go:673-696 | The measured size is the byte length of the envelope's JSON text with the longest request identity and its final newline, when each source is written as wide as measured |
| SourceSnapshot.ServedIffFits | data-service/backend/internal/biz/source/biz.go:520-539 | In a valid catalogue the snapshot is served exactly when the envelope fits |
| SourceSnapshot.StepFitsIff | data-service/backend/internal/biz/source/biz.go:551-575 | After any accepted step the envelope fits exactly when the measure had left room for the timestamps of the store: an update is stored with a new one, and a published item with an update time but no creation time with two |
| SourceSnapshot.SnapshotAlwaysServed | data-service/backend/internal/biz/source/biz.go:520-539 | A run whose accepted updates and publications have that room always serves its snapshot; creations, deletions and imports need none |
| SourceSnapshot.PlainHasRoom | data-service/backend/internal/biz/source/biz.go:111-190 | A publication whose items carry no times, like the two manifests of the repository, always has the room |
| SourceOverflow.AcceptedUpdateMayOverflow | data-service/backend/internal/biz/source/biz.go:405-411 | A hundred sources of five kilobytes, created one after the other, serve their snapshot; an update of one of them is accepted and stamped one digit longer, and the snapshot is refused |
| SourceOverflow.AcceptedPublicationMayOverflow | data-service/backend/internal/biz/source/biz.go:318-343 | Ninety-nine such sources serve their snapshot; a publication of one item with an update time but no creation time is accepted, and the snapshot is refused |
| SourceSnapshot.RepeatedPublish | data-service/backend/internal/biz/source/biz.go:240-358 | Publishing the same manifest again, at any later time, changes nothing; it answers the same rows exactly when the first publication had room for its timestamps, and is refused for capacity otherwise |
| ReportClosure.ValidateChain | data-service/backend/internal/biz/report/biz.go:3107-3176 | A chain is accepted exactly when its graph keys, sources and edges are distinct and closed, and its affected nodes have distinct keys and targets and bind to graph nodes of the same source and name |
| ReportClosure.ValidateNormalizedUnit | data-service/backend/internal/biz/report/biz.go:2716-2784 | A unit is accepted exactly when macro and chain keys are valid and distinct, its chains close, references are distinct and each closes in the unit for its kind |
| ReportClosure.RefTextUnique | data-service/backend/internal/biz/report/biz.go:2758-2766 | Among closed references the joined text of type, key and chain distinguishes exactly what the three parts distinguish |
| ReportClosure.EdgeTextUnique | data-service/backend/internal/biz/report/biz.go:3143-3152 | With valid keys the joined text of an edge determines the edge |
| ReportClosure.ValidateSignalJudgments | data-service/backend/internal/biz/report/biz.go:3264-3339 | A judgment scope is accepted exactly when its keys are valid and distinct, own and upstream provenance are well formed, and every upstream reference names another judgment of the scope with that object id |
| UnifiedClosure.ValidateBlock | data-service/backend/internal/biz/report/biz.go:3887-3941 | A reasoning block is accepted exactly when node keys are valid and distinct, every node has a metric, and links are distinct, causal and closed |
| UnifiedClosure.ValidateReasonings | data-service/backend/internal/biz/report/biz.go:3749-3835 | Reasonings are accepted exactly when keys are distinct and each closes; the collected texts are those of their assets |
| UnifiedClosure.ValidateUnifiedUnit | data-service/backend/internal/biz/report/biz.go:3710-3860 | A version 6 unit is accepted exactly when it holds only reasonings that close, its judgments close, and its references are distinct and each names one asset of one reasoning |
| BaseReport.ValidateBaseReport | data-service/backend/internal/biz/report/biz.go:2629-2669 | A version 4 report is accepted exactly when some unit exists, sources and keys are distinct within each group, every unit closes, and observation keys are distinct |
| ReportUnify.ConvertChains | data-service/backend/scripts/report-unify.py:36-57 | The loop over chains stops at a generated key a node already has, exactly when one exists; else it appends one reasoning a chain and knows exactly the right old references |
| ReportUnify.RewriteRefs | data-service/backend/scripts/report-unify.py:61-68 | References are rewritten one by one; the first unknown one, if any, is the one reported |
| ReportUnify.ConvertUnit | data-service/backend/scripts/report-unify.py:19-68 | One unit: the converted unit or the failure, and for every reference what it was rewritten to |
| ReportUnify.ConvertReport | data-service/backend/scripts/report-unify.py:11-69 | Only an explicit version 4 or 5 report is converted, only as a whole, exactly when every unit of every kind converts |
| ReportUnifyContent.JudgmentsKept | data-service/backend/scripts/report-unify.py:22-68 | A converted unit has one reasoning for each macro impact and then for each chain, in order: key, title, assessment, logic, support, objections, graph, provenance and assets are those of the old judgment; the rest of the unit is as before |
| ReportUnifyContent.CitationsKept | data-service/backend/scripts/report-unify.py:19-68 | The tree of a converted unit cites exactly the Evidence the tree of the old unit cited |
| ReportUnifyContent.ListCitationsKept | data-service/backend/scripts/report-unify.py:18-68 | Each list of a version 4 or 5 report cites the same Evidence before and after |
| ReportUnifyMeaning.ConvertedIff | data-service/backend/scripts/report-unify.py:45-66 | A closed unit never has a dangling reference, and converts exactly when it has content and no generated asset key meets a node key |
| ReportUnifyMeaning.ClosedRefDenotes | data-service/backend/internal/biz/report/biz.go:2768-2781 | Every reference of a closed unit denotes an object of that unit |
| ReportUnifyMeaning.MeaningKept | data-service/backend/scripts/report-unify.py:34-56 | What a reference denoted before, name, source id and assessment, its rewritten form denotes after |
| ReportUnifyMeaning.MeaningExact | data-service/backend/scripts/report-unify.py:34-56 | When no chain carries a generated reasoning key, the rewritten reference denotes exactly what the original denoted |
| ReportUnifyMeaning.RefsStayDistinct | data-service/backend/scripts/report-unify.py:61-68 | Distinct references stay distinct |
| ReportUnifyMeaning.NoCoincidence | data-service/backend/scripts/report-unify.py:34-56 | A macro's and a whole chain's rewritten reference never coincide: the key lengths differ |
| ReportUnifyClosure.GeneratedKeyFits | data-service/backend/scripts/report-unify.py:23 | A generated key fits the local key pattern exactly while it has at most 128 characters |
| ReportUnifyClosure.ReasoningKeysIff | data-service/backend/scripts/report-unify.py:21-57 | The new reasoning keys are valid and distinct exactly when the generated ones fit and no chain carries one of them |
| ReportUnifyClosure.ChainReasoningIff | data-service/backend/scripts/report-unify.py:36-57 | A chain's reasoning closes exactly when the generated asset key, if one is needed, fits and no node has it |
| ReportUnifyClosure.UnifiedClosesIff | data-service/backend/scripts/report-unify.py:17-68 | A closed version 4 unit that converts passes the version 6 uniqueness, closure and binding checks exactly when generated keys fit, no chain carries a generated reasoning key, and a geopolitical unit cites Evidence |
| ReportUnifyRefusals.LongKeyRefused | data-service/backend/scripts/report-unify.py:23 | A closed version 4 story with a macro key of 119 characters converts and is refused |
| ReportUnifyRefusals.ClashRefused | data-service/backend/scripts/report-unify.py:21-57 | A closed version 4 story whose chain carries the key generated for its macro impact converts and is refused |
| ReportUnifyRefusals.UncitedRefused | data-service/backend/internal/biz/report/biz.go:3740-3742 | A closed version 4 story without Evidence in its summary converts with fresh, fitting keys and is refused |
| ReportUnifySignals.ConvertedJudgments | data-service/backend/scripts/report-unify.py:21-57 | The judgments of the converted unit are those of the version 5 unit together with one copy for each macro and each chain that is referenced as a whole |
| ReportUnifySignals.OrderIrrelevant | data-service/backend/internal/biz/report/biz.go:3264-3339 | Whether a judgment scope closes does not depend on the order of its judgments |
| ReportUnifySignals.CopiesCloseIff | data-service/backend/internal/biz/report/biz.go:3264-3339 | Adding copies of judgments under other keys keeps the scope closed exactly when those keys are fresh |
| ReportUnifySignals.SignalsCloseIff | data-service/backend/scripts/report-unify.py:21-57 | Upstream references of a version 5 unit still close after conversion exactly when the generated keys are fresh |
| ReportUnifySignals.SignalUnitIff | data-service/backend/scripts/report-unify.py:17-68 | A closed version 5 unit with content converts to a closed version 6 unit exactly when the generated keys are fresh and a geopolitical unit cites Evidence |
| ReportUnifyRefusals.SignalClashRefused | data-service/backend/scripts/report-unify.py:21-57 | A closed version 5 story that itself carries the key generated for its macro impact converts and is refused |
| EvidenceScopes.NormalizedEvidenceScopes | data-service/backend/internal/biz/report/biz.go:2792-2841 | The typed traversal lists the scopes of a version 4 report under their joined path texts, in order |
| EvidenceScopes.TreeEvidenceScopes | data-service/backend/internal/biz/report/biz.go:3505-3544 | The generic tree walk over the written report lists its scopes under their joined path texts, keys in byte order |
| EvidenceScopeAgreement.WalkFinds | data-service/backend/internal/biz/report/biz.go:3511-3541 | Below any path the walk finds exactly the places where an object holds `evidence_ids` |
| EvidenceScopeAgreement.TypedScopesHold | data-service/backend/internal/biz/report/biz.go:2792-2841 | The typed traversal lists exactly the scopes of the reference relation on reports |
| EvidenceScopeAgreement.ReportJsonFound | data-service/backend/internal/biz/report/biz.go:3505-3544 | Without reasonings the written tree holds exactly the scopes of that relation |
| EvidenceScopeIndex.TraversalsAgreeIff | data-service/backend/internal/biz/report/biz.go:3505-3544 | The two traversals yield the same scopes exactly when no unit carries reasonings |
| BaseReport.AcceptedReportMayDiffer | data-service/backend/internal/biz/report/biz.go:3225-3248 | A version 4 report with a reasoning that the validator accepts and on which the two traversals yield different scopes |
| EvidenceScopeIndex.OneScope | data-service/backend/internal/biz/report/biz.go:2792-2841 | With keys valid and unique at every level, a path has one identifier list |
| EvidenceScopeIndex.TextInjective | data-service/backend/internal/biz/report/biz.go:2792-2841 | A path of slash-free segments can be read back from its text |
| EvidenceScopeIndex.PathTextIsKey | data-service/backend/internal/biz/report/biz.go:2842-2854 | In a keyed report two scopes have one path text exactly when they are the same scope |
| EvidenceScopeIndex.BuildLinks | data-service/backend/internal/biz/report/biz.go:2842-2854 | One link for each identifier of each scope, numbered within its scope |
| EvidenceScopeIndex.CountEvidenceScopes | data-service/backend/internal/biz/report/biz.go:520-533 | Counts the distinct identifiers of every path that occurs, and of no other |
| EvidenceScopeIndex.CountIsLength | data-service/backend/internal/biz/report/biz.go:520-533 | Where path texts are keys, the count at a scope's path is the length of that scope's list of distinct identifiers |
| EvidenceScopeIndex.StoredCounts | data-service/backend/internal/biz/report/biz.go:520-533 | Composition of traversal, links and counting: every scope is counted with its own length |
| BaseReport.AcceptedPathsUnique | data-service/backend/internal/biz/report/biz.go:2629-2669 | In every accepted version 4 report a path text names one scope, in both traversals when there are no reasonings |
| EvidenceTree.TreePathIsKey | data-service/backend/internal/biz/report/biz.go:3505-3544 | For any report tree, of any version, whose array segments differ at every level: two scopes of the tree walk have one path text exactly when they are one scope |
| EvidenceTree.TreeCounts | data-service/backend/internal/biz/report/biz.go:520-533 | Walk, links and counting over such a tree count every scope with its own length |
| EvidencePublication.SameEvidenceSet | data-service/backend/internal/biz/evidence/biz.go:942-957 | On lists with distinct ids the one-sided comparison decides equality of the sets, by counting |
| EvidencePublication.UseCase.PublishRawEvidence | data-service/backend/internal/biz/evidence/biz.go:395-458 | The store after publishing Raw Evidence and its answer, or an error and no change |
| EvidencePublication.UseCase.PublishEvidence | data-service/backend/internal/biz/evidence/biz.go:499-596 | The store after publishing an Evidence set and its answer, or an error and no change |
| EvidencePublicationRuns.ReachableInv | data-service/backend/internal/biz/evidence/biz.go:395-596 | Over every run ids are distinct and every stored Evidence belongs to a stored Raw Evidence |
| EvidencePublicationRuns.RunImmutable | data-service/backend/internal/biz/evidence/biz.go:499-596 | Over every run a stored Raw Evidence and a nonempty Evidence set stay exactly what was first stored |
| EvidencePublicationRuns.FirstStored | data-service/backend/internal/biz/evidence/biz.go:559-583 | The first accepted publication stores exactly its records, and at least one |
| EvidencePublicationRuns.StoredSet | data-service/backend/internal/biz/evidence/biz.go:528-583 | After a first publication there is one row for each submitted Evidence and no other, in the byte order of the identities: its own identity, split exactly when two or more were sent, every field as sent and each time cut to the microsecond |
| EvidencePublicationRuns.AnswerNames | data-service/backend/internal/biz/evidence/biz.go:516-589 | The answer names the stored rows in their order and the identity of each Evidence in the order sent |
| EvidencePublicationRuns.StoredRawEvidence | data-service/backend/internal/biz/evidence/biz.go:395-458 | Raw Evidence is stored under the identity of its key with its text hash, its times cut to the microsecond and its categories sorted |
| EvidencePublicationRuns.FirstPublishedIff | data-service/backend/internal/biz/evidence/biz.go:499-620 | Without hash collisions a first publication is accepted exactly when it goes to stored Raw Evidence and lists at least one Evidence, valid ones with different identities only |
| EvidencePublicationRuns.RawPublishedIff | data-service/backend/internal/biz/evidence/biz.go:395-458 | Raw Evidence under a new key is accepted exactly when the key is not blank, the fields are valid and the categories are different, canonical and in the catalogue |
| EvidencePublicationRuns.AcceptedIffSameSet | data-service/backend/internal/biz/evidence/biz.go:563-566 | Where a set is stored, a valid publication changes nothing, and is accepted exactly when its records are that set |
| EvidencePublicationRuns.SameRecordsIff | data-service/backend/internal/biz/evidence/biz.go:526-535 | Two valid publications have the same records exactly when they list the same Evidences |
| EvidencePublicationRuns.LaterPublication | data-service/backend/internal/biz/evidence/biz.go:499-596 | In every later state a valid publication is accepted exactly when it lists the first one's Evidences in any order; either way nothing changes |
| EvidencePublicationRuns.PermutationAnswer | data-service/backend/internal/biz/evidence/biz.go:531-589 | Permutations of a set are answered with the same sorted ids |
| EvidencePublicationRuns.NoIdConflict | data-service/backend/internal/biz/evidence/biz.go:567-577 | Without hash collisions a first publication never meets an id that is already assigned |
| EvidencePublicationRuns.FirstAccepted | data-service/backend/internal/biz/evidence/biz.go:499-596 | A valid first publication to a stored Raw Evidence is accepted |
| EvidencePublicationRuns.ReachableDerived | data-service/backend/internal/biz/evidence/biz.go:499-596 | In every state reachable from the empty store each id is derived from its content |
| EvidencePublicationRuns.RawReplay | data-service/backend/internal/biz/evidence/biz.go:930-940 | Publishing Raw Evidence again is accepted exactly when content, times to the microsecond and category set agree; it never changes the record |
| EvidencePublicationRuns.SameMicrosecond | data-service/backend/internal/biz/evidence/biz.go:910-912 | Two times are stored alike exactly when they lie in the same microsecond |
| ReportPublication.UniqueEvidenceIDs | data-service/backend/internal/biz/report/biz.go:1238-1249 | The distinct identifiers of all links, each once, in byte order |
| ReportPublication.SentinelMeaning | data-service/backend/internal/biz/report/biz.go:1251-1262 | The empty answer means exactly that nothing is missing or that the first missing identifier is itself the empty text |
| ReportPublication.SentinelExact | data-service/backend/internal/biz/report/biz.go:1251-1262 | On nonempty identifiers the empty answer means exactly that nothing is missing |
| ReportPublication.ContentHash | data-service/backend/internal/biz/report/biz.go:535 | The content hash is the digest of the canonical bytes, or none when the report cannot be printed |
| ReportPublication.UseCase.PublishReport | data-service/backend/internal/biz/report/biz.go:459-518 | The store after a publication and its answer, replay or new, or an error and no change |
| ReportPublication.ReachableInv | data-service/backend/internal/biz/report/biz.go:459-518 | Over every run publisher ids and record ids are unique, hashes and counts are those of the stored reports, and every stored link belongs to a record and names existing Evidence |
| ReportPublication.RunImmutable | data-service/backend/internal/biz/report/biz.go:459-518 | At most one record a publisher id over every run: once stored, record and links never change |
| ReportPublication.FirstPublication | data-service/backend/internal/biz/report/biz.go:486-514 | A first publication stores its report, its hash and exactly the links of its scopes |
| ReportPublication.PublishedIff | data-service/backend/internal/biz/report/biz.go:459-518 | A first publication is accepted exactly when the publisher id is not blank and at most 200 long, the report can be printed and is valid, all Evidence its scopes cite exists and the new id is free |
| ReportPublication.StoredRecord | data-service/backend/internal/biz/report/biz.go:506-533 | The stored record field by field: the digest of the canonical bytes, the time of the call, and for each cited path the number of different identifiers cited there |
| ReportPublication.LaterPublication | data-service/backend/internal/biz/report/biz.go:475-485 | In every later state the same id is replayed exactly when the report is the same up to the spelling of doubles; any other is refused; neither changes anything |
| EventPublication.ActorKeyInjective | data-service/backend/internal/biz/event/biz.go:480-495 | The joined actor key distinguishes actor and relation |
| EventPublication.ValidateLinks | data-service/backend/internal/biz/event/biz.go:470-509 | Links are accepted exactly when Evidence ids are canonical, weighted within the unit interval and distinct, actors with relations are distinct, and assets are distinct |
| EventPublication.BuildAggregate | data-service/backend/internal/biz/event/biz.go:344-381 | Every link of the aggregate names the new Event, in the order of the input |
| EventPublication.LengthTest | data-service/backend/internal/biz/event/biz.go:289-302 | As many existing as requested identifiers: exactly when none is requested twice and none is missing |
| EventPublication.UseCase.PublishEvent | data-service/backend/internal/biz/event/biz.go:236-319 | The store after a publication and its answer, replay or new, or an error and no change |
| EventPublication.ReachableInv | data-service/backend/internal/biz/event/biz.go:236-319 | Over every run every receipt names a stored Event, no two the same, and every link names existing Evidence |
| EventPublication.OneKeyPerEvent | data-service/backend/internal/biz/event/biz.go:236-319 | Over every run of publications receipts and Events correspond one to one |
| EventPublication.RunImmutable | data-service/backend/internal/biz/event/biz.go:236-319 | Receipt, Event and links of a used key never change |
| EventPublication.FirstPublication | data-service/backend/internal/biz/event/biz.go:297-306 | A first publication adds exactly one receipt and one Event under a fresh id |
| EventPublication.PublishedIff | data-service/backend/internal/biz/event/biz.go:236-306 | A first publication is accepted exactly when both names have 1 to 200 characters, the status is one of three or absent, at least one Evidence is linked, all linked Evidence exists, each once with a weight from 0 to 1, actors have one of four relations each once, no asset is linked twice, and the new id is free |
| EventPublication.StoredEvent | data-service/backend/internal/biz/event/biz.go:248-306 | The stored Event has the submitted content, ACTIVE for an absent status, the submitted links in order, and a receipt under the trimmed key with the digest of the payload |
| EventPublication.LaterPublication | data-service/backend/internal/biz/event/biz.go:278-319 | In every later state a valid publication under a used key changes nothing, is answered with the original Event, links and receipt exactly when its payload text is the original one, and is refused otherwise |
| Classification.ValidateSource | data-service/backend/internal/biz/stock/biz.go:390-429 | The input is accepted exactly when symbols are distinct and well formed, names and codes are trimmed and nonblank, codes and chains do not repeat within a stock, and code and name determine each other across the whole input |
| Classification.SortIndustries | data-service/backend/internal/biz/stock/biz.go:481-496 | The map's industries in the order of path length and id |
| Classification.Classify | data-service/backend/internal/biz/stock/biz.go:373-499 | A publication is built exactly from a valid input whose stocks all resolve, and has the specified masters and links |
| ClassificationContent.AcceptedIff | data-service/backend/internal/biz/stock/biz.go:390-429 | A file is accepted exactly when its counts agree, every stock has a six-digit code on one of three exchanges, trimmed industry levels, concepts and chains without repetition, no stock occurs twice, and codes and names of concepts determine each other |
| ClassificationContent.PublishedIndustries | data-service/backend/internal/biz/stock/biz.go:444-463 | The industries published are the two levels of every stock, with identity, name, code, parent and path, and no other |
| ClassificationContent.PublishedMasters | data-service/backend/internal/biz/stock/biz.go:467-480 | One concept and one chain is published for every name that occurs, under the identity derived from the name |
| ClassificationContent.PublishedLinks | data-service/backend/internal/biz/stock/biz.go:464-476 | Every stock is linked to both levels of its industry and to each of its concepts and chains, under the identity derived from stock and target |
| ClassificationContent.PublishedOrder | data-service/backend/internal/biz/stock/biz.go:481-496 | Industries are listed by length of path and then by identity, concepts and chains by identity |
| ClassificationClosure.DerivationSucceeds | data-service/backend/internal/biz/stock/biz.go:436-443 | On trimmed, nonblank names derivation cannot fail, so no allocation error arises |
| ClassificationClosure.SameIndustry | data-service/backend/internal/biz/stock/biz.go:458-463 | Without hash collisions two industry ids are equal exactly when their name parts are |
| ClassificationClosure.ListedIndustry | data-service/backend/internal/biz/stock/biz.go:462-463 | A listed industry is the root or leaf of some stock, and that stock's root is listed |
| ClassificationClosure.ParentsFirst | data-service/backend/internal/biz/stock/biz.go:490-496 | In the sorted list every industry's parent stands earlier, with a path that is its prefix |
| ClassificationClosure.SeparatorOrphans | data-service/backend/internal/biz/stock/biz.go:458-463 | The NUL condition is needed: a first-level name that spells another stock's two levels around a NUL loses its entry, and its leaf has no parent in the list |
| ClassificationClosure.LinksClosed | data-service/backend/internal/biz/stock/biz.go:464-476 | For every input, names with NUL and colliding hashes included, every link joins a published stock to an entry of the published master list |
| ClassificationClosure.LinksDistinct | data-service/backend/internal/biz/stock/biz.go:464-476 | No two links of a kind join the same stock and target |
| ClassificationClosure.PublishedLinkIDs | data-service/backend/internal/biz/stock/biz.go:464-476 | Without hash collisions no two links of a kind have one id |
| ClassificationClosure.RootAndLeaf | data-service/backend/internal/biz/stock/biz.go:458-466 | Every stock is linked to its root and its leaf industry, which differ, and to no other |
| ClassificationClosure.ConceptIdentity | data-service/backend/internal/biz/stock/biz.go:412-417 | Two concepts anywhere in the input share a code exactly when they share a name, exactly when they share a master entry |
| ResearchGraph.ValidateRequest | data-service/backend/internal/biz/research/biz.go:197-274 | A query is accepted exactly within its limits, and normalised to sorted seeds, sorted trimmed filters and a rewritten instant |
| ResearchGraph.RequestAccepted | data-service/backend/internal/biz/research/biz.go:197-274 | A query is accepted exactly with a readable instant, 1 to 20 different object ids, 1 to 20 filters of different trimmed types in a known direction, depth 1 to 5, budgets up to 500 nodes and 1000 edges, and a canonical chain when one is given |
| ResearchGraph.RequestNormalized | data-service/backend/internal/biz/research/biz.go:197-274 | As hashed it holds the same seeds and the same trimmed filters, each in byte order, the instant written anew and everything else as sent |
| ResearchGraph.Fingerprint | data-service/backend/internal/biz/research/biz.go:285-302 | The fingerprint is the digest of the canonical bytes of the normalised query |
| ResearchGraph.HashedDocument | data-service/backend/internal/biz/research/biz.go:185-195 | The text that is hashed reads as one JSON object: the two version texts of the contract and the parts of the normalised query under their names, the chain only when there is one |
| ResearchGraph.JsonDecides | data-service/backend/internal/biz/research/biz.go:185-195 | The written form of a normalised query determines it, an absent chain included |
| ResearchGraph.FingerprintDecides | data-service/backend/internal/biz/research/biz.go:197-302 | Two valid queries have the same hash input exactly when they name the same instant, seed set, trimmed filter set, chain and limits |
| ResearchGraph.ReferencesResolve | data-service/backend/internal/biz/research/biz.go:385-434 | The result check, exactly as it compares joined membership texts |
| ResearchGraph.CheckDecides | data-service/backend/internal/biz/research/biz.go:402-433 | On NUL-free entity ids that check holds exactly when every reference of the result resolves |
| ResearchGraph.CheckRightIff | data-service/backend/internal/biz/research/biz.go:402-433 | For a list of entities the check is right about every result with these entities if and only if no entity id holds a NUL |
| ResearchGraph.CanonicalEntities | data-service/backend/internal/biz/research/biz.go:385-434 | On canonical object ids the check is right |
| Migration.AppliedDifference | data-service/backend/internal/data/dbmigration/service.go:109-132 | Collects what was pending before and is not after, and fails exactly when such a version lies above the current one |
| Migration.VersionRead | data-service/backend/internal/data/dbmigration/postgres.go:137-143 | A version is read back from its padded and its plain text |
| Migration.VersionShape | data-service/backend/internal/data/dbmigration/postgres.go:316-326 | A reported version is its value in six digits, or in as many as it needs when it needs more |
| Migration.TargetRead | data-service/backend/internal/data/dbmigration/postgres.go:137-143 | A written target is read as its value when that is at least 1 and refused otherwise |
| Migration.AppliedIsBetween | data-service/backend/internal/data/dbmigration/service.go:109-132 | The difference of the pending lists is exactly the files between the two versions, and cannot fail on a consistent database |
| Migration.SelectUpTo | data-service/backend/internal/data/dbmigration/postgres.go:114-130 | The selection loop and its test whether the target exists |
| Migration.SelectedIsBetween | data-service/backend/internal/data/dbmigration/postgres.go:114-130 | Selection by version names the same migrations as the difference of the pending lists |
| Migration.TargetIsFile | data-service/backend/internal/data/dbmigration/postgres.go:114-130 | The target is found exactly when a pending file has that version |
| MigrationRun.Executor.Apply | data-service/backend/internal/data/dbmigration/postgres.go:80-135 | It runs only under the lock; whatever fails, also after the last file, the database never goes back; a success reports exactly the files between the versions and lands on the target or leaves nothing |
| MigrationRun.Service.ValidateAppliedState | data-service/backend/internal/data/dbmigration/service.go:134-153 | Given what a database at version v reports, it accepts exactly when that database landed: v is the target, or without a target no file is later than v |
| MigrationRun.Service.Check | data-service/backend/internal/data/dbmigration/service.go:52-95 | On every path the lock is given back exactly once after it was taken; a success reports the state it leaves, what it applied lies exactly between the two versions, and it lands on the target or leaves nothing |
| AdvisoryLocker.Locker.TakeLock | data-service/backend/internal/data/dbmigration/postgres.go:204-220 | A taken lock belongs to one new live connection; a failed attempt leaves no connection behind that is live or back in the pool |
| AdvisoryLocker.Locker.Discard | data-service/backend/internal/data/dbmigration/postgres.go:264-270 | The raw call that answers with a bad connection drops a live connection, and fails exactly on one that is already done |
| AdvisoryLocker.Locker.DiscardAndClose | data-service/backend/internal/data/dbmigration/postgres.go:276-286 | Whatever the close reports, a live connection is dropped and a done one stays where it is |
| AdvisoryLocker.CloseKeepsSafe | data-service/backend/internal/data/dbmigration/postgres.go:226-241 | After a release, closing alone keeps the pool safe exactly when the session gave the lock back; discarding first always does |
| AdvisoryLocker.Locker.Release | data-service/backend/internal/data/dbmigration/postgres.go:222-243 | Afterwards nothing is owned, and the connection is back in the pool exactly when its session gave the lock back, else dropped |
| AdvisoryLocker.Locker.Shutdown | data-service/backend/internal/data/dbmigration/postgres.go:245-254 | Afterwards nothing is owned and an owned connection is dropped |
| AdvisoryLocker.Locker.Serve | data-service/backend/internal/data/dbmigration/postgres.go:204-254 | In every run of calls, whatever statements, discards and closes report, no connection whose session may hold the lock is back in the pool |
| AdvisoryLocker.SafePool | data-service/backend/internal/data/dbmigration/postgres.go:204-286 | At most one session may hold the lock without its connection being dropped |
| LoginBudget.Budget.Allow | user-service/backend/internal/server/http.go:36-49 | One call: a new window opens after a minute, else the count decides |
| LoginBudget.WindowsApart | user-service/backend/internal/server/http.go:40-43 | In any trace consecutive windows start at least a minute apart, and the last one is the window left behind |
| LoginBudget.WindowBound | user-service/backend/internal/server/http.go:44-48 | While one window lasts, no more calls are admitted than it has left |
| LoginBudget.IntervalBound | user-service/backend/internal/server/http.go:30-49 | For every trace with a non-decreasing clock, any half-open minute admits at most 119 calls |
| LoginBudget.RefusedAfterSixty | user-service/backend/internal/server/http.go:36-49 | Nobody is refused early: before a refused call 60 calls were admitted within less than a minute |
| LoginBudget.BoundAttained | user-service/backend/internal/server/http.go:30-49 | A trace that attains 119, so the bound is exact |

## Left out

- HTTP, clients, middleware, configuration, SQL and goose texts, and the frontends: input and output around the cores.
- SHA-256, SHA-1, UUID generation, float parsing and formatting, RFC 3339 reading and writing: parameters, with faithfulness or freedom from collision asked for where a theorem needs it.
- Invalid UTF-8: a model string holds Unicode scalar values, so the writers' error branches for invalid text cannot arise; decoded JSON never holds such text.
- StringLiteral.RoundTrip: surrogate escapes are not read, because the printers never write them.
- Binding.DecodeStrict: the second decoding into the target type, after the shape check, is not modelled.
- SourceConfig.SameConfig: texts that are not JSON count as undecodable, the decoder itself is not modelled; numbers are those of the grammar, as the decoder delivers them.
- SourceCatalog.UseCase.ImportSources: imported times are kept as given, without the rounding of the database column, and the configuration is kept as submitted rather than as re-encoded by the database.
- SourceCatalog.ValidateProjectedSet: the byte length of a source without its timestamps is a parameter, and the checks of a single entry's fields are one abstract predicate.
- ReportClosure.ValidateNormalizedUnit: assessment states, objections, windows, labels, required texts and other checks of single fields, and the wording of errors; so for ReportClosure.ValidateChain, UnifiedClosure.ValidateUnifiedUnit and BaseReport.ValidateBaseReport.
- UnifiedClosure.ValidateUnifiedUnit: the checks of one company analysis and of an empty state are left out; whole version 6 reports are too, their observations and company analyses are not checked for distinct keys.
- ReportUnifyContent.CitationsKept: the trees hold no signal fields; Evidence of variable signals is kept inside the provenance that ReportUnifyContent.JudgmentsKept speaks of.
- ReportUnifyClosure.UnifiedClosesIff: says nothing about the checks of single fields, which the conversion neither makes nor breaks by itself.
- EvidenceScopes.TreeEvidenceScopes: members of a report that hold no Evidence are written in part only; a missing identifier list inside unvalidated reasonings is written as an empty one.
- EvidenceScopeIndex.BuildLinks: the generated link ids are not modelled.
- EvidencePublication.UseCase.PublishRawEvidence: the category catalogue is a parameter of the call, and an issue list is one error.
- EvidencePublication.UseCase.PublishEvidence: checks of a single Evidence's fields are one abstract predicate.
- ReportPublication.UseCase.PublishReport: validation of the report and its scopes are parameters that admit only canonical Evidence ids; the report is kept as the JSON value it is hashed from.
- EventPublication.UseCase.PublishEvent: Evidence is never withdrawn in the model; field checks outside the link lists are one abstract predicate.
- DailyQuotes.Repository.PublishDailyQuotes: a batch arrives decoded and sorted; the file-level counts and limits of `DecodeDailyQuotes` are not modelled.
- Classification.Classify: decoding and the record counts of the file, the codes inside an industry path beyond their being functions of the names, and the size limit of the file; invalid and conflicting input are one refusal.
- ResearchGraph.ValidateRequest: refusals carry no reason and reading a time is a parameter; the search itself, budgets of results and the graph fingerprint are left out.
- MigrationRun.Executor.Apply: goose is a list of files in ascending order and a current version that moves up file by file.
- AdvisoryLocker.Locker.DiscardAndClose: what closing a connection reports is left open.
- Read projections, cursors, list filters, legacy report versions and the other use cases of the services: they would add easy members only.
