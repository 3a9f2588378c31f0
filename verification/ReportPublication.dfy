/** Report publication: at most one immutable record per publisher report id. */
module ReportPublication {
  import opened Json
  import opened Sequences
  import opened Identity
  import opened Unicode
  import opened CanonicalForm
  import opened CanonicalPrinters
  import opened CanonicalAgreement
  import opened EvidenceScopes
  import opened EvidenceScopeIndex

  datatype Error = Validation | Internal | Conflict | MissingEvidence | Persistence

  datatype Result<T> = Ok(value: T) | Err(error: Error)

  /** Taken from outside: double parsing and formatting, the digest, the report validator and its scopes. */
  datatype Rules = Rules(floats: Floats, digest: seq<Byte> -> string, valid: JSON -> bool, scopes: JSON -> seq<TextScope>)

  datatype Record = Record(
    id: string, publisherId: string, contentHash: string, report: JSON, publishedAt: int, evidenceCounts: map<string, nat>)

  datatype StoredLink = StoredLink(reportId: string, link: Link)

  /** Evidence is published elsewhere and never withdrawn. */
  datatype State = State(evidence: set<string>, reports: map<string, Record>, links: seq<StoredLink>)

  datatype Op = AddEvidence(id: string) | Publish(publisherId: string, report: JSON, newId: string, now: int)

  // ---- the hash ----

  ghost function HashOf(r: Rules, report: JSON): Option<string> {
    if Accepts(ReportProfile(r.floats), report) then Some(r.digest(Utf8(Printed(ReportProfile(r.floats), report)))) else None
  }

  method ContentHash(r: Rules, report: JSON) returns (hash: Option<string>)
    ensures hash == HashOf(r, report)
  {
    var canonical := new Buffer();
    var accepted := WriteReportJSON(r.floats, canonical, report);
    hide Printed, Accepts, Utf8;
    if !accepted {
      return None;
    }
    assert [] + Utf8(Printed(ReportProfile(r.floats), report)) == Utf8(Printed(ReportProfile(r.floats), report));
    return Some(r.digest(canonical.bytes));
  }

  // ---- Evidence references ----

  function LinkIDs(links: seq<Link>): set<string> { set l | l in links :: l.evidenceId }

  /** The distinct identifiers in the order of their bytes. */
  method UniqueEvidenceIDs(links: seq<Link>) returns (ids: seq<string>)
    ensures Distinct(ids) && Elements(ids) == LinkIDs(links)
    ensures Ascending(Utf8Order, ids)
  {
    var seen: set<string> := {};
    ids := [];
    for i := 0 to |links|
      invariant seen == LinkIDs(links[..i]) == Elements(ids)
      invariant Distinct(ids)
    {
      assert links[..i + 1] == links[..i] + [links[i]];
      if links[i].evidenceId !in seen {
        assert links[i].evidenceId !in Elements(ids);
        assert Elements(ids + [links[i].evidenceId]) == Elements(ids) + {links[i].evidenceId};
        ids := ids + [links[i].evidenceId];
      }
      seen := seen + {links[i].evidenceId};
    }
    assert links[..|links|] == links;
    SortAscending(Utf8Order, ids);
    var sorted := SortSlice(Utf8Order, ids);
    DistinctCount(ids);
    assert Elements(sorted) == Elements(ids);
    DistinctCount(sorted);
    return sorted;
  }

  /** The first wanted identifier that is not there, or the empty text. */
  method FirstMissingEvidence(want: seq<string>, existing: set<string>) returns (missing: string)
    ensures missing == FirstMissing(want, existing)
  {
    assert want[0..] == want;
    for i := 0 to |want|
      invariant FirstMissing(want, existing) == FirstMissing(want[i..], existing)
    {
      assert want[i..][1..] == want[i + 1..];
      if want[i] !in existing {
        return want[i];
      }
    }
    return "";
  }

  function FirstMissing(want: seq<string>, existing: set<string>): string {
    if want == [] then "" else if want[0] !in existing then want[0] else FirstMissing(want[1..], existing)
  }

  /** The empty text says "nothing is missing" exactly when all are there, or the first missing one is empty. */
  lemma {:induction false} SentinelMeaning(want: seq<string>, existing: set<string>)
    ensures FirstMissing(want, existing) == "" <==>
            || (forall id | id in want :: id in existing)
            || (exists n | 0 <= n < |want| :: want[n] == "" && "" !in existing && forall i | 0 <= i < n :: want[i] in existing)
  {
    if want != [] && want[0] in existing {
      SentinelMeaning(want[1..], existing);
      assert want == [want[0]] + want[1..];
      if n :| 0 <= n < |want| && want[n] == "" && "" !in existing && forall i | 0 <= i < n :: want[i] in existing {
        assert want[1..][n - 1] == "";
        assert forall i | 0 <= i < n - 1 :: want[1..][i] == want[i + 1];
      }
      if n :| 0 <= n < |want[1..]| && want[1..][n] == "" && "" !in existing && forall i | 0 <= i < n :: want[1..][i] in existing {
        assert want[n + 1] == "";
        assert forall i | 0 < i < n + 1 :: want[i] == want[1..][i - 1];
      }
    }
  }

  /** With nonempty identifiers the sentinel is exact. */
  lemma SentinelExact(want: seq<string>, existing: set<string>)
    requires "" !in want
    ensures FirstMissing(want, existing) == "" <==> forall id | id in want :: id in existing
  {
    SentinelMeaning(want, existing);
  }

  // ---- publication ----

  predicate ValidPublisher(id: string) { TrimSpace(id) != "" && |id| <= 200 }

  /** The validator admits only reports whose Evidence identifiers are canonical. */
  ghost predicate Checked(r: Rules) {
    forall report, s, i | r.valid(report) && s in r.scopes(report) && 0 <= i < |s.ids| :: Is(s.ids[i], "EVD")
  }

  ghost predicate Counted(links: seq<Link>, counts: map<string, nat>) {
    && (forall p :: p in counts <==> exists l | l in links :: l.path == p)
    && forall p | p in counts :: counts[p] == |IdsAt(links, p)|
  }

  function Paths(links: seq<Link>): set<string> { set l | l in links :: l.path }

  ghost function Counts(links: seq<Link>): map<string, nat> { map p | p in Paths(links) :: |IdsAt(links, p)| }

  function Stored(id: string, links: seq<Link>): (s: seq<StoredLink>)
    ensures |s| == |links|
  {
    seq(|links|, i requires 0 <= i < |links| => StoredLink(id, links[i]))
  }

  ghost predicate AllThere(links: seq<Link>, evidence: set<string>) { LinkIDs(links) <= evidence }

  ghost function NewRecord(r: Rules, publisherId: string, report: JSON, newId: string, now: int): Record
    requires HashOf(r, report).Some?
  {
    Record(newId, publisherId, HashOf(r, report).value, report, now, Counts(Links(r.scopes(report))))
  }

  ghost function AfterPublish(r: Rules, s: State, publisherId: string, report: JSON, newId: string, now: int): Result<State> {
    var links := Links(r.scopes(report));
    if !ValidPublisher(publisherId) then Err(Validation)
    else if HashOf(r, report).None? then Err(Internal)
    else if publisherId in s.reports then
      if s.reports[publisherId].contentHash == HashOf(r, report).value then Ok(s) else Err(Conflict)
    else if !r.valid(report) then Err(Validation)
    else if !AllThere(links, s.evidence) then Err(MissingEvidence)
    else if exists k | k in s.reports :: s.reports[k].id == newId then Err(Persistence)
    else Ok(s.(reports := s.reports[publisherId := NewRecord(r, publisherId, report, newId, now)], links := s.links + Stored(newId, links)))
  }

  ghost function Outcome(r: Rules, s: State, op: Op): Result<State> {
    match op
    case AddEvidence(id) => Ok(s.(evidence := s.evidence + {id}))
    case Publish(publisherId, report, newId, now) => AfterPublish(r, s, publisherId, report, newId, now)
  }

  ghost function After(r: Rules, s: State, op: Op): State {
    match Outcome(r, s, op)
    case Ok(t) => t
    case Err(_) => s
  }

  ghost function Run(r: Rules, s: State, ops: seq<Op>): State {
    if ops == [] then s else After(r, Run(r, s, ops[..|ops| - 1]), ops[|ops| - 1])
  }

  datatype Publication = Publication(record: Record, replayed: bool)

  class UseCase {
    const rules: Rules
    var evidence: set<string>
    var reports: map<string, Record>
    var links: seq<StoredLink>

    ghost function Current(): State
      reads this
    {
      State(evidence, reports, links)
    }

    constructor (rules: Rules)
      ensures this.rules == rules && Current() == State({}, map[], [])
    {
      this.rules := rules;
      evidence, reports, links := {}, map[], [];
    }

    method PublishReport(publisherId: string, report: JSON, newId: string, now: int) returns (result: Result<Publication>)
      requires Checked(rules)
      modifies this
      ensures Current() == After(rules, old(Current()), Publish(publisherId, report, newId, now))
      ensures match Outcome(rules, old(Current()), Publish(publisherId, report, newId, now))
        case Err(e) => result == Err(e)
        case Ok(t) => publisherId in t.reports && result == Ok(Publication(t.reports[publisherId], publisherId in old(reports)))
    {
      hide HashOf, Links, Counts, Checked;
      if !ValidPublisher(publisherId) {
        return Err(Validation);
      }
      var hash := ContentHash(rules, report);
      if hash.None? {
        return Err(Internal);
      }
      if publisherId in reports {
        if reports[publisherId].contentHash != hash.value {
          return Err(Conflict);
        }
        return Ok(Publication(reports[publisherId], true));
      }
      if !rules.valid(report) {
        return Err(Validation);
      }
      var built := BuildLinks(rules.scopes(report));
      var ids := UniqueEvidenceIDs(built);
      var missing := FirstMissingEvidence(ids, evidence);
      MissingExact(rules, report, built, ids, evidence);
      if missing != "" {
        return Err(MissingEvidence);
      }
      var counts := CountEvidenceScopes(built);
      CountsOf(built, counts);
      if exists k | k in reports :: reports[k].id == newId {
        return Err(Persistence);
      }
      var record := Record(newId, publisherId, hash.value, report, now, counts);
      reports := reports[publisherId := record];
      links := links + Stored(newId, built);
      return Ok(Publication(record, false));
    }
  }

  lemma CountsOf(links: seq<Link>, counts: map<string, nat>)
    requires Counted(links, counts)
    ensures counts == Counts(links)
  {
    hide IdsAt;
    assert forall p :: p in counts <==> p in Paths(links);
  }

  lemma MissingExact(r: Rules, report: JSON, links: seq<Link>, ids: seq<string>, evidence: set<string>)
    requires Checked(r) && r.valid(report) && links == Links(r.scopes(report)) && Elements(ids) == LinkIDs(links)
    ensures FirstMissing(ids, evidence) == "" <==> AllThere(links, evidence)
  {
    LinksFrom(r.scopes(report));
    hide Links;
    forall id | id in ids ensures id != "" {
      assert id in LinkIDs(links);
      var l :| l in links && l.evidenceId == id;
      var s :| s in r.scopes(report) && s.path == l.path && l.evidenceId in s.ids;
      var i :| 0 <= i < |s.ids| && s.ids[i] == id;
      assert Is(s.ids[i], "EVD");
    }
    SentinelExact(ids, evidence);
    assert forall id :: id in ids <==> id in LinkIDs(links);
  }

  // ---- every run ----

  /** Hash and counts are those of the stored report, and every stored link belongs to a record and names existing Evidence. */
  ghost predicate Inv(r: Rules, s: State) {
    && (forall k | k in s.reports :: Some(s.reports[k].contentHash) == HashOf(r, s.reports[k].report))
    && (forall k | k in s.reports :: s.reports[k].evidenceCounts == Counts(Links(r.scopes(s.reports[k].report))))
    && (forall k | k in s.reports :: s.reports[k].publisherId == k && AllThere(Links(r.scopes(s.reports[k].report)), s.evidence))
    && (forall k, m | k in s.reports && m in s.reports && s.reports[k].id == s.reports[m].id :: k == m)
    && (forall x | x in s.links :: x.link.evidenceId in s.evidence)
    && forall x | x in s.links :: exists k | k in s.reports :: s.reports[k].id == x.reportId
  }

  lemma StepKeepsInv(r: Rules, s: State, op: Op)
    requires Inv(r, s)
    ensures Inv(r, After(r, s, op))
  {
    hide HashOf, Links, Counts;
    var t := After(r, s, op);
    if op.Publish? && Outcome(r, s, op).Ok? && op.publisherId !in s.reports {
      var links := Links(r.scopes(op.report));
      forall x | x in t.links ensures x.link.evidenceId in t.evidence && exists k | k in t.reports :: t.reports[k].id == x.reportId {
        if x in s.links {
          var k :| k in s.reports && s.reports[k].id == x.reportId;
          assert t.reports[k] == s.reports[k];
        } else {
          assert x in Stored(op.newId, links);
          assert x.link in links;
          assert x.link.evidenceId in LinkIDs(links);
          assert t.reports[op.publisherId].id == op.newId;
        }
      }
    }
  }

  lemma {:induction false} ReachableInv(r: Rules, s: State, ops: seq<Op>)
    requires Inv(r, s)
    ensures Inv(r, Run(r, s, ops))
  {
    if ops != [] {
      ReachableInv(r, s, ops[..|ops| - 1]);
      StepKeepsInv(r, Run(r, s, ops[..|ops| - 1]), ops[|ops| - 1]);
    }
  }

  function LinksOf(links: seq<StoredLink>, id: string): seq<StoredLink> {
    if links == [] then []
    else LinksOf(links[..|links| - 1], id) + (if links[|links| - 1].reportId == id then [links[|links| - 1]] else [])
  }

  lemma {:induction false} LinksOfConcat(a: seq<StoredLink>, b: seq<StoredLink>, id: string)
    ensures LinksOf(a + b, id) == LinksOf(a, id) + LinksOf(b, id)
  {
    if b == [] {
      assert a + b == a;
    } else {
      var init := b[..|b| - 1];
      assert (a + b)[..|a + b| - 1] == a + init;
      LinksOfConcat(a, init, id);
    }
  }

  lemma {:induction false} LinksOfUniform(links: seq<StoredLink>, own: string, id: string)
    requires forall x | x in links :: x.reportId == own
    ensures LinksOf(links, id) == if id == own then links else []
  {
    if links != [] {
      LinksOfUniform(links[..|links| - 1], own, id);
      assert links == links[..|links| - 1] + [links[|links| - 1]];
    }
  }

  /** One step changes neither a stored record nor its links. */
  lemma StepImmutable(r: Rules, s: State, op: Op, key: string)
    requires Inv(r, s) && key in s.reports
    ensures var t := After(r, s, op);
            && key in t.reports && t.reports[key] == s.reports[key]
            && LinksOf(t.links, s.reports[key].id) == LinksOf(s.links, s.reports[key].id)
  {
    hide HashOf, Links, Counts;
    if op.Publish? && Outcome(r, s, op).Ok? && op.publisherId !in s.reports {
      var added := Stored(op.newId, Links(r.scopes(op.report)));
      LinksOfConcat(s.links, added, s.reports[key].id);
      LinksOfUniform(added, op.newId, s.reports[key].id);
    }
  }

  /** At most one record per publisher report id over every run: once stored, record and links never change. */
  lemma {:induction false} RunImmutable(r: Rules, s: State, ops: seq<Op>, key: string)
    requires Inv(r, s) && key in s.reports
    ensures var t := Run(r, s, ops);
            && key in t.reports && t.reports[key] == s.reports[key]
            && LinksOf(t.links, s.reports[key].id) == LinksOf(s.links, s.reports[key].id)
  {
    if ops != [] {
      RunImmutable(r, s, ops[..|ops| - 1], key);
      ReachableInv(r, s, ops[..|ops| - 1]);
      StepImmutable(r, Run(r, s, ops[..|ops| - 1]), ops[|ops| - 1], key);
    }
  }

  lemma FirstOutcome(r: Rules, s: State, op: Op)
    requires op.Publish? && op.publisherId !in s.reports && Outcome(r, s, op).Ok?
    ensures HashOf(r, op.report).Some? && forall k | k in s.reports :: s.reports[k].id != op.newId
    ensures After(r, s, op) == s.(reports := s.reports[op.publisherId := NewRecord(r, op.publisherId, op.report, op.newId, op.now)],
                                  links := s.links + Stored(op.newId, Links(r.scopes(op.report))))
  {
    hide HashOf, Links, Counts, Stored, AllThere, ValidPublisher;
  }

  lemma UnusedId(r: Rules, s: State, id: string)
    requires Inv(r, s) && forall k | k in s.reports :: s.reports[k].id != id
    ensures LinksOf(s.links, id) == []
  {
    hide Links, AllThere;
    NoLinksYet(s.links, id);
  }

  /** A publication under a new key is accepted exactly when the key is not blank and not too long, the report can be
    printed and is valid, every Evidence its scopes cite exists and the new id is free. */
  lemma PublishedIff(r: Rules, s: State, op: Op)
    requires op.Publish? && op.publisherId !in s.reports
    ensures Outcome(r, s, op).Ok? <==>
              && TrimSpace(op.publisherId) != "" && |op.publisherId| <= 200
              && Accepts(ReportProfile(r.floats), op.report) && r.valid(op.report)
              && (forall scope, id | scope in r.scopes(op.report) && id in scope.ids :: id in s.evidence)
              && forall k | k in s.reports :: s.reports[k].id != op.newId
  {
    LinksFrom(r.scopes(op.report));
    ScopesThere(r.scopes(op.report), s.evidence);
    hide Links, AllThere, Accepts, Printed, Utf8, TrimSpace, Counts, Stored;
  }

  lemma LinkOfScope(scopes: seq<TextScope>, scope: TextScope, i: nat)
    requires scope in scopes && i < |scope.ids|
    ensures Link(scope.path, scope.ids[i], i + 1) in Links(scopes)
  {
    LinksFrom(scopes);
    hide Links;
  }

  lemma ScopeOfLink(scopes: seq<TextScope>, l: Link) returns (scope: TextScope)
    requires l in Links(scopes)
    ensures scope in scopes && scope.path == l.path && l.evidenceId in scope.ids
  {
    LinksFrom(scopes);
    hide Links;
    scope :| scope in scopes && scope.path == l.path && l.evidenceId in scope.ids;
  }

  lemma LinkIdCited(scopes: seq<TextScope>, id: string)
    ensures id in LinkIDs(Links(scopes)) <==> exists scope | scope in scopes :: id in scope.ids
  {
    hide Links;
    if id in LinkIDs(Links(scopes)) {
      var l :| l in Links(scopes) && l.evidenceId == id;
      var scope := ScopeOfLink(scopes, l);
    }
    if scope :| scope in scopes && id in scope.ids {
      var i :| 0 <= i < |scope.ids| && scope.ids[i] == id;
      LinkOfScope(scopes, scope, i);
    }
  }

  lemma ScopesThere(scopes: seq<TextScope>, evidence: set<string>)
    ensures AllThere(Links(scopes), evidence) <==> forall scope, id | scope in scopes && id in scope.ids :: id in evidence
  {
    forall id ensures id in LinkIDs(Links(scopes)) <==> exists scope | scope in scopes :: id in scope.ids {
      LinkIdCited(scopes, id);
    }
    hide Links, LinkIDs;
  }

  /** A publication under a new key stores its record, and the links of its scopes as that record's links. */
  lemma FirstPublication(r: Rules, s: State, op: Op)
    requires Inv(r, s) && op.Publish? && op.publisherId !in s.reports && Outcome(r, s, op).Ok?
    ensures var t := After(r, s, op);
            && op.publisherId in t.reports && t.reports[op.publisherId].report == op.report && t.reports[op.publisherId].id == op.newId
            && Some(t.reports[op.publisherId].contentHash) == HashOf(r, op.report)
            && LinksOf(t.links, op.newId) == Stored(op.newId, Links(r.scopes(op.report)))
            && t.reports.Keys == s.reports.Keys + {op.publisherId}
  {
    hide HashOf, Links, Counts, Inv, LinksOf, After, Outcome;
    FirstOutcome(r, s, op);
    UnusedId(r, s, op.newId);
    var added := Stored(op.newId, Links(r.scopes(op.report)));
    LinksOfConcat(s.links, added, op.newId);
    LinksOfUniform(added, op.newId, op.newId);
    hide Stored;
    assert [] + added == added;
  }

  /** The record of a first publication, field by field: the digest is that of the report's canonical bytes, and a path is
    counted with its number of different identifiers. */
  lemma StoredRecord(r: Rules, s: State, op: Op)
    requires Inv(r, s) && op.Publish? && op.publisherId !in s.reports && Outcome(r, s, op).Ok?
    ensures Accepts(ReportProfile(r.floats), op.report)
    ensures var t := After(r, s, op);
            && op.publisherId in t.reports
            && var x := t.reports[op.publisherId];
            && x.id == op.newId && x.publisherId == op.publisherId && x.report == op.report && x.publishedAt == op.now
            && x.contentHash == r.digest(Utf8(Printed(ReportProfile(r.floats), op.report)))
            && (forall p :: p in x.evidenceCounts <==> exists scope | scope in r.scopes(op.report) :: scope.path == p && scope.ids != [])
            && forall p | p in x.evidenceCounts :: x.evidenceCounts[p] == |CitedAt(r.scopes(op.report), p)|
  {
    FirstOutcome(r, s, op);
    CountsCited(r.scopes(op.report));
    hide Printed, Utf8, Accepts, Counts, Links, CitedAt;
  }

  function CitedAt(scopes: seq<TextScope>, path: string): set<string> {
    set scope, id | scope in scopes && scope.path == path && id in scope.ids :: id
  }

  lemma PathCited(scopes: seq<TextScope>, p: string)
    ensures p in Paths(Links(scopes)) <==> exists scope | scope in scopes :: scope.path == p && scope.ids != []
  {
    hide Links;
    var links := Links(scopes);
    if p in Paths(links) {
      var l :| l in links && l.path == p;
      var scope := ScopeOfLink(scopes, l);
    }
    if scope :| scope in scopes && scope.path == p && scope.ids != [] {
      LinkOfScope(scopes, scope, 0);
    }
  }

  lemma IdCited(scopes: seq<TextScope>, p: string, id: string)
    ensures id in IdsAt(Links(scopes), p) <==> id in CitedAt(scopes, p)
  {
    hide Links;
    var links := Links(scopes);
    if id in IdsAt(links, p) {
      var l :| l in links && l.path == p && l.evidenceId == id;
      var scope := ScopeOfLink(scopes, l);
    }
    if id in CitedAt(scopes, p) {
      var scope :| scope in scopes && scope.path == p && id in scope.ids;
      var i :| 0 <= i < |scope.ids| && scope.ids[i] == id;
      LinkOfScope(scopes, scope, i);
    }
  }

  lemma IdsCited(scopes: seq<TextScope>, p: string)
    ensures IdsAt(Links(scopes), p) == CitedAt(scopes, p)
  {
    forall id ensures id in IdsAt(Links(scopes), p) <==> id in CitedAt(scopes, p) { IdCited(scopes, p, id); }
    hide Links, IdsAt, CitedAt;
  }

  lemma CountsCited(scopes: seq<TextScope>)
    ensures var counts := Counts(Links(scopes));
            && (forall p :: p in counts <==> exists scope | scope in scopes :: scope.path == p && scope.ids != [])
            && forall p | p in counts :: counts[p] == |CitedAt(scopes, p)|
  {
    forall p
      ensures p in Paths(Links(scopes)) <==> exists scope | scope in scopes :: scope.path == p && scope.ids != []
      ensures IdsAt(Links(scopes), p) == CitedAt(scopes, p)
    {
      PathCited(scopes, p);
      IdsCited(scopes, p);
    }
    hide Links, Paths, IdsAt, CitedAt;
  }

  lemma {:induction false} NoLinksYet(links: seq<StoredLink>, id: string)
    requires forall x | x in links :: x.reportId != id
    ensures LinksOf(links, id) == []
  {
    if links != [] { NoLinksYet(links[..|links| - 1], id); }
  }

  /** The digest has no collision on the two canonical texts. */
  ghost predicate NoDigestCollision(r: Rules, v: JSON, w: JSON) {
    HashOf(r, v).Some? && HashOf(r, w) == HashOf(r, v) ==>
      Utf8(Printed(ReportProfile(r.floats), v)) == Utf8(Printed(ReportProfile(r.floats), w))
  }

  /** In every later state, publishing under a used key is a replay exactly when the report is the same value
    up to the spelling of doubles; any other report is refused; neither changes anything. */
  lemma LaterPublication(r: Rules, s: State, first: Op, ops: seq<Op>, later: Op)
    requires Inv(r, s) && first.Publish? && first.publisherId !in s.reports && Outcome(r, s, first).Ok?
    requires later.Publish? && later.publisherId == first.publisherId && HashOf(r, later.report).Some?
    requires Faithful(r.floats) && NoDigestCollision(r, first.report, later.report)
    ensures var t := Run(r, After(r, s, first), ops);
            && After(r, t, later) == t
            && (Outcome(r, t, later).Ok? <==> SameUpToDoubles(r.floats, first.report, later.report))
            && (Outcome(r, t, later).Err? ==> Outcome(r, t, later) == Err(Conflict))
  {
    FirstPublication(r, s, first);
    StepKeepsInv(r, s, first);
    RunImmutable(r, After(r, s, first), ops, first.publisherId);
    ReportHashInputDecides(r.floats, first.report, later.report);
    hide Run, Inv, LinksOf, SameUpToDoubles, Printed, Accepts, Utf8;
  }
}
