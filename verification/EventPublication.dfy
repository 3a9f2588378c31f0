/** Event publication: at most one Event per publisher and publication key. */
module EventPublication {
  import opened Sequences
  import opened Identity

  datatype EvidenceInput = EvidenceInput(evidenceId: string, weight: real)

  datatype ActorInput = ActorInput(actorId: string, relation: string, details: string)

  datatype AssetInput = AssetInput(assetId: string, details: string)

  /** `content` stands for title, summary and semantic identity. */
  datatype Input = Input(content: string, status: string, evidence: seq<EvidenceInput>, actors: seq<ActorInput>, assets: seq<AssetInput>)

  datatype Event = Event(id: string, content: string, status: string)

  datatype EvidenceLink = EvidenceLink(eventId: string, evidenceId: string, weight: real)

  datatype ActorLink = ActorLink(eventId: string, actor: ActorInput)

  datatype AssetLink = AssetLink(eventId: string, asset: AssetInput)

  datatype Aggregate = Aggregate(event: Event, evidence: seq<EvidenceLink>, actors: seq<ActorLink>, assets: seq<AssetLink>)

  datatype Key = Key(publisher: string, publicationKey: string)

  datatype Receipt = Receipt(id: string, payloadHash: string, eventId: string, publishedAt: int)

  datatype Error = Validation | Conflict | MissingEvidence | Persistence

  datatype Result<T> = Ok(value: T) | Err(error: Error)

  /** Taken from outside: the JSON text of an input, its digest, and the checks of single fields. */
  datatype Rules = Rules(payload: Input -> string, digest: string -> string, valid: Input -> bool)

  function PayloadHash(r: Rules, input: Input): string { r.digest(r.payload(input)) }

  /** The digest has no collision on the two payload texts. */
  predicate NoDigestCollision(r: Rules, a: Input, b: Input) { PayloadHash(r, a) == PayloadHash(r, b) ==> r.payload(a) == r.payload(b) }

  // ---- validation ----

  const RELATIONS: set<string> := {"MENTIONS", "AFFECTS", "ORIGINATES_FROM", "TARGETS"}

  const STATUSES: set<string> := {"ACTIVE", "DEPRECATED", "ARCHIVED"}

  function EvidenceIDs(input: seq<EvidenceInput>): (ids: seq<string>)
    ensures |ids| == |input|
  {
    seq(|input|, i requires 0 <= i < |input| => input[i].evidenceId)
  }

  function AssetIDs(input: seq<AssetInput>): (ids: seq<string>)
    ensures |ids| == |input|
  {
    seq(|input|, i requires 0 <= i < |input| => input[i].assetId)
  }

  predicate SameActor(a: ActorInput, b: ActorInput) { a.actorId == b.actorId && a.relation == b.relation }

  /** The parts of `validateCreateInput` that look at more than one link. */
  predicate ValidLinks(input: Input) {
    && input.status in STATUSES && input.evidence != []
    && (forall e | e in input.evidence :: Is(e.evidenceId, "EVD") && 0.0 <= e.weight <= 1.0)
    && Distinct(EvidenceIDs(input.evidence))
    && (forall a | a in input.actors :: a.relation in RELATIONS)
    && (forall i, j | 0 <= i < j < |input.actors| :: !SameActor(input.actors[i], input.actors[j]))
    && Distinct(AssetIDs(input.assets))
  }

  predicate ValidInput(r: Rules, input: Input) { r.valid(input) && ValidLinks(input) }

  function ActorKey(a: ActorInput): string { a.actorId + [NUL] + a.relation }

  /** The key separates actor and relation: no relation contains the separator. */
  lemma ActorKeyInjective(a: ActorInput, b: ActorInput)
    requires a.relation in RELATIONS && b.relation in RELATIONS
    ensures ActorKey(a) == ActorKey(b) <==> SameActor(a, b)
  {
    RelationsNulFree(a.relation);
    RelationsNulFree(b.relation);
    LastSeparator(a.actorId, a.relation, b.actorId, b.relation, NUL);
  }

  lemma RelationsNulFree(relation: string)
    requires relation in RELATIONS
    ensures NulFree(relation)
  {
  }

  method ValidateLinks(input: Input) returns (ok: bool)
    ensures ok <==> ValidLinks(input)
  {
    if input.status !in STATUSES || input.evidence == [] {
      return false;
    }
    ok := ValidateEvidence(input.evidence);
    if !ok {
      return;
    }
    ok := ValidateActors(input.actors);
    if !ok {
      return;
    }
    ok := ValidateAssets(input.assets);
  }

  method ValidateEvidence(evidence: seq<EvidenceInput>) returns (ok: bool)
    ensures ok <==> (forall e | e in evidence :: Is(e.evidenceId, "EVD") && 0.0 <= e.weight <= 1.0) && Distinct(EvidenceIDs(evidence))
  {
    hide Is;
    var seen: set<string> := {};
    for i := 0 to |evidence|
      invariant forall j | 0 <= j < i :: Is(evidence[j].evidenceId, "EVD") && 0.0 <= evidence[j].weight <= 1.0
      invariant forall j, k | 0 <= j < k < i :: evidence[j].evidenceId != evidence[k].evidenceId
      invariant forall id :: id in seen <==> exists j | 0 <= j < i :: evidence[j].evidenceId == id
    {
      var e := evidence[i];
      assert e in evidence;
      if !Is(e.evidenceId, "EVD") || e.weight < 0.0 || e.weight > 1.0 {
        return false;
      }
      if e.evidenceId in seen {
        ghost var j :| 0 <= j < i && evidence[j].evidenceId == e.evidenceId;
        assert EvidenceIDs(evidence)[j] == EvidenceIDs(evidence)[i];
        return false;
      }
      seen := seen + {e.evidenceId};
    }
    ok := true;
  }

  method ValidateActors(actors: seq<ActorInput>) returns (ok: bool)
    ensures ok <==> ((forall a | a in actors :: a.relation in RELATIONS)
                     && forall i, j | 0 <= i < j < |actors| :: !SameActor(actors[i], actors[j]))
  {
    hide ActorKey;
    var seen: set<string> := {};
    for i := 0 to |actors|
      invariant forall j | 0 <= j < i :: actors[j].relation in RELATIONS
      invariant forall j, k | 0 <= j < k < i :: !SameActor(actors[j], actors[k])
      invariant forall key :: key in seen <==> exists j | 0 <= j < i :: ActorKey(actors[j]) == key
    {
      var a := actors[i];
      assert a in actors;
      if a.relation !in RELATIONS {
        return false;
      }
      forall j | 0 <= j < i ensures ActorKey(actors[j]) == ActorKey(a) <==> SameActor(actors[j], a) {
        ActorKeyInjective(actors[j], a);
      }
      if ActorKey(a) in seen {
        return false;
      }
      seen := seen + {ActorKey(a)};
    }
    ok := true;
  }

  method ValidateAssets(assets: seq<AssetInput>) returns (ok: bool)
    ensures ok <==> Distinct(AssetIDs(assets))
  {
    var seen: set<string> := {};
    for i := 0 to |assets|
      invariant forall j, k | 0 <= j < k < i :: assets[j].assetId != assets[k].assetId
      invariant forall id :: id in seen <==> exists j | 0 <= j < i :: assets[j].assetId == id
    {
      if assets[i].assetId in seen {
        ghost var j :| 0 <= j < i && assets[j].assetId == assets[i].assetId;
        assert AssetIDs(assets)[j] == AssetIDs(assets)[i];
        return false;
      }
      seen := seen + {assets[i].assetId};
    }
    ok := true;
  }

  // ---- the aggregate ----

  function EvidenceLinks(eventId: string, input: Input): (l: seq<EvidenceLink>)
    ensures |l| == |input.evidence|
  {
    seq(|input.evidence|, i requires 0 <= i < |input.evidence| => EvidenceLink(eventId, input.evidence[i].evidenceId, input.evidence[i].weight))
  }

  function ActorLinks(eventId: string, input: Input): (l: seq<ActorLink>)
    ensures |l| == |input.actors|
  {
    seq(|input.actors|, i requires 0 <= i < |input.actors| => ActorLink(eventId, input.actors[i]))
  }

  function AssetLinks(eventId: string, input: Input): (l: seq<AssetLink>)
    ensures |l| == |input.assets|
  {
    seq(|input.assets|, i requires 0 <= i < |input.assets| => AssetLink(eventId, input.assets[i]))
  }

  function AggregateOf(eventId: string, input: Input): Aggregate {
    Aggregate(Event(eventId, input.content, input.status), EvidenceLinks(eventId, input), ActorLinks(eventId, input), AssetLinks(eventId, input))
  }

  method BuildAggregate(eventId: string, input: Input) returns (aggregate: Aggregate)
    ensures aggregate == AggregateOf(eventId, input)
  {
    var evidence: seq<EvidenceLink> := [];
    for i := 0 to |input.evidence|
      invariant evidence == EvidenceLinks(eventId, input)[..i]
    {
      evidence := evidence + [EvidenceLink(eventId, input.evidence[i].evidenceId, input.evidence[i].weight)];
    }
    var actors: seq<ActorLink> := [];
    for i := 0 to |input.actors|
      invariant actors == ActorLinks(eventId, input)[..i]
    {
      actors := actors + [ActorLink(eventId, input.actors[i])];
    }
    var assets: seq<AssetLink> := [];
    for i := 0 to |input.assets|
      invariant assets == AssetLinks(eventId, input)[..i]
    {
      assets := assets + [AssetLink(eventId, input.assets[i])];
    }
    return Aggregate(Event(eventId, input.content, input.status), evidence, actors, assets);
  }

  method LinkedIDs(input: Input, eventId: string, links: seq<EvidenceLink>) returns (ids: seq<string>)
    requires links == EvidenceLinks(eventId, input)
    ensures ids == EvidenceIDs(input.evidence)
  {
    ids := [];
    for i := 0 to |links|
      invariant ids == EvidenceIDs(input.evidence)[..i]
    {
      ids := ids + [links[i].evidenceId];
    }
  }

  // ---- the length test ----

  function Existing(evidence: set<string>, ids: seq<string>): set<string> { set id | id in ids && id in evidence }

  /** As many existing as requested identifiers: exactly when none is requested twice and none is missing. */
  lemma LengthTest(evidence: set<string>, ids: seq<string>)
    ensures |Existing(evidence, ids)| == |ids| <==> Distinct(ids) && forall id | id in ids :: id in evidence
  {
    DistinctCount(ids);
    var e := Existing(evidence, ids);
    assert e <= Elements(ids);
    if forall id | id in ids :: id in evidence {
      assert e == Elements(ids);
    } else {
      var id :| id in ids && id !in evidence;
      SubsetSize(e, Elements(ids) - {id});
    }
  }

  // ---- publication ----

  /** Events live on in the store unchanged; Evidence is published elsewhere and never withdrawn. */
  datatype State = State(evidence: set<string>, events: map<string, Aggregate>, receipts: map<Key, Receipt>)

  datatype Op =
    | AddEvidence(id: string)
    | Publish(publisher: string, publicationKey: string, input: Input, eventId: string, receiptId: string, now: int)

  predicate ValidName(s: string) { TrimSpace(s) != "" && |TrimSpace(s)| <= 200 }

  function WithStatus(input: Input): Input { if input.status == "" then input.(status := "ACTIVE") else input }

  function KeyOf(op: Op): Key
    requires op.Publish?
  {
    Key(TrimSpace(op.publisher), TrimSpace(op.publicationKey))
  }

  function AfterPublish(r: Rules, s: State, op: Op): Result<State>
    requires op.Publish?
  {
    var input := WithStatus(op.input);
    if !ValidName(op.publisher) || !ValidName(op.publicationKey) || !ValidInput(r, input) then Err(Validation)
    else if KeyOf(op) in s.receipts then
      if s.receipts[KeyOf(op)].payloadHash == PayloadHash(r, input) then Ok(s) else Err(Conflict)
    else if |Existing(s.evidence, EvidenceIDs(input.evidence))| != |input.evidence| then Err(MissingEvidence)
    else if op.eventId in s.events then Err(Persistence)
    else Ok(s.(events := s.events[op.eventId := AggregateOf(op.eventId, input)],
               receipts := s.receipts[KeyOf(op) := Receipt(op.receiptId, PayloadHash(r, input), op.eventId, op.now)]))
  }

  function Outcome(r: Rules, s: State, op: Op): Result<State> {
    match op
    case AddEvidence(id) => Ok(s.(evidence := s.evidence + {id}))
    case _ => AfterPublish(r, s, op)
  }

  function After(r: Rules, s: State, op: Op): State {
    match Outcome(r, s, op)
    case Ok(t) => t
    case Err(_) => s
  }

  function Run(r: Rules, s: State, ops: seq<Op>): State {
    if ops == [] then s else After(r, Run(r, s, ops[..|ops| - 1]), ops[|ops| - 1])
  }

  datatype Publication = Publication(event: Event, evidence: seq<EvidenceLink>, receipt: Receipt, replayed: bool)

  /** What a key's publication is answered with, now and whenever it is replayed. */
  function Answer(s: State, key: Key, replayed: bool): Publication
    requires key in s.receipts && s.receipts[key].eventId in s.events
  {
    var receipt := s.receipts[key];
    Publication(s.events[receipt.eventId].event, s.events[receipt.eventId].evidence, receipt, replayed)
  }

  /** Every receipt names a stored Event, no two name the same, and every link names existing Evidence. */
  ghost predicate Inv(s: State) {
    && (forall k | k in s.receipts :: s.receipts[k].eventId in s.events)
    && (forall k, m | k in s.receipts && m in s.receipts && s.receipts[k].eventId == s.receipts[m].eventId :: k == m)
    && (forall id | id in s.events :: s.events[id].event.id == id
          && forall l | l in s.events[id].evidence :: l.eventId == id && l.evidenceId in s.evidence)
  }

  class UseCase {
    const rules: Rules
    var evidence: set<string>
    var events: map<string, Aggregate>
    var receipts: map<Key, Receipt>

    ghost function Current(): State
      reads this
    {
      State(evidence, events, receipts)
    }

    constructor (rules: Rules)
      ensures this.rules == rules && Current() == State({}, map[], map[])
    {
      this.rules := rules;
      evidence, events, receipts := {}, map[], map[];
    }

    method PublishEvent(publisher: string, publicationKey: string, input: Input, eventId: string, receiptId: string, now: int)
      returns (result: Result<Publication>)
      requires Inv(Current())
      modifies this
      ensures Inv(Current())
      ensures var op := Publish(publisher, publicationKey, input, eventId, receiptId, now);
              && Current() == After(rules, old(Current()), op)
              && match Outcome(rules, old(Current()), op)
                 case Err(e) => result == Err(e)
                 case Ok(_) => KeyOf(op) in Current().receipts && result == Ok(Answer(Current(), KeyOf(op), KeyOf(op) in old(receipts)))
    {
      ghost var op := Publish(publisher, publicationKey, input, eventId, receiptId, now);
      StepKeepsInv(rules, Current(), op);
      hide ValidLinks, TrimSpace, Inv, EvidenceLinks, ActorLinks, AssetLinks;
      assert forall k | k in receipts :: receipts[k].eventId in events by { ReceiptsNameEvents(Current()); }
      var key := Key(TrimSpace(publisher), TrimSpace(publicationKey));
      if !ValidName(publisher) || !ValidName(publicationKey) {
        return Err(Validation);
      }
      var checked := WithStatus(input);
      var linksOk := ValidateLinks(checked);
      if !rules.valid(checked) || !linksOk {
        return Err(Validation);
      }
      var aggregate := BuildAggregate(eventId, checked);
      var receipt := Receipt(receiptId, PayloadHash(rules, checked), eventId, now);
      if key in receipts {
        if receipts[key].payloadHash != receipt.payloadHash {
          return Err(Conflict);
        }
        var stored := receipts[key];
        return Ok(Publication(events[stored.eventId].event, events[stored.eventId].evidence, stored, true));
      }
      var ids := LinkedIDs(checked, eventId, aggregate.evidence);
      if |Existing(evidence, ids)| != |ids| {
        return Err(MissingEvidence);
      }
      if eventId in events {
        return Err(Persistence);
      }
      events := events[eventId := aggregate];
      receipts := receipts[key := receipt];
      return Ok(Publication(aggregate.event, aggregate.evidence, receipt, false));
    }
  }

  lemma ReceiptsNameEvents(s: State)
    requires Inv(s)
    ensures forall k | k in s.receipts :: s.receipts[k].eventId in s.events
  {
  }

  // ---- every run ----

  lemma NewLinksExist(s: State, op: Op, input: Input)
    requires op.Publish? && |Existing(s.evidence, EvidenceIDs(input.evidence))| == |input.evidence|
    ensures forall l | l in EvidenceLinks(op.eventId, input) :: l.eventId == op.eventId && l.evidenceId in s.evidence
  {
    LengthTest(s.evidence, EvidenceIDs(input.evidence));
    forall l | l in EvidenceLinks(op.eventId, input) ensures l.eventId == op.eventId && l.evidenceId in s.evidence {
      var i :| 0 <= i < |input.evidence| && EvidenceLinks(op.eventId, input)[i] == l;
      assert EvidenceIDs(input.evidence)[i] == l.evidenceId;
    }
  }

  lemma StepKeepsInv(r: Rules, s: State, op: Op)
    requires Inv(s)
    ensures Inv(After(r, s, op))
  {
    hide ValidLinks, TrimSpace;
    if op.Publish? && Outcome(r, s, op).Ok? && KeyOf(op) !in s.receipts {
      NewLinksExist(s, op, WithStatus(op.input));
    }
  }

  lemma {:induction false} ReachableInv(r: Rules, s: State, ops: seq<Op>)
    requires Inv(s)
    ensures Inv(Run(r, s, ops))
  {
    if ops != [] {
      ReachableInv(r, s, ops[..|ops| - 1]);
      StepKeepsInv(r, Run(r, s, ops[..|ops| - 1]), ops[|ops| - 1]);
    }
  }

  /** At most one Event per key over every run: receipt, Event and links stay what they were. */
  lemma {:induction false} RunImmutable(r: Rules, s: State, ops: seq<Op>, key: Key)
    requires Inv(s) && key in s.receipts
    ensures var t := Run(r, s, ops);
            && key in t.receipts && t.receipts[key] == s.receipts[key]
            && t.receipts[key].eventId in t.events && t.events[t.receipts[key].eventId] == s.events[s.receipts[key].eventId]
  {
    hide ValidLinks, TrimSpace;
    if ops != [] {
      RunImmutable(r, s, ops[..|ops| - 1], key);
      ReachableInv(r, s, ops[..|ops| - 1]);
    }
  }

  /** Every Event was published under a key. */
  ghost predicate Receipted(s: State) { forall id | id in s.events :: exists k | k in s.receipts :: s.receipts[k].eventId == id }

  lemma StepKeepsReceipted(r: Rules, s: State, op: Op)
    requires Receipted(s)
    ensures Receipted(After(r, s, op))
  {
    hide ValidInput, ValidName, TrimSpace, AggregateOf, Existing, EvidenceIDs;
    var t := After(r, s, op);
    forall id | id in t.events ensures exists k | k in t.receipts :: t.receipts[k].eventId == id {
      if id in s.events {
        var k :| k in s.receipts && s.receipts[k].eventId == id;
        assert t.receipts[k] == s.receipts[k];
      } else {
        assert t.receipts[KeyOf(op)].eventId == id;
      }
    }
  }

  /** Over every run of publications receipts and Events correspond one to one: each Event has exactly one key. */
  lemma {:induction false} OneKeyPerEvent(r: Rules, s: State, ops: seq<Op>)
    requires Inv(s) && Receipted(s)
    ensures var t := Run(r, s, ops);
            && Receipted(t) && (forall k | k in t.receipts :: t.receipts[k].eventId in t.events)
            && forall k, m | k in t.receipts && m in t.receipts && t.receipts[k].eventId == t.receipts[m].eventId :: k == m
  {
    ReachableInv(r, s, ops);
    if ops != [] {
      OneKeyPerEvent(r, s, ops[..|ops| - 1]);
      StepKeepsReceipted(r, Run(r, s, ops[..|ops| - 1]), ops[|ops| - 1]);
    }
    hide Receipted, After;
  }

  lemma FirstPublication(r: Rules, s: State, op: Op)
    requires Inv(s) && op.Publish? && KeyOf(op) !in s.receipts && Outcome(r, s, op).Ok?
    ensures var t := After(r, s, op); var input := WithStatus(op.input);
            && t.receipts.Keys == s.receipts.Keys + {KeyOf(op)} && t.events.Keys == s.events.Keys + {op.eventId}
            && op.eventId !in s.events
            && t.receipts[KeyOf(op)] == Receipt(op.receiptId, PayloadHash(r, input), op.eventId, op.now)
            && t.events[op.eventId] == AggregateOf(op.eventId, input)
  {
    hide ValidLinks, TrimSpace;
  }

  /** A first publication under a key is accepted exactly when both names are there and not too long, the status is one of
    three or absent, at least one Evidence is linked, every linked Evidence exists and is linked once with a weight from 0 to
    1, every actor has one of four relations and no relation twice, no asset is linked twice, the fields are valid and the
    new id is free. */
  lemma PublishedIff(r: Rules, s: State, op: Op)
    requires op.Publish? && Key(TrimSpace(op.publisher), TrimSpace(op.publicationKey)) !in s.receipts
    ensures var e, publisher, key := op.input, TrimSpace(op.publisher), TrimSpace(op.publicationKey);
            Outcome(r, s, op).Ok? <==>
              && 1 <= |publisher| <= 200 && 1 <= |key| <= 200
              && e.status in {"", "ACTIVE", "DEPRECATED", "ARCHIVED"}
              && r.valid(if e.status == "" then e.(status := "ACTIVE") else e)
              && e.evidence != []
              && (forall i | 0 <= i < |e.evidence| ::
                    && Is(e.evidence[i].evidenceId, "EVD") && e.evidence[i].evidenceId in s.evidence
                    && 0.0 <= e.evidence[i].weight <= 1.0
                    && forall j | 0 <= j < i :: e.evidence[j].evidenceId != e.evidence[i].evidenceId)
              && (forall i | 0 <= i < |e.actors| ::
                    && e.actors[i].relation in {"MENTIONS", "AFFECTS", "ORIGINATES_FROM", "TARGETS"}
                    && forall j | 0 <= j < i :: e.actors[j].actorId != e.actors[i].actorId || e.actors[j].relation != e.actors[i].relation)
              && (forall i, j | 0 <= j < i < |e.assets| :: e.assets[j].assetId != e.assets[i].assetId)
              && op.eventId !in s.events
  {
    var input := WithStatus(op.input);
    LengthTest(s.evidence, EvidenceIDs(input.evidence));
    EvidenceThere(s, input);
    hide Existing, TrimSpace, Is, AggregateOf, PayloadHash, Distinct;
    LinksValid(input);
    hide ValidLinks;
  }

  lemma EvidenceThere(s: State, input: Input)
    ensures (forall id | id in EvidenceIDs(input.evidence) :: id in s.evidence) <==>
            forall i | 0 <= i < |input.evidence| :: input.evidence[i].evidenceId in s.evidence
  {
    forall i | 0 <= i < |input.evidence| ensures input.evidence[i].evidenceId in EvidenceIDs(input.evidence) {
      assert EvidenceIDs(input.evidence)[i] == input.evidence[i].evidenceId;
    }
  }

  lemma LinksValid(e: Input)
    ensures Distinct(EvidenceIDs(e.evidence)) <==>
            forall i, j | 0 <= j < i < |e.evidence| :: e.evidence[j].evidenceId != e.evidence[i].evidenceId
    ensures ValidLinks(e) <==>
              && e.status in {"ACTIVE", "DEPRECATED", "ARCHIVED"} && e.evidence != []
              && (forall i | 0 <= i < |e.evidence| ::
                    && Is(e.evidence[i].evidenceId, "EVD") && 0.0 <= e.evidence[i].weight <= 1.0
                    && forall j | 0 <= j < i :: e.evidence[j].evidenceId != e.evidence[i].evidenceId)
              && (forall i | 0 <= i < |e.actors| ::
                    && e.actors[i].relation in {"MENTIONS", "AFFECTS", "ORIGINATES_FROM", "TARGETS"}
                    && forall j | 0 <= j < i :: e.actors[j].actorId != e.actors[i].actorId || e.actors[j].relation != e.actors[i].relation)
              && (forall i, j | 0 <= j < i < |e.assets| :: e.assets[j].assetId != e.assets[i].assetId)
  {
    hide Is;
    assert forall i | 0 <= i < |e.evidence| :: EvidenceIDs(e.evidence)[i] == e.evidence[i].evidenceId && e.evidence[i] in e.evidence;
    assert forall i | 0 <= i < |e.assets| :: AssetIDs(e.assets)[i] == e.assets[i].assetId;
    assert forall i | 0 <= i < |e.actors| :: e.actors[i] in e.actors;
  }

  /** What a first publication stores: the Event with the submitted content, active unless another status is given, one
    link for each submitted one in the submitted order, and a receipt under the trimmed key. */
  lemma StoredEvent(r: Rules, s: State, op: Op)
    requires Inv(s) && op.Publish? && KeyOf(op) !in s.receipts && Outcome(r, s, op).Ok?
    ensures var t, e := After(r, s, op), op.input;
            && var status := if e.status == "" then "ACTIVE" else e.status;
            && var key := Key(TrimSpace(op.publisher), TrimSpace(op.publicationKey));
            && op.eventId in t.events && key in t.receipts
            && t.receipts[key] == Receipt(op.receiptId, r.digest(r.payload(e.(status := status))), op.eventId, op.now)
            && var a := t.events[op.eventId];
            && a.event == Event(op.eventId, e.content, status)
            && |a.evidence| == |e.evidence| && |a.actors| == |e.actors| && |a.assets| == |e.assets|
            && (forall i | 0 <= i < |e.evidence| ::
                  a.evidence[i] == EvidenceLink(op.eventId, e.evidence[i].evidenceId, e.evidence[i].weight))
            && (forall i | 0 <= i < |e.actors| :: a.actors[i] == ActorLink(op.eventId, e.actors[i]))
            && (forall i | 0 <= i < |e.assets| :: a.assets[i] == AssetLink(op.eventId, e.assets[i]))
  {
    FirstPublication(r, s, op);
    hide ValidLinks, TrimSpace, Outcome, After, Inv;
  }

  /** In every later state a valid publication under a used key changes nothing; it is answered with the original
    Event and links exactly when its payload text is the original one, and refused otherwise. */
  lemma LaterPublication(r: Rules, s: State, first: Op, ops: seq<Op>, later: Op)
    requires Inv(s) && first.Publish? && KeyOf(first) !in s.receipts && Outcome(r, s, first).Ok?
    requires later.Publish? && KeyOf(later) == KeyOf(first)
    requires ValidName(later.publisher) && ValidName(later.publicationKey) && ValidInput(r, WithStatus(later.input))
    requires NoDigestCollision(r, WithStatus(later.input), WithStatus(first.input))
    ensures var t := Run(r, After(r, s, first), ops); var key := KeyOf(first);
            && After(r, t, later) == t
            && (Outcome(r, t, later).Ok? <==> r.payload(WithStatus(later.input)) == r.payload(WithStatus(first.input)))
            && (Outcome(r, t, later).Err? ==> Outcome(r, t, later) == Err(Conflict))
            && key in t.receipts && t.receipts[key].eventId in t.events
            && Answer(t, key, true).event == AggregateOf(first.eventId, WithStatus(first.input)).event
            && Answer(t, key, true).evidence == EvidenceLinks(first.eventId, WithStatus(first.input))
            && Answer(t, key, true).receipt.id == first.receiptId
  {
    FirstPublication(r, s, first);
    StepKeepsInv(r, s, first);
    RunImmutable(r, After(r, s, first), ops, KeyOf(first));
    hide ValidLinks, TrimSpace, Run, Inv, ValidName;
  }
}
