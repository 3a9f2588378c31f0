/** Evidence scopes of a version 4 report: the typed traversal and the generic tree walk. */
module EvidenceScopes {
  import opened Json
  import opened Decimal
  import opened ReportModel
  import CanonicalForm
  import CanonicalPrinters

  /** A path is a list of segments; its text joins them with slashes. */
  type Path = seq<string>

  datatype Scope = Scope(path: Path, ids: seq<string>)

  datatype TextScope = TextScope(path: string, ids: seq<string>)

  function Text(path: Path): string {
    if path == [] then "" else if |path| == 1 then path[0] else Text(path[..|path| - 1]) + "/" + path[|path| - 1]
  }

  function Texts(scopes: seq<Scope>): (t: seq<TextScope>)
    ensures |t| == |scopes|
  {
    seq(|scopes|, i requires 0 <= i < |scopes| => TextScope(Text(scopes[i].path), scopes[i].ids))
  }

  lemma TextsConcat(a: seq<Scope>, b: seq<Scope>)
    ensures Texts(a + b) == Texts(a) + Texts(b)
  {
  }

  lemma AddedTwo(scopes: seq<TextScope>, a: seq<Scope>, b: seq<Scope>)
    ensures scopes + Texts(a) + Texts(b) == scopes + Texts(a + b)
  {
    TextsConcat(a, b);
  }

  lemma TextStep(path: Path, k: string)
    requires path != []
    ensures Text(path + [k]) == Text(path) + "/" + k
  {
    assert (path + [k])[..|path|] == path;
  }

  lemma TextTwo(path: Path, k: string, l: string)
    requires path != []
    ensures Text(path + [k, l]) == Text(path) + "/" + k + "/" + l
  {
    assert path + [k, l] == path + [k] + [l];
    TextStep(path, k);
    TextStep(path + [k], l);
  }

  datatype Report = Report(
    geopolitical: seq<Unit>, macroeconomic: seq<Unit>, concepts: seq<Unit>, observations: seq<Observation>)

  // ---- the JSON tree of a report ----

  function IdsJson(ids: seq<string>): JSON { Arr(seq(|ids|, i requires 0 <= i < |ids| => Str(ids[i]))) }

  function ClaimJson(c: Claim): JSON {
    Obj(map["text" := Str(c.text), "basis" := Str(c.basis), "evidence_ids" := IdsJson(c.evidenceIds)])
  }

  function ClaimsJson(claims: seq<Claim>): JSON { Arr(seq(|claims|, i requires 0 <= i < |claims| => ClaimJson(claims[i]))) }

  function ObjectionsJson(o: Objections): JSON {
    Obj(map["counterevidence_status" := Str(o.status), "counterevidence" := ClaimsJson(o.counterevidence), "buffers" := ClaimsJson(o.buffers)])
  }

  function AssessmentJson(a: Assessment): JSON {
    Obj(map["conclusion" := Str(a.conclusion), "transmission_logic" := Str(a.transmissionLogic), "evidence_ids" := IdsJson(a.evidenceIds)])
  }

  function MacroJson(m: Macro): JSON {
    Obj(map["local_key" := Str(m.localKey), "source_id" := Str(m.sourceId), "name" := Str(m.name),
            "assessment" := AssessmentJson(m.assessment), "objections" := ObjectionsJson(m.objections)])
  }

  function NodeJson(n: Node): JSON {
    Obj(map["local_key" := Str(n.localKey), "source_id" := Str(n.sourceId), "node_local_key" := Str(n.nodeLocalKey), "name" := Str(n.name),
            "assessment" := AssessmentJson(n.assessment), "objections" := ObjectionsJson(n.objections)])
  }

  function NodesJson(nodes: seq<Node>): JSON { Arr(seq(|nodes|, i requires 0 <= i < |nodes| => NodeJson(nodes[i]))) }

  function GraphNodeJson(n: GraphNode): JSON {
    Obj(map["local_key" := Str(n.localKey), "source_id" := Str(n.sourceId), "name" := Str(n.name)])
  }

  function EdgeJson(e: Edge): JSON {
    Obj(map["from_node_local_key" := Str(e.source), "to_node_local_key" := Str(e.target), "relation_label" := Str(e.relation)])
  }

  function GraphJson(g: Graph): JSON {
    Obj(map["nodes" := Arr(seq(|g.nodes|, i requires 0 <= i < |g.nodes| => GraphNodeJson(g.nodes[i]))),
            "edges" := Arr(seq(|g.edges|, i requires 0 <= i < |g.edges| => EdgeJson(g.edges[i])))])
  }

  function ChainSummaryJson(s: ChainSummary): JSON {
    Obj(map["logic" := Str(s.logic), "support" := ClaimJson(s.support), "objections" := ObjectionsJson(s.objections)])
  }

  function ChainJson(c: Chain): JSON {
    Obj(map["local_key" := Str(c.localKey), "source_id" := Str(c.sourceId), "name" := Str(c.name),
            "assessment" := AssessmentJson(c.assessment), "reasoning_summary" := ChainSummaryJson(c.summary),
            "graph" := GraphJson(c.graph), "affected_nodes" := NodesJson(c.nodes)])
  }

  function ReasoningSummaryJson(s: ReasoningSummary): JSON {
    var always := map["logic" := Str(s.logic), "objections" := ObjectionsJson(s.objections)];
    Obj(if s.support.Some? then always["support" := ClaimJson(s.support.value)] else always)
  }

  function MetricJson(m: Metric): JSON { Obj(map["name" := Str(m.name), "evidence_ids" := IdsJson(m.evidenceIds)]) }

  function MetricNodeJson(n: MetricNode): JSON {
    Obj(map["local_key" := Str(n.localKey), "name" := Str(n.name),
            "metrics" := Arr(seq(|n.metrics|, i requires 0 <= i < |n.metrics| => MetricJson(n.metrics[i])))])
  }

  function BlockJson(b: Block): JSON {
    Obj(map["local_key" := Str(b.localKey), "title" := Str(b.title), "relation_type" := Str(if b.causal then "causal" else "comparison"),
            "nodes" := Arr(seq(|b.nodes|, i requires 0 <= i < |b.nodes| => MetricNodeJson(b.nodes[i]))),
            "links" := Arr(seq(|b.links|, i requires 0 <= i < |b.links| => EdgeJson(b.links[i])))])
  }

  function ReasoningJson(r: Reasoning): JSON {
    var always := map["local_key" := Str(r.localKey), "source_id" := Str(r.sourceId), "title" := Str(r.title),
                      "assessment" := AssessmentJson(r.assessment), "reasoning_summary" := ReasoningSummaryJson(r.summary),
                      "reasoning_blocks" := Arr(seq(|r.blocks|, i requires 0 <= i < |r.blocks| => BlockJson(r.blocks[i]))),
                      "affected_assets" := NodesJson(r.assets)];
    Obj(if r.graph.Some? then always["graph" := GraphJson(r.graph.value)] else always)
  }

  function MacrosJson(macros: seq<Macro>): JSON { Arr(seq(|macros|, i requires 0 <= i < |macros| => MacroJson(macros[i]))) }

  function ChainsJson(chains: seq<Chain>): JSON { Arr(seq(|chains|, i requires 0 <= i < |chains| => ChainJson(chains[i]))) }

  function ReasoningsJson(reasonings: seq<Reasoning>): JSON {
    Arr(seq(|reasonings|, i requires 0 <= i < |reasonings| => ReasoningJson(reasonings[i])))
  }

  /** The archived wire shape: the two older lists are always written unless there are reasonings. */
  function DetailJson(d: Detail): JSON {
    var older := map["macro_impacts" := MacrosJson(d.macros), "industry_chains" := ChainsJson(d.chains)];
    if d.reasonings == [] then Obj(older)
    else Obj((map k | k in older && k in Written(d) :: older[k])["reasonings" := ReasoningsJson(d.reasonings)])
  }

  /** With reasonings, empty older lists are omitted. */
  function Written(d: Detail): set<string> {
    (if d.macros != [] then {"macro_impacts"} else {}) + (if d.chains != [] then {"industry_chains"} else {})
  }

  function RefJson(r: Ref): JSON {
    if r.reasoningLocalKey != "" then
      var always := map["reasoning_local_key" := Str(r.reasoningLocalKey), "local_key" := Str(r.localKey)];
      var typed := if r.targetType != "" then always["target_type" := Str(r.targetType)] else always;
      Obj(if r.chainLocalKey.Some? then typed["chain_local_key" := Str(r.chainLocalKey.value)] else typed)
    else
      Obj(map["target_type" := Str(r.targetType), "local_key" := Str(r.localKey),
              "chain_local_key" := if r.chainLocalKey.Some? then Str(r.chainLocalKey.value) else Null])
  }

  function ImpactJson(i: Impact): JSON { Obj(map["level" := Str(i.level), "evidence_ids" := IdsJson(i.evidenceIds)]) }

  function SummaryJson(s: Summary): JSON {
    Obj(map["conclusion" := Str(s.conclusion), "impact_assessment" := ImpactJson(s.impact),
            "affected_refs" := Arr(seq(|s.refs|, i requires 0 <= i < |s.refs| => RefJson(s.refs[i]))),
            "evidence_ids" := IdsJson(s.evidenceIds)])
  }

  function UnitJson(u: Unit): JSON {
    Obj(map["local_key" := Str(u.localKey), "source_id" := Str(u.sourceId), "title" := Str(u.title),
            "summary" := SummaryJson(u.summary), "detail" := DetailJson(u.detail)])
  }

  function UnitsJson(units: seq<Unit>): JSON { Arr(seq(|units|, i requires 0 <= i < |units| => UnitJson(units[i]))) }

  function ObservationJson(o: Observation): JSON {
    Obj(map["local_key" := Str(o.localKey), "text" := Str(o.text), "evidence_ids" := IdsJson(o.evidenceIds)])
  }

  function ObservationsJson(os: seq<Observation>): JSON { Arr(seq(|os|, i requires 0 <= i < |os| => ObservationJson(os[i]))) }

  /** A report without signal fields, as it is written to JSON. */
  function ReportJson(r: Report): JSON {
    Obj(map["schema_version" := Str("report-publication/v4"),
            "geopolitical_stories" := UnitsJson(r.geopolitical), "macroeconomic_stories" := UnitsJson(r.macroeconomic),
            "concept_analyses" := UnitsJson(r.concepts), "observations" := ObservationsJson(r.observations)])
  }

  // ---- the typed traversal ----

  function IdsScope(p: Path, ids: seq<string>): seq<Scope> { [Scope(p + ["evidence_ids"], ids)] }

  function ClaimScopes(p: Path, claims: seq<Claim>): (s: seq<Scope>)
    ensures |s| == |claims|
  {
    seq(|claims|, i requires 0 <= i < |claims| => Scope(p + [NatText(i), "evidence_ids"], claims[i].evidenceIds))
  }

  function ObjectionScopes(p: Path, o: Objections): seq<Scope> {
    ClaimScopes(p + ["counterevidence"], o.counterevidence) + ClaimScopes(p + ["buffers"], o.buffers)
  }

  function JudgedScopes(p: Path, a: Assessment, o: Objections): seq<Scope> {
    IdsScope(p + ["assessment"], a.evidenceIds) + ObjectionScopes(p + ["objections"], o)
  }

  function MacroScopes(p: Path, macros: seq<Macro>): seq<Scope> {
    if macros == [] then []
    else
      var m := macros[|macros| - 1];
      MacroScopes(p, macros[..|macros| - 1]) + JudgedScopes(p + [m.localKey], m.assessment, m.objections)
  }

  function NodeScopes(p: Path, nodes: seq<Node>): seq<Scope> {
    if nodes == [] then []
    else
      var n := nodes[|nodes| - 1];
      NodeScopes(p, nodes[..|nodes| - 1]) + JudgedScopes(p + [n.localKey], n.assessment, n.objections)
  }

  function ChainSummaryScopes(p: Path, s: ChainSummary): seq<Scope> {
    IdsScope(p + ["support"], s.support.evidenceIds) + ObjectionScopes(p + ["objections"], s.objections)
  }

  function OneChainScopes(p: Path, c: Chain): seq<Scope> {
    IdsScope(p + ["assessment"], c.assessment.evidenceIds) + ChainSummaryScopes(p + ["reasoning_summary"], c.summary)
    + NodeScopes(p + ["affected_nodes"], c.nodes)
  }

  function ChainScopes(p: Path, chains: seq<Chain>): seq<Scope> {
    if chains == [] then []
    else ChainScopes(p, chains[..|chains| - 1]) + OneChainScopes(p + [chains[|chains| - 1].localKey], chains[|chains| - 1])
  }

  function SummaryScopes(p: Path, s: Summary): seq<Scope> {
    IdsScope(p, s.evidenceIds) + IdsScope(p + ["impact_assessment"], s.impact.evidenceIds)
  }

  function DetailScopes(p: Path, d: Detail): seq<Scope> {
    MacroScopes(p + ["macro_impacts"], d.macros) + ChainScopes(p + ["industry_chains"], d.chains)
  }

  function OneUnitScopes(p: Path, u: Unit): seq<Scope> { SummaryScopes(p + ["summary"], u.summary) + DetailScopes(p + ["detail"], u.detail) }

  function UnitScopes(p: Path, units: seq<Unit>): seq<Scope> {
    if units == [] then []
    else UnitScopes(p, units[..|units| - 1]) + OneUnitScopes(p + [units[|units| - 1].localKey], units[|units| - 1])
  }

  function ObservationScopes(p: Path, os: seq<Observation>): (s: seq<Scope>)
    ensures |s| == |os|
  {
    seq(|os|, i requires 0 <= i < |os| => Scope(p + [os[i].localKey, "evidence_ids"], os[i].evidenceIds))
  }

  function TypedScopes(r: Report): seq<Scope> {
    UnitScopes(["geopolitical_stories"], r.geopolitical) + UnitScopes(["macroeconomic_stories"], r.macroeconomic)
    + UnitScopes(["concept_analyses"], r.concepts) + ObservationScopes(["observations"], r.observations)
  }

  // ---- the typed traversal as code: it joins path texts as it goes ----

  method AddIds(scopes: seq<TextScope>, ghost p: Path, text: string, ids: seq<string>) returns (r: seq<TextScope>)
    requires p != [] && text == Text(p)
    ensures r == scopes + Texts(IdsScope(p, ids))
  {
    TextStep(p, "evidence_ids");
    r := scopes + [TextScope(text + "/" + "evidence_ids", ids)];
  }

  method AddClaims(scopes: seq<TextScope>, ghost p: Path, text: string, claims: seq<Claim>) returns (r: seq<TextScope>)
    requires p != [] && text == Text(p)
    ensures r == scopes + Texts(ClaimScopes(p, claims))
  {
    r := scopes;
    for i := 0 to |claims|
      invariant r == scopes + Texts(ClaimScopes(p, claims))[..i]
    {
      TextTwo(p, NatText(i), "evidence_ids");
      r := r + [TextScope(text + "/" + NatText(i) + "/" + "evidence_ids", claims[i].evidenceIds)];
    }
  }

  method AddObjections(scopes: seq<TextScope>, ghost p: Path, text: string, o: Objections) returns (r: seq<TextScope>)
    requires p != [] && text == Text(p)
    ensures r == scopes + Texts(ObjectionScopes(p, o))
  {
    TextStep(p, "counterevidence");
    TextStep(p, "buffers");
    r := AddClaims(scopes, p + ["counterevidence"], text + "/" + "counterevidence", o.counterevidence);
    r := AddClaims(r, p + ["buffers"], text + "/" + "buffers", o.buffers);
    hide Text, ClaimScopes;
    TextsConcat(ClaimScopes(p + ["counterevidence"], o.counterevidence), ClaimScopes(p + ["buffers"], o.buffers));
  }

  method AddJudged(scopes: seq<TextScope>, ghost p: Path, text: string, a: Assessment, o: Objections) returns (r: seq<TextScope>)
    requires p != [] && text == Text(p)
    ensures r == scopes + Texts(JudgedScopes(p, a, o))
  {
    TextStep(p, "assessment");
    TextStep(p, "objections");
    r := AddIds(scopes, p + ["assessment"], text + "/" + "assessment", a.evidenceIds);
    r := AddObjections(r, p + ["objections"], text + "/" + "objections", o);
    hide Text, IdsScope, ObjectionScopes;
    TextsConcat(IdsScope(p + ["assessment"], a.evidenceIds), ObjectionScopes(p + ["objections"], o));
  }

  method AddMacros(scopes: seq<TextScope>, ghost p: Path, text: string, macros: seq<Macro>) returns (r: seq<TextScope>)
    requires p != [] && text == Text(p)
    ensures r == scopes + Texts(MacroScopes(p, macros))
  {
    hide JudgedScopes, Text;
    r := scopes;
    for i := 0 to |macros|
      invariant r == scopes + Texts(MacroScopes(p, macros[..i]))
    {
      var m := macros[i];
      TextStep(p, m.localKey);
      r := AddJudged(r, p + [m.localKey], text + "/" + m.localKey, m.assessment, m.objections);
      assert macros[..i + 1][..i] == macros[..i];
      TextsConcat(MacroScopes(p, macros[..i]), JudgedScopes(p + [m.localKey], m.assessment, m.objections));
    }
    assert macros[..|macros|] == macros;
  }

  method AddNodes(scopes: seq<TextScope>, ghost p: Path, text: string, nodes: seq<Node>) returns (r: seq<TextScope>)
    requires p != [] && text == Text(p)
    ensures r == scopes + Texts(NodeScopes(p, nodes))
  {
    hide JudgedScopes, Text;
    r := scopes;
    for i := 0 to |nodes|
      invariant r == scopes + Texts(NodeScopes(p, nodes[..i]))
    {
      var n := nodes[i];
      TextStep(p, n.localKey);
      r := AddJudged(r, p + [n.localKey], text + "/" + n.localKey, n.assessment, n.objections);
      assert nodes[..i + 1][..i] == nodes[..i];
      TextsConcat(NodeScopes(p, nodes[..i]), JudgedScopes(p + [n.localKey], n.assessment, n.objections));
    }
    assert nodes[..|nodes|] == nodes;
  }

  method AddChainSummary(scopes: seq<TextScope>, ghost p: Path, text: string, s: ChainSummary) returns (r: seq<TextScope>)
    requires p != [] && text == Text(p)
    ensures r == scopes + Texts(ChainSummaryScopes(p, s))
  {
    TextStep(p, "support");
    TextStep(p, "objections");
    r := AddIds(scopes, p + ["support"], text + "/" + "support", s.support.evidenceIds);
    r := AddObjections(r, p + ["objections"], text + "/" + "objections", s.objections);
    hide Text, IdsScope, ObjectionScopes;
    TextsConcat(IdsScope(p + ["support"], s.support.evidenceIds), ObjectionScopes(p + ["objections"], s.objections));
  }

  method AddChain(scopes: seq<TextScope>, ghost p: Path, text: string, c: Chain) returns (r: seq<TextScope>)
    requires p != [] && text == Text(p)
    ensures r == scopes + Texts(OneChainScopes(p, c))
  {
    TextStep(p, "assessment");
    TextStep(p, "reasoning_summary");
    TextStep(p, "affected_nodes");
    r := AddIds(scopes, p + ["assessment"], text + "/" + "assessment", c.assessment.evidenceIds);
    r := AddChainSummary(r, p + ["reasoning_summary"], text + "/" + "reasoning_summary", c.summary);
    r := AddNodes(r, p + ["affected_nodes"], text + "/" + "affected_nodes", c.nodes);
    hide Text, IdsScope, ChainSummaryScopes, NodeScopes, Texts;
    ghost var x, y, z := IdsScope(p + ["assessment"], c.assessment.evidenceIds), ChainSummaryScopes(p + ["reasoning_summary"], c.summary),
      NodeScopes(p + ["affected_nodes"], c.nodes);
    AddedTwo(scopes, x, y);
    AddedTwo(scopes, x + y, z);
  }

  method AddChains(scopes: seq<TextScope>, ghost p: Path, text: string, chains: seq<Chain>) returns (r: seq<TextScope>)
    requires p != [] && text == Text(p)
    ensures r == scopes + Texts(ChainScopes(p, chains))
  {
    hide OneChainScopes, Text;
    r := scopes;
    for i := 0 to |chains|
      invariant r == scopes + Texts(ChainScopes(p, chains[..i]))
    {
      var c := chains[i];
      TextStep(p, c.localKey);
      r := AddChain(r, p + [c.localKey], text + "/" + c.localKey, c);
      assert chains[..i + 1][..i] == chains[..i];
      TextsConcat(ChainScopes(p, chains[..i]), OneChainScopes(p + [c.localKey], c));
    }
    assert chains[..|chains|] == chains;
  }

  method AddSummary(scopes: seq<TextScope>, ghost p: Path, text: string, s: Summary) returns (r: seq<TextScope>)
    requires p != [] && text == Text(p)
    ensures r == scopes + Texts(SummaryScopes(p, s))
  {
    TextStep(p, "impact_assessment");
    r := AddIds(scopes, p, text, s.evidenceIds);
    r := AddIds(r, p + ["impact_assessment"], text + "/" + "impact_assessment", s.impact.evidenceIds);
    hide Text, IdsScope, Texts;
    AddedTwo(scopes, IdsScope(p, s.evidenceIds), IdsScope(p + ["impact_assessment"], s.impact.evidenceIds));
  }

  method AddDetail(scopes: seq<TextScope>, ghost p: Path, text: string, d: Detail) returns (r: seq<TextScope>)
    requires p != [] && text == Text(p)
    ensures r == scopes + Texts(DetailScopes(p, d))
  {
    TextStep(p, "macro_impacts");
    TextStep(p, "industry_chains");
    r := AddMacros(scopes, p + ["macro_impacts"], text + "/" + "macro_impacts", d.macros);
    r := AddChains(r, p + ["industry_chains"], text + "/" + "industry_chains", d.chains);
    hide Text, MacroScopes, ChainScopes, Texts;
    AddedTwo(scopes, MacroScopes(p + ["macro_impacts"], d.macros), ChainScopes(p + ["industry_chains"], d.chains));
  }

  method AddUnit(scopes: seq<TextScope>, ghost p: Path, text: string, u: Unit) returns (r: seq<TextScope>)
    requires p != [] && text == Text(p)
    ensures r == scopes + Texts(OneUnitScopes(p, u))
  {
    TextStep(p, "summary");
    TextStep(p, "detail");
    r := AddSummary(scopes, p + ["summary"], text + "/" + "summary", u.summary);
    r := AddDetail(r, p + ["detail"], text + "/" + "detail", u.detail);
    hide Text, SummaryScopes, DetailScopes, Texts;
    AddedTwo(scopes, SummaryScopes(p + ["summary"], u.summary), DetailScopes(p + ["detail"], u.detail));
  }

  method AddUnits(scopes: seq<TextScope>, kind: string, units: seq<Unit>) returns (r: seq<TextScope>)
    ensures r == scopes + Texts(UnitScopes([kind], units))
  {
    hide OneUnitScopes;
    r := scopes;
    for i := 0 to |units|
      invariant r == scopes + Texts(UnitScopes([kind], units[..i]))
    {
      var u := units[i];
      TextStep([kind], u.localKey);
      r := AddUnit(r, [kind] + [u.localKey], kind + "/" + u.localKey, u);
      assert units[..i + 1][..i] == units[..i];
      TextsConcat(UnitScopes([kind], units[..i]), OneUnitScopes([kind] + [u.localKey], u));
    }
    assert units[..|units|] == units;
  }

  method AddObservations(scopes: seq<TextScope>, os: seq<Observation>) returns (r: seq<TextScope>)
    ensures r == scopes + Texts(ObservationScopes(["observations"], os))
  {
    r := scopes;
    for i := 0 to |os|
      invariant r == scopes + Texts(ObservationScopes(["observations"], os))[..i]
    {
      TextTwo(["observations"], os[i].localKey, "evidence_ids");
      assert Text(["observations"]) == "observations";
      r := r + [TextScope("observations" + "/" + os[i].localKey + "/" + "evidence_ids", os[i].evidenceIds)];
    }
  }

  /** `NormalizedEvidenceScopes` of a version 4 report. */
  method NormalizedEvidenceScopes(r: Report) returns (scopes: seq<TextScope>)
    ensures scopes == Texts(TypedScopes(r))
  {
    hide UnitScopes, ObservationScopes;
    scopes := [];
    scopes := AddUnits(scopes, "geopolitical_stories", r.geopolitical);
    scopes := AddUnits(scopes, "macroeconomic_stories", r.macroeconomic);
    scopes := AddUnits(scopes, "concept_analyses", r.concepts);
    scopes := AddObservations(scopes, r.observations);
    ghost var a, b, c, d := UnitScopes(["geopolitical_stories"], r.geopolitical), UnitScopes(["macroeconomic_stories"], r.macroeconomic),
      UnitScopes(["concept_analyses"], r.concepts), ObservationScopes(["observations"], r.observations);
    TextsConcat(a, b);
    TextsConcat(a + b, c);
    TextsConcat(a + b + c, d);
    assert [] + Texts(a) == Texts(a);
  }

  // ---- the tree walk ----

  /** The path segment of an array element: its local key, or its position. */
  function Segment(items: seq<JSON>, i: nat): string
    requires i < |items|
  {
    if items[i].Obj? && "local_key" in items[i].fields && items[i].fields["local_key"].Str? then items[i].fields["local_key"].s else NatText(i)
  }

  function StringsOf(items: seq<JSON>): seq<string> {
    seq(|items|, i requires 0 <= i < |items| => if items[i].Str? then items[i].s else "")
  }

  predicate HasIds(fields: map<string, JSON>) { "evidence_ids" in fields && fields["evidence_ids"].Arr? }

  ghost function WalkScopes(v: JSON, p: Path): seq<Scope>
    decreases v, 2
  {
    if v.Obj? then
      (if HasIds(v.fields) then IdsScope(p, StringsOf(v.fields["evidence_ids"].items)) else [])
      + WalkFields(v, CanonicalForm.SortedKeys(CanonicalForm.Utf8Order, v.fields.Keys), p)
    else if v.Arr? then WalkItems(v, |v.items|, p)
    else []
  }

  /** The members named by `keys`, in that order. */
  ghost function WalkFields(v: JSON, keys: seq<string>, p: Path): seq<Scope>
    requires v.Obj? && forall k | k in keys :: k in v.fields
    decreases v, 1, |keys|
  {
    if keys == [] then []
    else
      var k := keys[|keys| - 1];
      assert k in keys;
      WalkFields(v, keys[..|keys| - 1], p) + WalkScopes(v.fields[k], p + [k])
  }

  ghost function WalkItems(v: JSON, n: nat, p: Path): seq<Scope>
    requires v.Arr? && n <= |v.items|
    decreases v, 1, n
  {
    if n == 0 then [] else WalkItems(v, n - 1, p) + WalkScopes(v.items[n - 1], p + [Segment(v.items, n - 1)])
  }

  /** In the walk every segment follows a slash, and the leading one is trimmed at the end. */
  function Rooted(p: Path): string { if p == [] then "" else "/" + Text(p) }

  lemma RootedStep(p: Path, k: string)
    ensures Rooted(p + [k]) == Rooted(p) + "/" + k
  {
    if p == [] {
      assert [] + [k] == [k];
    } else {
      TextStep(p, k);
    }
  }

  /** `strings.TrimPrefix` with a slash. */
  function TrimSlash(s: string): string { if s != "" && s[0] == '/' then s[1..] else s }

  method Walk(v: JSON, ghost p: Path, text: string) returns (r: seq<TextScope>)
    requires text == Rooted(p)
    ensures r == Texts(WalkScopes(v, p))
    decreases v, 2
  {
    match v {
      case Obj(fields) => r := WalkObject(v, p, text);
      case Arr(items) => r := WalkArray(v, p, text);
      case _ => r := [];
    }
  }

  method WalkObject(v: JSON, ghost p: Path, text: string) returns (r: seq<TextScope>)
    requires v.Obj? && text == Rooted(p)
    ensures r == Texts(WalkScopes(v, p))
    decreases v, 1
  {
    r := [];
    ghost var own: seq<Scope> := [];
    if HasIds(v.fields) {
      var ids := StringsOf(v.fields["evidence_ids"].items);
      own := IdsScope(p, ids);
      TrimmedIds(p, text);
      OneText(p, ids);
      r := [TextScope(TrimSlash(text + "/" + "evidence_ids"), ids)];
    }
    NoTexts();
    hide Rooted, CanonicalForm.SortedKeys, CanonicalForm.InOrder, Text, StringsOf, Texts, IdsScope, TrimSlash;
    var keys := CanonicalPrinters.CollectKeys(CanonicalForm.Utf8Order, v.fields);
    var inner := WalkKeys(v, keys, p, text);
    TextsConcat(own, WalkFields(v, keys, p));
    r := r + inner;
  }

  method WalkKeys(v: JSON, keys: seq<string>, ghost p: Path, text: string) returns (r: seq<TextScope>)
    requires v.Obj? && text == Rooted(p) && forall k :: k in keys <==> k in v.fields
    ensures r == Texts(WalkFields(v, keys, p))
    decreases v, 0
  {
    hide Rooted, Text;
    r := [];
    for i := 0 to |keys|
      invariant r == Texts(WalkFields(v, keys[..i], p))
    {
      var k := keys[i];
      assert k in keys;
      RootedStep(p, k);
      var inner := Walk(v.fields[k], p + [k], text + "/" + k);
      r := r + inner;
      assert keys[..i + 1][..i] == keys[..i];
      hide WalkScopes;
      TextsConcat(WalkFields(v, keys[..i], p), WalkScopes(v.fields[k], p + [k]));
    }
    assert keys[..|keys|] == keys;
  }

  lemma NoTexts()
    ensures Texts([]) == []
  {
  }

  lemma OneText(p: Path, ids: seq<string>)
    ensures Texts(IdsScope(p, ids)) == [TextScope(Text(p + ["evidence_ids"]), ids)]
  {
    hide Text;
  }

  lemma TrimmedIds(p: Path, text: string)
    requires text == Rooted(p)
    ensures TrimSlash(text + "/" + "evidence_ids") == Text(p + ["evidence_ids"])
  {
    RootedStep(p, "evidence_ids");
    TrimmedRoot(Text(p + ["evidence_ids"]));
    assert Rooted(p + ["evidence_ids"]) == "/" + Text(p + ["evidence_ids"]);
    hide *;
  }

  lemma TrimmedRoot(t: string)
    ensures TrimSlash("/" + t) == t
  {
    assert ("/" + t)[1..] == t;
  }

  method WalkArray(v: JSON, ghost p: Path, text: string) returns (r: seq<TextScope>)
    requires v.Arr? && text == Rooted(p)
    ensures r == Texts(WalkScopes(v, p))
    decreases v, 1
  {
    hide Rooted, Segment;
    r := [];
    for i := 0 to |v.items|
      invariant r == Texts(WalkItems(v, i, p))
    {
      var key := Segment(v.items, i);
      RootedStep(p, key);
      var inner := Walk(v.items[i], p + [key], text + "/" + key);
      r := r + inner;
      hide WalkScopes;
      TextsConcat(WalkItems(v, i, p), WalkScopes(v.items[i], p + [key]));
    }
  }

  /** The tree walk over a whole report. */
  method TreeEvidenceScopes(r: Report) returns (scopes: seq<TextScope>)
    ensures scopes == Texts(WalkScopes(ReportJson(r), []))
  {
    scopes := Walk(ReportJson(r), [], "");
  }
}
