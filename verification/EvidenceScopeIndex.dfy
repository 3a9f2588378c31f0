/** The path text of a scope is a key: it names one scope, and counts are taken from that scope alone. */
module EvidenceScopeIndex {
  import opened Json
  import opened Sequences
  import opened Decimal
  import opened ReportModel
  import opened ReportClosure
  import opened EvidenceScopes
  import opened EvidenceScopeAgreement

  // ---- agreement ----

  ghost function TreeScopes(r: Report): seq<Scope> { WalkScopes(ReportJson(r), []) }

  ghost predicate SameScopes(r: Report) { forall s :: s in TypedScopes(r) <==> s in TreeScopes(r) }

  lemma TreeFinds(r: Report, s: Scope)
    ensures s in TreeScopes(r) <==> Found(ReportJson(r), s.path, s.ids)
  {
    WalkFinds(ReportJson(r), [], s);
    assert Below([], s) == s.path;
  }

  lemma Inside(fields: map<string, JSON>, k: string, rest: Path, ids: seq<string>)
    requires k in fields && Found(fields[k], rest, ids)
    ensures Found(Obj(fields), [k] + rest, ids)
  {
    assert ([k] + rest)[1..] == rest;
  }

  lemma InsideItem(items: seq<JSON>, i: nat, rest: Path, ids: seq<string>)
    requires i < |items| && Found(items[i], rest, ids)
    ensures Found(Arr(items), [Segment(items, i)] + rest, ids)
  {
    assert ([Segment(items, i)] + rest)[1..] == rest;
  }

  /** Every reasoning carries an Evidence list of its own. */
  lemma ReasoningFound(r: Reasoning)
    ensures Found(ReasoningJson(r), ["assessment", "evidence_ids"], r.assessment.evidenceIds)
  {
    AssessmentJsonFound(r.assessment, ["evidence_ids"], r.assessment.evidenceIds);
    hide AssessmentJson, ReasoningSummaryJson, BlockJson, NodesJson, GraphJson;
    Inside(ReasoningJson(r).fields, "assessment", ["evidence_ids"], r.assessment.evidenceIds);
    assert ["assessment"] + ["evidence_ids"] == ["assessment", "evidence_ids"];
  }

  lemma ReasoningsFound(d: Detail) returns (rest: Path)
    requires d.reasonings != []
    ensures Found(DetailJson(d), ["reasonings"] + rest, d.reasonings[0].assessment.evidenceIds)
  {
    var r := d.reasonings[0];
    ReasoningFound(r);
    hide ReasoningJson, MacrosJson, ChainsJson, Written;
    InsideItem(ReasoningsJson(d.reasonings).items, 0, ["assessment", "evidence_ids"], r.assessment.evidenceIds);
    rest := [Segment(ReasoningsJson(d.reasonings).items, 0)] + ["assessment", "evidence_ids"];
    hide ReasoningsJson;
    Inside(DetailJson(d).fields, "reasonings", rest, r.assessment.evidenceIds);
  }

  lemma UnitReasoningsFound(units: seq<Unit>, i: nat) returns (rest: Path)
    requires i < |units| && units[i].detail.reasonings != []
    ensures Found(UnitsJson(units), [units[i].localKey] + (["detail"] + (["reasonings"] + rest)), units[i].detail.reasonings[0].assessment.evidenceIds)
  {
    var u := units[i];
    rest := ReasoningsFound(u.detail);
    hide DetailJson, SummaryJson;
    Inside(UnitJson(u).fields, "detail", ["reasonings"] + rest, u.detail.reasonings[0].assessment.evidenceIds);
    assert Segment(UnitsJson(units).items, i) == u.localKey;
    InsideItem(UnitsJson(units).items, i, ["detail"] + (["reasonings"] + rest), u.detail.reasonings[0].assessment.evidenceIds);
  }

  /** The typed traversal never looks below `reasonings`. */
  lemma ReasoningsUnvisited(units: seq<Unit>, key: string, rest: Path, ids: seq<string>)
    ensures !UnitsFound(units, [key] + (["detail"] + (["reasonings"] + rest)), ids)
  {
    var path := [key] + (["detail"] + (["reasonings"] + rest));
    assert path[1..] == ["detail"] + (["reasonings"] + rest);
    assert path[1..][1..] == ["reasonings"] + rest;
    hide SummaryFound, MacrosFound, ChainsFound;
    forall u ensures !UnitFound(u, path[1..], ids) {}
  }

  predicate KindOf(r: Report, kind: string, units: seq<Unit>) {
    || (kind == "geopolitical_stories" && units == r.geopolitical) || (kind == "macroeconomic_stories" && units == r.macroeconomic)
    || (kind == "concept_analyses" && units == r.concepts)
  }

  lemma TreeHolds(r: Report, kind: string, units: seq<Unit>, path: Path, ids: seq<string>)
    requires KindOf(r, kind, units) && Found(UnitsJson(units), path, ids)
    ensures Scope([kind] + path, ids) in TreeScopes(r)
  {
    hide UnitsJson, ObservationsJson, TreeScopes;
    TreeFinds(r, Scope([kind] + path, ids));
    hide Found;
    Inside(ReportJson(r).fields, kind, path, ids);
  }

  lemma TypedLacks(r: Report, kind: string, units: seq<Unit>, path: Path, ids: seq<string>)
    requires KindOf(r, kind, units) && !UnitsFound(units, path, ids)
    ensures Scope([kind] + path, ids) !in TypedScopes(r)
  {
    hide UnitsFound, ObservationsFound, TypedScopes;
    assert ([kind] + path)[1..] == path;
    TypedScopesHold(r, Scope([kind] + path, ids));
  }

  lemma ReasonedDiffer(r: Report, kind: string, units: seq<Unit>, i: nat)
    requires i < |units| && units[i].detail.reasonings != [] && KindOf(r, kind, units)
    ensures !SameScopes(r)
  {
    hide KindOf, TypedScopes, TreeScopes;
    var rest := UnitReasoningsFound(units, i);
    var path := [units[i].localKey] + (["detail"] + (["reasonings"] + rest));
    var ids := units[i].detail.reasonings[0].assessment.evidenceIds;
    ReasoningsUnvisited(units, units[i].localKey, rest, ids);
    TreeHolds(r, kind, units, path, ids);
    TypedLacks(r, kind, units, path, ids);
  }

  /** The two traversals yield the same scopes exactly when no unit carries reasonings. */
  lemma TraversalsAgreeIff(r: Report)
    ensures SameScopes(r) <==> NoReasonings(r)
  {
    if NoReasonings(r) {
      forall s ensures s in TypedScopes(r) <==> s in TreeScopes(r) {
        TypedScopesHold(r, s);
        TreeFinds(r, s);
        ReportJsonFound(r, s.path, s.ids);
      }
    } else {
      hide SameScopes;
      if i :| 0 <= i < |r.geopolitical| && r.geopolitical[i].detail.reasonings != [] {
        ReasonedDiffer(r, "geopolitical_stories", r.geopolitical, i);
      } else if i :| 0 <= i < |r.macroeconomic| && r.macroeconomic[i].detail.reasonings != [] {
        ReasonedDiffer(r, "macroeconomic_stories", r.macroeconomic, i);
      } else {
        var i :| 0 <= i < |r.concepts| && r.concepts[i].detail.reasonings != [];
        ReasonedDiffer(r, "concept_analyses", r.concepts, i);
      }
    }
  }

  // ---- a path names one scope ----

  function UnitKeys(units: seq<Unit>): (k: seq<string>)
    ensures |k| == |units|
  {
    seq(|units|, i requires 0 <= i < |units| => units[i].localKey)
  }

  function ObservationKeys(os: seq<Observation>): (k: seq<string>)
    ensures |k| == |os|
  {
    seq(|os|, i requires 0 <= i < |os| => os[i].localKey)
  }

  predicate UnitKeyed(u: Unit) {
    && LocalKeys(MacroKeys(u.detail.macros)) && LocalKeys(ChainKeys(u.detail.chains))
    && forall c | c in u.detail.chains :: LocalKeys(NodeKeys(c.nodes))
  }

  predicate UnitsKeyed(units: seq<Unit>) { LocalKeys(UnitKeys(units)) && forall u | u in units :: UnitKeyed(u) }

  /** Local keys are valid and unique at every level. */
  predicate Keyed(r: Report) {
    UnitsKeyed(r.geopolitical) && UnitsKeyed(r.macroeconomic) && UnitsKeyed(r.concepts) && LocalKeys(ObservationKeys(r.observations))
  }

  /** The unit validator establishes it. */
  lemma ValidatedUnitKeyed(kind: string, u: Unit)
    requires UnitCloses(kind, u)
    ensures UnitKeyed(u)
  {
    forall c | c in u.detail.chains ensures LocalKeys(NodeKeys(c.nodes)) {
      assert ChainCloses(c);
    }
  }

  lemma NatTextInjective(i: nat, j: nat)
    requires NatText(i) == NatText(j)
    ensures i == j
  {
    NatTextValue(i);
    NatTextValue(j);
  }

  lemma OneClaim(claims: seq<Claim>, path: Path, a: seq<string>, b: seq<string>)
    requires ClaimsFound(claims, path, a) && ClaimsFound(claims, path, b)
    ensures a == b
  {
    var i :| 0 <= i < |claims| && path[0] == NatText(i) && a == claims[i].evidenceIds;
    var j :| 0 <= j < |claims| && path[0] == NatText(j) && b == claims[j].evidenceIds;
    NatTextInjective(i, j);
  }

  lemma OneObjection(o: Objections, path: Path, a: seq<string>, b: seq<string>)
    requires ObjectionsFound(o, path, a) && ObjectionsFound(o, path, b)
    ensures a == b
  {
    if path[0] == "counterevidence" {
      OneClaim(o.counterevidence, path[1..], a, b);
    } else {
      OneClaim(o.buffers, path[1..], a, b);
    }
  }

  lemma OneJudged(x: Assessment, o: Objections, path: Path, a: seq<string>, b: seq<string>)
    requires JudgedFound(x, o, path, a) && JudgedFound(x, o, path, b)
    ensures a == b
  {
    if path[0] == "objections" { OneObjection(o, path[1..], a, b); }
  }

  lemma OneMacroScope(macros: seq<Macro>, path: Path, a: seq<string>, b: seq<string>)
    requires LocalKeys(MacroKeys(macros)) && MacrosFound(macros, path, a) && MacrosFound(macros, path, b)
    ensures a == b
  {
    var m :| m in macros && m.localKey == path[0] && JudgedFound(m.assessment, m.objections, path[1..], a);
    var n :| n in macros && n.localKey == path[0] && JudgedFound(n.assessment, n.objections, path[1..], b);
    OneMacro(macros, m, n);
    OneJudged(m.assessment, m.objections, path[1..], a, b);
  }

  lemma OneNodeScope(nodes: seq<Node>, path: Path, a: seq<string>, b: seq<string>)
    requires LocalKeys(NodeKeys(nodes)) && NodesFound(nodes, path, a) && NodesFound(nodes, path, b)
    ensures a == b
  {
    var m :| m in nodes && m.localKey == path[0] && JudgedFound(m.assessment, m.objections, path[1..], a);
    var n :| n in nodes && n.localKey == path[0] && JudgedFound(n.assessment, n.objections, path[1..], b);
    OneNode(nodes, m, n);
    OneJudged(m.assessment, m.objections, path[1..], a, b);
  }

  lemma OneChainScope(u: Unit, path: Path, a: seq<string>, b: seq<string>)
    requires UnitKeyed(u) && ChainsFound(u.detail.chains, path, a) && ChainsFound(u.detail.chains, path, b)
    ensures a == b
  {
    var c :| c in u.detail.chains && c.localKey == path[0] && ChainFound(c, path[1..], a);
    var d :| d in u.detail.chains && d.localKey == path[0] && ChainFound(d, path[1..], b);
    OneChain(u.detail.chains, c, d);
    hide LocalKeys, NodesFound, ObjectionsFound;
    if path[1] == "affected_nodes" {
      OneNodeScope(c.nodes, path[2..], a, b);
    } else if path[1] == "reasoning_summary" && path[2] == "objections" {
      OneObjection(c.summary.objections, path[3..], a, b);
    }
  }

  lemma OneUnit(units: seq<Unit>, a: Unit, b: Unit)
    requires Distinct(UnitKeys(units)) && a in units && b in units && a.localKey == b.localKey
    ensures a == b
  {
    var i :| 0 <= i < |units| && units[i] == a;
    var j :| 0 <= j < |units| && units[j] == b;
    assert UnitKeys(units)[i] == UnitKeys(units)[j];
  }

  lemma OneUnitScope(units: seq<Unit>, path: Path, a: seq<string>, b: seq<string>)
    requires UnitsKeyed(units) && UnitsFound(units, path, a) && UnitsFound(units, path, b)
    ensures a == b
  {
    var u :| u in units && u.localKey == path[0] && UnitFound(u, path[1..], a);
    var v :| v in units && v.localKey == path[0] && UnitFound(v, path[1..], b);
    OneUnit(units, u, v);
    assert UnitKeyed(u);
    hide LocalKeys, MacrosFound, ChainsFound, UnitsKeyed;
    if path[1] == "detail" && path[2] == "macro_impacts" {
      OneMacroScope(u.detail.macros, path[1..][1..][1..], a, b);
    } else if path[1] == "detail" && path[2] == "industry_chains" {
      OneChainScope(u, path[1..][1..][1..], a, b);
    }
  }

  lemma OneObservationScope(os: seq<Observation>, path: Path, a: seq<string>, b: seq<string>)
    requires LocalKeys(ObservationKeys(os)) && ObservationsFound(os, path, a) && ObservationsFound(os, path, b)
    ensures a == b
  {
    var m :| m in os && m.localKey == path[0] && IdsFound(m.evidenceIds, path[1..], a);
    var n :| n in os && n.localKey == path[0] && IdsFound(n.evidenceIds, path[1..], b);
    var i :| 0 <= i < |os| && os[i] == m;
    var j :| 0 <= j < |os| && os[j] == n;
    assert ObservationKeys(os)[i] == ObservationKeys(os)[j];
  }

  lemma OneScope(r: Report, path: Path, a: seq<string>, b: seq<string>)
    requires Keyed(r) && ReportFound(r, path, a) && ReportFound(r, path, b)
    ensures a == b
  {
    hide UnitsKeyed, UnitsFound, ObservationsFound, LocalKeys;
    if path[0] == "geopolitical_stories" {
      OneUnitScope(r.geopolitical, path[1..], a, b);
    } else if path[0] == "macroeconomic_stories" {
      OneUnitScope(r.macroeconomic, path[1..], a, b);
    } else if path[0] == "concept_analyses" {
      OneUnitScope(r.concepts, path[1..], a, b);
    } else {
      OneObservationScope(r.observations, path[1..], a, b);
    }
  }

  // ---- path texts ----

  predicate SlashFreePath(path: Path) { forall i | 0 <= i < |path| :: SlashFree(path[i]) }

  /** The text after the last slash can be read back. */
  lemma LastSlash(x: string, y: string, r: string, a: string)
    requires SlashFree(y) && SlashFree(a)
    ensures x + "/" + y == r + "/" + a <==> x == r && y == a
  {
    LastSeparator(x, y, r, a, '/');
  }

  /** A path of slash-free segments can be read back from its text. */
  lemma {:induction false} TextInjective(p: Path, q: Path)
    requires p != [] && q != [] && SlashFreePath(p) && SlashFreePath(q)
    ensures Text(p) == Text(q) <==> p == q
    decreases |p|
  {
    var x, y, r, a := p[..|p| - 1], p[|p| - 1], q[..|q| - 1], q[|q| - 1];
    assert p == x + [y] && q == r + [a];
    assert SlashFree(y) && SlashFree(a);
    if x != [] && r != [] {
      LastSlash(Text(x), y, Text(r), a);
      TextInjective(x, r);
    } else if x != [] {
      assert (Text(x) + "/" + y)[|Text(x)|] == '/';
    } else if r != [] {
      assert (Text(r) + "/" + a)[|Text(r)|] == '/';
    }
  }

  lemma SlashFreeStep(path: Path)
    requires path != [] && SlashFree(path[0]) && SlashFreePath(path[1..])
    ensures SlashFreePath(path)
  {
    forall i | 0 <= i < |path| ensures SlashFree(path[i]) {
      if i > 0 { assert path[i] == path[1..][i - 1]; }
    }
  }

  lemma KeySlashFree(keys: seq<string>, key: string)
    requires LocalKeys(keys) && key in keys
    ensures SlashFree(key)
  {
    LocalKeySlashFree(key);
  }

  lemma NumberSlashFree(i: nat)
    ensures SlashFree(NatText(i))
  {
    assert forall j | 0 <= j < |NatText(i)| :: IsDigit(NatText(i)[j]);
  }

  lemma ClaimPathSlashFree(claims: seq<Claim>, path: Path, ids: seq<string>)
    requires ClaimsFound(claims, path, ids)
    ensures SlashFreePath(path)
  {
    var i :| 0 <= i < |claims| && path[0] == NatText(i) && ids == claims[i].evidenceIds;
    NumberSlashFree(i);
    assert SlashFree("evidence_ids");
  }

  lemma ObjectionPathSlashFree(o: Objections, path: Path, ids: seq<string>)
    requires ObjectionsFound(o, path, ids)
    ensures SlashFreePath(path)
  {
    ClaimPathSlashFree(if path[0] == "counterevidence" then o.counterevidence else o.buffers, path[1..], ids);
    assert SlashFree("counterevidence") && SlashFree("buffers");
    SlashFreeStep(path);
  }

  lemma IdsPathSlashFree(path: Path)
    requires path == ["evidence_ids"]
    ensures SlashFreePath(path)
  {
    assert SlashFree("evidence_ids");
  }

  lemma JudgedPathSlashFree(x: Assessment, o: Objections, path: Path, ids: seq<string>)
    requires JudgedFound(x, o, path, ids)
    ensures SlashFreePath(path)
  {
    if path[0] == "assessment" && IdsFound(x.evidenceIds, path[1..], ids) {
      IdsPathSlashFree(path[1..]);
    } else {
      ObjectionPathSlashFree(o, path[1..], ids);
    }
    assert SlashFree("assessment") && SlashFree("objections");
    SlashFreeStep(path);
  }

  lemma MacroPathSlashFree(macros: seq<Macro>, path: Path, ids: seq<string>)
    requires LocalKeys(MacroKeys(macros)) && MacrosFound(macros, path, ids)
    ensures SlashFreePath(path)
  {
    var m :| m in macros && m.localKey == path[0] && JudgedFound(m.assessment, m.objections, path[1..], ids);
    var i :| 0 <= i < |macros| && macros[i] == m;
    assert MacroKeys(macros)[i] == m.localKey;
    KeySlashFree(MacroKeys(macros), m.localKey);
    JudgedPathSlashFree(m.assessment, m.objections, path[1..], ids);
    SlashFreeStep(path);
  }

  lemma NodePathSlashFree(nodes: seq<Node>, path: Path, ids: seq<string>)
    requires LocalKeys(NodeKeys(nodes)) && NodesFound(nodes, path, ids)
    ensures SlashFreePath(path)
  {
    var n :| n in nodes && n.localKey == path[0] && JudgedFound(n.assessment, n.objections, path[1..], ids);
    InNodeKeys(nodes, n);
    KeySlashFree(NodeKeys(nodes), n.localKey);
    JudgedPathSlashFree(n.assessment, n.objections, path[1..], ids);
    SlashFreeStep(path);
  }

  lemma SummaryPathSlashFree(s: ChainSummary, path: Path, ids: seq<string>)
    requires ChainSummaryFound(s, path, ids)
    ensures SlashFreePath(path)
  {
    if path[0] == "support" && IdsFound(s.support.evidenceIds, path[1..], ids) {
      IdsPathSlashFree(path[1..]);
    } else {
      ObjectionPathSlashFree(s.objections, path[1..], ids);
    }
    assert SlashFree("support") && SlashFree("objections");
    SlashFreeStep(path);
  }

  lemma ChainPathSlashFree(c: Chain, path: Path, ids: seq<string>)
    requires LocalKeys(NodeKeys(c.nodes)) && ChainFound(c, path, ids)
    ensures SlashFreePath(path)
  {
    hide LocalKeys, NodesFound, ChainSummaryFound, SlashFreePath;
    if path[0] == "assessment" && IdsFound(c.assessment.evidenceIds, path[1..], ids) {
      IdsPathSlashFree(path[1..]);
    } else if path[0] == "reasoning_summary" && ChainSummaryFound(c.summary, path[1..], ids) {
      SummaryPathSlashFree(c.summary, path[1..], ids);
    } else {
      NodePathSlashFree(c.nodes, path[1..], ids);
    }
    assert SlashFree("assessment") && SlashFree("reasoning_summary") && SlashFree("affected_nodes");
    SlashFreeStep(path);
  }

  lemma ChainsPathSlashFree(u: Unit, path: Path, ids: seq<string>)
    requires UnitKeyed(u) && ChainsFound(u.detail.chains, path, ids)
    ensures SlashFreePath(path)
  {
    var chains := u.detail.chains;
    var c :| c in chains && c.localKey == path[0] && ChainFound(c, path[1..], ids);
    var i :| 0 <= i < |chains| && chains[i] == c;
    assert ChainKeys(chains)[i] == c.localKey;
    KeySlashFree(ChainKeys(chains), c.localKey);
    ChainPathSlashFree(c, path[1..], ids);
    SlashFreeStep(path);
  }

  lemma UnitPathSlashFree(u: Unit, path: Path, ids: seq<string>)
    requires UnitKeyed(u) && UnitFound(u, path, ids)
    ensures SlashFreePath(path)
  {
    hide UnitKeyed, MacrosFound, ChainsFound, SlashFreePath;
    if path[0] == "summary" && SummaryFound(u.summary, path[1..], ids) {
      if IdsFound(u.summary.evidenceIds, path[1..], ids) {
        IdsPathSlashFree(path[1..]);
      } else {
        IdsPathSlashFree(path[1..][1..]);
        assert SlashFree("impact_assessment");
        SlashFreeStep(path[1..]);
      }
    } else {
      DetailPathSlashFree(u, path[1..], ids);
    }
    assert SlashFree("summary") && SlashFree("detail");
    SlashFreeStep(path);
  }

  lemma DetailPathSlashFree(u: Unit, path: Path, ids: seq<string>)
    requires UnitKeyed(u) && DetailFound(u.detail, path, ids)
    ensures SlashFreePath(path)
  {
    hide MacrosFound, ChainsFound, SlashFreePath;
    if path[0] == "macro_impacts" && MacrosFound(u.detail.macros, path[1..], ids) {
      MacroPathSlashFree(u.detail.macros, path[1..], ids);
    } else {
      ChainsPathSlashFree(u, path[1..], ids);
    }
    assert SlashFree("macro_impacts") && SlashFree("industry_chains");
    SlashFreeStep(path);
  }

  lemma UnitsPathSlashFree(units: seq<Unit>, path: Path, ids: seq<string>)
    requires UnitsKeyed(units) && UnitsFound(units, path, ids)
    ensures SlashFreePath(path)
  {
    var u :| u in units && u.localKey == path[0] && UnitFound(u, path[1..], ids);
    var i :| 0 <= i < |units| && units[i] == u;
    assert UnitKeys(units)[i] == u.localKey;
    KeySlashFree(UnitKeys(units), u.localKey);
    UnitPathSlashFree(u, path[1..], ids);
    SlashFreeStep(path);
  }

  lemma ObservationsPathSlashFree(os: seq<Observation>, path: Path, ids: seq<string>)
    requires LocalKeys(ObservationKeys(os)) && ObservationsFound(os, path, ids)
    ensures SlashFreePath(path)
  {
    var o :| o in os && o.localKey == path[0] && IdsFound(o.evidenceIds, path[1..], ids);
    var i :| 0 <= i < |os| && os[i] == o;
    assert ObservationKeys(os)[i] == o.localKey;
    KeySlashFree(ObservationKeys(os), o.localKey);
    IdsPathSlashFree(path[1..]);
    SlashFreeStep(path);
  }

  lemma ReportPathSlashFree(r: Report, path: Path, ids: seq<string>)
    requires Keyed(r) && ReportFound(r, path, ids)
    ensures SlashFreePath(path)
  {
    hide UnitsKeyed, UnitsFound, ObservationsFound, LocalKeys, SlashFreePath;
    if path[0] == "geopolitical_stories" {
      UnitsPathSlashFree(r.geopolitical, path[1..], ids);
    } else if path[0] == "macroeconomic_stories" {
      UnitsPathSlashFree(r.macroeconomic, path[1..], ids);
    } else if path[0] == "concept_analyses" {
      UnitsPathSlashFree(r.concepts, path[1..], ids);
    } else {
      ObservationsPathSlashFree(r.observations, path[1..], ids);
    }
    assert SlashFree("geopolitical_stories") && SlashFree("macroeconomic_stories") && SlashFree("concept_analyses") && SlashFree("observations");
    SlashFreeStep(path);
  }

  /** In a report with valid keys, two scopes with one path text are one scope. */
  lemma PathTextIsKey(r: Report, s: Scope, t: Scope)
    requires Keyed(r) && s in TypedScopes(r) && t in TypedScopes(r)
    ensures Text(s.path) == Text(t.path) <==> s == t
  {
    TypedScopesHold(r, s);
    TypedScopesHold(r, t);
    ReportPathSlashFree(r, s.path, s.ids);
    ReportPathSlashFree(r, t.path, t.ids);
    TextInjective(s.path, t.path);
    if s.path == t.path {
      OneScope(r, s.path, s.ids, t.ids);
    }
    hide Keyed, ReportFound, TypedScopes, Text;
  }

  // ---- counting ----

  datatype Link = Link(path: string, evidenceId: string, position: nat)

  function ScopeLinks(s: TextScope): (l: seq<Link>)
    ensures |l| == |s.ids|
  {
    seq(|s.ids|, i requires 0 <= i < |s.ids| => Link(s.path, s.ids[i], i + 1))
  }

  function Links(scopes: seq<TextScope>): seq<Link> {
    if scopes == [] then [] else Links(scopes[..|scopes| - 1]) + ScopeLinks(scopes[|scopes| - 1])
  }

  /** `normalizedEvidenceLinks`, without the generated identities. */
  method BuildLinks(scopes: seq<TextScope>) returns (links: seq<Link>)
    ensures links == Links(scopes)
  {
    links := [];
    for i := 0 to |scopes|
      invariant links == Links(scopes[..i])
    {
      var ids := scopes[i].ids;
      for j := 0 to |ids|
        invariant links == Links(scopes[..i]) + ScopeLinks(scopes[i])[..j]
      {
        links := links + [Link(scopes[i].path, ids[j], j + 1)];
      }
      assert ScopeLinks(scopes[i])[..|ids|] == ScopeLinks(scopes[i]);
      assert scopes[..i + 1][..i] == scopes[..i];
    }
    assert scopes[..|scopes|] == scopes;
  }

  function IdsAt(links: seq<Link>, path: string): set<string> { set l | l in links && l.path == path :: l.evidenceId }

  /** `countEvidenceScopes`: first the identifiers of every path, then how many there are. */
  method CountEvidenceScopes(links: seq<Link>) returns (counts: map<string, nat>)
    ensures forall p :: p in counts <==> exists l | l in links :: l.path == p
    ensures forall p | p in counts :: counts[p] == |IdsAt(links, p)|
  {
    var scopes: map<string, set<string>> := map[];
    for i := 0 to |links|
      invariant forall p :: p in scopes <==> exists j | 0 <= j < i :: links[j].path == p
      invariant forall p | p in scopes :: scopes[p] == IdsAt(links[..i], p)
    {
      var l := links[i];
      assert links[..i + 1] == links[..i] + [l];
      forall p ensures IdsAt(links[..i + 1], p) == IdsAt(links[..i], p) + (if p == l.path then {l.evidenceId} else {}) {}
      var ids := if l.path in scopes then scopes[l.path] else {};
      assert l.path !in scopes ==> IdsAt(links[..i], l.path) == {};
      scopes := scopes[l.path := ids + {l.evidenceId}];
    }
    assert links[..|links|] == links;
    counts := map p | p in scopes :: |scopes[p]|;
  }

  lemma {:induction false} LinksFrom(scopes: seq<TextScope>)
    ensures forall s, i | s in scopes && 0 <= i < |s.ids| :: Link(s.path, s.ids[i], i + 1) in Links(scopes)
    ensures forall l | l in Links(scopes) :: exists s | s in scopes :: s.path == l.path && l.evidenceId in s.ids
  {
    if scopes != [] {
      var init, last := scopes[..|scopes| - 1], scopes[|scopes| - 1];
      LinksFrom(init);
      assert scopes == init + [last];
      forall s, i | s in scopes && 0 <= i < |s.ids| ensures Link(s.path, s.ids[i], i + 1) in Links(scopes) {
        if s == last {
          assert ScopeLinks(last)[i] == Link(s.path, s.ids[i], i + 1);
        }
      }
      forall l | l in Links(scopes) ensures exists s | s in scopes :: s.path == l.path && l.evidenceId in s.ids {
        if l in Links(init) {
          var s :| s in init && s.path == l.path && l.evidenceId in s.ids;
          assert s in scopes;
        } else {
          assert l in ScopeLinks(last);
          assert last in scopes;
        }
      }
    }
  }

  lemma InTexts(scopes: seq<Scope>, s: TextScope)
    ensures s in Texts(scopes) <==> exists t | t in scopes :: s == TextScope(Text(t.path), t.ids)
  {
    hide Text;
    if s in Texts(scopes) {
      var i :| 0 <= i < |scopes| && Texts(scopes)[i] == s;
      assert scopes[i] in scopes;
    }
    if t :| t in scopes && s == TextScope(Text(t.path), t.ids) {
      var i :| 0 <= i < |scopes| && scopes[i] == t;
      assert Texts(scopes)[i] == s;
    }
  }

  /** A path text names one scope. */
  ghost predicate PathKeys(scopes: seq<Scope>) {
    forall s, t | s in scopes && t in scopes && Text(s.path) == Text(t.path) :: s == t
  }

  lemma KeyedPaths(r: Report)
    requires Keyed(r)
    ensures PathKeys(TypedScopes(r))
  {
    hide Keyed, TypedScopes, Text;
    forall s, t | s in TypedScopes(r) && t in TypedScopes(r) && Text(s.path) == Text(t.path) ensures s == t { PathTextIsKey(r, s, t); }
  }

  lemma IdsOfScope(scopes: seq<Scope>, s: Scope)
    requires PathKeys(scopes) && s in scopes
    ensures IdsAt(Links(Texts(scopes)), Text(s.path)) == Elements(s.ids)
  {
    var texts := Texts(scopes);
    LinksFrom(texts);
    hide Links, Text, Texts;
    InTexts(scopes, TextScope(Text(s.path), s.ids));
    forall id | id in Elements(s.ids) ensures id in IdsAt(Links(texts), Text(s.path)) {
      var i :| 0 <= i < |s.ids| && s.ids[i] == id;
      assert Link(Text(s.path), s.ids[i], i + 1) in Links(texts);
    }
    forall id | id in IdsAt(Links(texts), Text(s.path)) ensures id in Elements(s.ids) {
      var l :| l in Links(texts) && l.path == Text(s.path) && l.evidenceId == id;
      var x :| x in texts && x.path == l.path && l.evidenceId in x.ids;
      InTexts(scopes, x);
      var t :| t in scopes && x == TextScope(Text(t.path), t.ids);
      assert s == t;
    }
  }

  /** The count stored for a path is the length of that scope's list of distinct identifiers. */
  lemma CountIsLength(scopes: seq<Scope>, s: Scope, counts: map<string, nat>)
    requires PathKeys(scopes) && s in scopes && Distinct(s.ids)
    requires var links := Links(Texts(scopes));
             && (forall p :: p in counts <==> exists l | l in links :: l.path == p)
             && forall p | p in counts :: counts[p] == |IdsAt(links, p)|
    ensures Text(s.path) in counts <==> s.ids != []
    ensures s.ids != [] ==> counts[Text(s.path)] == |s.ids|
  {
    var links, p := Links(Texts(scopes)), Text(s.path);
    IdsOfScope(scopes, s);
    DistinctCount(s.ids);
    hide PathKeys, Links, Text, Texts;
    if s.ids != [] {
      assert s.ids[0] in IdsAt(links, p);
    } else {
      assert forall l | l in links && l.path == p :: l.evidenceId in IdsAt(links, p);
    }
  }

  /** Links and counts of any list of scopes whose path texts are keys: every scope is counted with its own length. */
  method CountScopes(texts: seq<TextScope>, ghost scopes: seq<Scope>) returns (counts: map<string, nat>)
    requires texts == Texts(scopes) && PathKeys(scopes) && forall s | s in scopes :: Distinct(s.ids)
    ensures forall s | s in scopes ::
              (Text(s.path) in counts <==> s.ids != []) && (s.ids != [] ==> counts[Text(s.path)] == |s.ids|)
  {
    hide PathKeys, Links, Texts, Text;
    var links := BuildLinks(texts);
    counts := CountEvidenceScopes(links);
    forall s | s in scopes
      ensures (Text(s.path) in counts <==> s.ids != []) && (s.ids != [] ==> counts[Text(s.path)] == |s.ids|)
    {
      CountIsLength(scopes, s, counts);
    }
  }

  /** Publication stores, for every scope of a validated report, the number of its Evidence. */
  method StoredCounts(r: Report) returns (counts: map<string, nat>)
    requires Keyed(r) && forall s | s in TypedScopes(r) :: Distinct(s.ids)
    ensures forall s | s in TypedScopes(r) ::
              (Text(s.path) in counts <==> s.ids != []) && (s.ids != [] ==> counts[Text(s.path)] == |s.ids|)
  {
    KeyedPaths(r);
    hide TypedScopes, Keyed, Links, Texts, Text, PathKeys;
    var scopes := EvidenceScopes.NormalizedEvidenceScopes(r);
    counts := CountScopes(scopes, TypedScopes(r));
  }
}
