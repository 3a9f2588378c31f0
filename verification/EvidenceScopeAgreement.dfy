/** The two traversals find the same scopes, and a path names one scope. */
module EvidenceScopeAgreement {
  import opened Json
  import opened Decimal
  import opened ReportModel
  import opened EvidenceScopes
  import CanonicalForm

  // ---- what the walk finds, as a relation on relative paths ----

  /** The walk of `v` reports the identifiers `ids` under the relative path. */
  predicate Found(v: JSON, path: Path, ids: seq<string>)
    decreases |path|
  {
    if path == [] then false
    else if v.Obj? then
      || (path == ["evidence_ids"] && HasIds(v.fields) && ids == StringsOf(v.fields["evidence_ids"].items))
      || (path[0] in v.fields && Found(v.fields[path[0]], path[1..], ids))
    else v.Arr? && exists i | 0 <= i < |v.items| :: Segment(v.items, i) == path[0] && Found(v.items[i], path[1..], ids)
  }

  predicate Under(p: Path, s: Scope) { p <= s.path }

  function Below(p: Path, s: Scope): Path
    requires Under(p, s)
  {
    s.path[|p|..]
  }

  lemma UnderStep(p: Path, k: string, s: Scope)
    ensures Under(p + [k], s) <==> Under(p, s) && Below(p, s) != [] && Below(p, s)[0] == k
    ensures Under(p + [k], s) ==> Below(p + [k], s) == Below(p, s)[1..]
  {
    if Under(p, s) && Below(p, s) != [] && Below(p, s)[0] == k {
      assert s.path == p + Below(p, s);
      assert s.path == p + [k] + Below(p, s)[1..];
    }
    if Under(p + [k], s) {
      assert s.path[..|p| + 1] == p + [k];
      assert s.path[..|p|] == p;
    }
  }

  lemma UnderIds(p: Path, ids: seq<string>, s: Scope)
    ensures s in IdsScope(p, ids) <==> Under(p, s) && Below(p, s) == ["evidence_ids"] && s.ids == ids
  {
    if Under(p, s) && Below(p, s) == ["evidence_ids"] {
      assert s.path == p + Below(p, s);
    }
    assert Below(p, Scope(p + ["evidence_ids"], ids)) == ["evidence_ids"];
  }

  /** Below `p` the walk finds exactly what `Found` says. */
  lemma {:induction false} WalkFinds(v: JSON, p: Path, s: Scope)
    ensures s in WalkScopes(v, p) <==> Reports(v, p, s)
    decreases v, 2
  {
    if v.Obj? {
      var keys := CanonicalForm.SortedKeys(CanonicalForm.Utf8Order, v.fields.Keys);
      WalkFieldsFind(v, keys, p, s);
      if HasIds(v.fields) {
        UnderIds(p, StringsOf(v.fields["evidence_ids"].items), s);
      }
      hide IdsScope, StringsOf, WalkFields;
    } else if v.Arr? {
      WalkItemsFind(v, |v.items|, p, s);
      SomeItemAll(v, p, s);
      hide WalkItems, Reports, SomeItemReports;
    }
  }

  lemma {:induction false} WalkFieldsFind(v: JSON, keys: seq<string>, p: Path, s: Scope)
    requires v.Obj? && forall k | k in keys :: k in v.fields
    ensures s in WalkFields(v, keys, p) <==>
            Under(p, s) && Below(p, s) != [] && Below(p, s)[0] in keys && Found(v.fields[Below(p, s)[0]], Below(p, s)[1..], s.ids)
    decreases v, 1, |keys|
  {
    if keys != [] {
      var init, k := keys[..|keys| - 1], keys[|keys| - 1];
      assert k in keys && keys == init + [k];
      WalkFieldsFind(v, init, p, s);
      WalkFinds(v.fields[k], p + [k], s);
      UnderStep(p, k, s);
      hide Found, WalkScopes, Under;
    }
  }

  predicate Reports(v: JSON, p: Path, s: Scope) { Under(p, s) && Found(v, Below(p, s), s.ids) }

  predicate ItemReports(v: JSON, i: nat, p: Path, s: Scope)
    requires v.Arr? && i < |v.items|
  {
    Under(p, s) && Below(p, s) != [] && Segment(v.items, i) == Below(p, s)[0] && Found(v.items[i], Below(p, s)[1..], s.ids)
  }

  predicate SomeItemReports(v: JSON, n: nat, p: Path, s: Scope)
    requires v.Arr? && n <= |v.items|
  {
    exists i | 0 <= i < n :: ItemReports(v, i, p, s)
  }

  lemma SomeItemStep(v: JSON, n: nat, p: Path, s: Scope)
    requires v.Arr? && n < |v.items|
    ensures SomeItemReports(v, n + 1, p, s) <==> SomeItemReports(v, n, p, s) || ItemReports(v, n, p, s)
  {
    hide ItemReports;
  }

  lemma SomeItemAll(v: JSON, p: Path, s: Scope)
    requires v.Arr?
    ensures Reports(v, p, s) <==> SomeItemReports(v, |v.items|, p, s)
  {
    hide Segment;
    if Reports(v, p, s) {
      var i :| 0 <= i < |v.items| && Segment(v.items, i) == Below(p, s)[0] && Found(v.items[i], Below(p, s)[1..], s.ids);
      assert ItemReports(v, i, p, s);
    }
  }

  lemma ItemBelow(v: JSON, i: nat, p: Path, s: Scope)
    requires v.Arr? && i < |v.items|
    ensures Reports(v.items[i], p + [Segment(v.items, i)], s) <==> ItemReports(v, i, p, s)
  {
    UnderStep(p, Segment(v.items, i), s);
    hide Under, Below, Found, Segment;
  }

  lemma WalkItemsStep(v: JSON, n: nat, p: Path, s: Scope)
    requires v.Arr? && n < |v.items|
    ensures s in WalkItems(v, n + 1, p) <==> s in WalkItems(v, n, p) || s in WalkScopes(v.items[n], p + [Segment(v.items, n)])
  {
    hide WalkScopes;
  }

  lemma WalkItemsNone(v: JSON, p: Path, s: Scope)
    requires v.Arr?
    ensures s !in WalkItems(v, 0, p) && !SomeItemReports(v, 0, p, s)
  {
  }

  lemma {:induction false} WalkItemsFind(v: JSON, n: nat, p: Path, s: Scope)
    requires v.Arr? && n <= |v.items|
    ensures s in WalkItems(v, n, p) <==> SomeItemReports(v, n, p, s)
    decreases v, 1, n
  {
    hide *;
    if n == 0 {
      WalkItemsNone(v, p, s);
    } else {
      WalkItemsFind(v, n - 1, p, s);
      WalkFinds(v.items[n - 1], p + [Segment(v.items, n - 1)], s);
      WalkItemsStep(v, n - 1, p, s);
      ItemBelow(v, n - 1, p, s);
      SomeItemStep(v, n - 1, p, s);
    }
  }

  // ---- what the typed traversal finds ----

  predicate ClaimsFound(claims: seq<Claim>, path: Path, ids: seq<string>) {
    |path| == 2 && path[1] == "evidence_ids" && exists i | 0 <= i < |claims| :: path[0] == NatText(i) && ids == claims[i].evidenceIds
  }

  predicate ObjectionsFound(o: Objections, path: Path, ids: seq<string>) {
    path != [] && ((path[0] == "counterevidence" && ClaimsFound(o.counterevidence, path[1..], ids))
                   || (path[0] == "buffers" && ClaimsFound(o.buffers, path[1..], ids)))
  }

  predicate IdsFound(own: seq<string>, path: Path, ids: seq<string>) { path == ["evidence_ids"] && ids == own }

  predicate JudgedFound(a: Assessment, o: Objections, path: Path, ids: seq<string>) {
    path != [] && ((path[0] == "assessment" && IdsFound(a.evidenceIds, path[1..], ids))
                   || (path[0] == "objections" && ObjectionsFound(o, path[1..], ids)))
  }

  predicate MacrosFound(macros: seq<Macro>, path: Path, ids: seq<string>) {
    path != [] && exists m | m in macros :: m.localKey == path[0] && JudgedFound(m.assessment, m.objections, path[1..], ids)
  }

  predicate NodesFound(nodes: seq<Node>, path: Path, ids: seq<string>) {
    path != [] && exists n | n in nodes :: n.localKey == path[0] && JudgedFound(n.assessment, n.objections, path[1..], ids)
  }

  predicate ChainSummaryFound(s: ChainSummary, path: Path, ids: seq<string>) {
    path != [] && ((path[0] == "support" && IdsFound(s.support.evidenceIds, path[1..], ids))
                   || (path[0] == "objections" && ObjectionsFound(s.objections, path[1..], ids)))
  }

  predicate ChainFound(c: Chain, path: Path, ids: seq<string>) {
    path != [] && ((path[0] == "assessment" && IdsFound(c.assessment.evidenceIds, path[1..], ids))
                   || (path[0] == "reasoning_summary" && ChainSummaryFound(c.summary, path[1..], ids))
                   || (path[0] == "affected_nodes" && NodesFound(c.nodes, path[1..], ids)))
  }

  predicate ChainsFound(chains: seq<Chain>, path: Path, ids: seq<string>) {
    path != [] && exists c | c in chains :: c.localKey == path[0] && ChainFound(c, path[1..], ids)
  }

  predicate SummaryFound(s: Summary, path: Path, ids: seq<string>) {
    IdsFound(s.evidenceIds, path, ids) || (path != [] && path[0] == "impact_assessment" && IdsFound(s.impact.evidenceIds, path[1..], ids))
  }

  predicate DetailFound(d: Detail, path: Path, ids: seq<string>) {
    path != [] && ((path[0] == "macro_impacts" && MacrosFound(d.macros, path[1..], ids))
                   || (path[0] == "industry_chains" && ChainsFound(d.chains, path[1..], ids)))
  }

  predicate UnitFound(u: Unit, path: Path, ids: seq<string>) {
    path != [] && ((path[0] == "summary" && SummaryFound(u.summary, path[1..], ids))
                   || (path[0] == "detail" && DetailFound(u.detail, path[1..], ids)))
  }

  predicate UnitsFound(units: seq<Unit>, path: Path, ids: seq<string>) {
    path != [] && exists u | u in units :: u.localKey == path[0] && UnitFound(u, path[1..], ids)
  }

  predicate ObservationsFound(os: seq<Observation>, path: Path, ids: seq<string>) {
    path != [] && exists o | o in os :: o.localKey == path[0] && IdsFound(o.evidenceIds, path[1..], ids)
  }

  predicate ReportFound(r: Report, path: Path, ids: seq<string>) {
    path != [] && ((path[0] == "geopolitical_stories" && UnitsFound(r.geopolitical, path[1..], ids))
                   || (path[0] == "macroeconomic_stories" && UnitsFound(r.macroeconomic, path[1..], ids))
                   || (path[0] == "concept_analyses" && UnitsFound(r.concepts, path[1..], ids))
                   || (path[0] == "observations" && ObservationsFound(r.observations, path[1..], ids)))
  }

  // ---- the typed lists hold exactly these ----

  lemma ClaimScopesHold(p: Path, claims: seq<Claim>, s: Scope)
    ensures s in ClaimScopes(p, claims) <==> Under(p, s) && ClaimsFound(claims, Below(p, s), s.ids)
  {
    if s in ClaimScopes(p, claims) {
      var i :| 0 <= i < |claims| && ClaimScopes(p, claims)[i] == s;
      assert Below(p, s) == [NatText(i), "evidence_ids"];
    }
    if Under(p, s) && ClaimsFound(claims, Below(p, s), s.ids) {
      var i :| 0 <= i < |claims| && Below(p, s)[0] == NatText(i) && s.ids == claims[i].evidenceIds;
      assert s.path == p + Below(p, s);
      assert Below(p, s) == [NatText(i), "evidence_ids"];
      assert ClaimScopes(p, claims)[i] == s;
    }
  }

  lemma ObjectionScopesHold(p: Path, o: Objections, s: Scope)
    ensures s in ObjectionScopes(p, o) <==> Under(p, s) && ObjectionsFound(o, Below(p, s), s.ids)
  {
    ClaimScopesHold(p + ["counterevidence"], o.counterevidence, s);
    ClaimScopesHold(p + ["buffers"], o.buffers, s);
    UnderStep(p, "counterevidence", s);
    UnderStep(p, "buffers", s);
    hide ClaimScopes, ClaimsFound, Under, Below;
  }

  lemma JudgedScopesHold(p: Path, a: Assessment, o: Objections, s: Scope)
    ensures s in JudgedScopes(p, a, o) <==> Under(p, s) && JudgedFound(a, o, Below(p, s), s.ids)
  {
    UnderIds(p + ["assessment"], a.evidenceIds, s);
    ObjectionScopesHold(p + ["objections"], o, s);
    UnderStep(p, "assessment", s);
    UnderStep(p, "objections", s);
    hide IdsScope, ObjectionScopes, ObjectionsFound, Under, Below;
  }

  lemma {:induction false} MacroScopesHold(p: Path, macros: seq<Macro>, s: Scope)
    ensures s in MacroScopes(p, macros) <==> Under(p, s) && MacrosFound(macros, Below(p, s), s.ids)
  {
    if macros != [] {
      var init, m := macros[..|macros| - 1], macros[|macros| - 1];
      assert macros == init + [m];
      MacroScopesHold(p, init, s);
      JudgedScopesHold(p + [m.localKey], m.assessment, m.objections, s);
      UnderStep(p, m.localKey, s);
      hide JudgedScopes, JudgedFound, Under, Below;
    }
  }

  lemma {:induction false} NodeScopesHold(p: Path, nodes: seq<Node>, s: Scope)
    ensures s in NodeScopes(p, nodes) <==> Under(p, s) && NodesFound(nodes, Below(p, s), s.ids)
  {
    if nodes != [] {
      var init, n := nodes[..|nodes| - 1], nodes[|nodes| - 1];
      assert nodes == init + [n];
      NodeScopesHold(p, init, s);
      JudgedScopesHold(p + [n.localKey], n.assessment, n.objections, s);
      UnderStep(p, n.localKey, s);
      hide JudgedScopes, JudgedFound, Under, Below;
    }
  }

  lemma ChainSummaryScopesHold(p: Path, t: ChainSummary, s: Scope)
    ensures s in ChainSummaryScopes(p, t) <==> Under(p, s) && ChainSummaryFound(t, Below(p, s), s.ids)
  {
    UnderIds(p + ["support"], t.support.evidenceIds, s);
    ObjectionScopesHold(p + ["objections"], t.objections, s);
    UnderStep(p, "support", s);
    UnderStep(p, "objections", s);
    hide IdsScope, ObjectionScopes, ObjectionsFound, Under, Below;
  }

  lemma OneChainScopesHold(p: Path, c: Chain, s: Scope)
    ensures s in OneChainScopes(p, c) <==> Under(p, s) && ChainFound(c, Below(p, s), s.ids)
  {
    UnderIds(p + ["assessment"], c.assessment.evidenceIds, s);
    ChainSummaryScopesHold(p + ["reasoning_summary"], c.summary, s);
    NodeScopesHold(p + ["affected_nodes"], c.nodes, s);
    UnderStep(p, "assessment", s);
    UnderStep(p, "reasoning_summary", s);
    UnderStep(p, "affected_nodes", s);
    hide IdsScope, ChainSummaryScopes, ChainSummaryFound, NodeScopes, NodesFound, Under, Below;
  }

  lemma {:induction false} ChainScopesHold(p: Path, chains: seq<Chain>, s: Scope)
    ensures s in ChainScopes(p, chains) <==> Under(p, s) && ChainsFound(chains, Below(p, s), s.ids)
  {
    if chains != [] {
      var init, c := chains[..|chains| - 1], chains[|chains| - 1];
      assert chains == init + [c];
      ChainScopesHold(p, init, s);
      OneChainScopesHold(p + [c.localKey], c, s);
      UnderStep(p, c.localKey, s);
      hide OneChainScopes, ChainFound, Under, Below;
    }
  }

  lemma OneUnitScopesHold(p: Path, u: Unit, s: Scope)
    ensures s in OneUnitScopes(p, u) <==> Under(p, s) && UnitFound(u, Below(p, s), s.ids)
  {
    var q, d := p + ["summary"], p + ["detail"];
    UnderIds(q, u.summary.evidenceIds, s);
    UnderIds(q + ["impact_assessment"], u.summary.impact.evidenceIds, s);
    MacroScopesHold(d + ["macro_impacts"], u.detail.macros, s);
    ChainScopesHold(d + ["industry_chains"], u.detail.chains, s);
    UnderStep(p, "summary", s);
    UnderStep(q, "impact_assessment", s);
    UnderStep(p, "detail", s);
    UnderStep(d, "macro_impacts", s);
    UnderStep(d, "industry_chains", s);
    hide IdsScope, MacroScopes, MacrosFound, ChainScopes, ChainsFound, Under, Below;
  }

  lemma {:induction false} UnitScopesHold(p: Path, units: seq<Unit>, s: Scope)
    ensures s in UnitScopes(p, units) <==> Under(p, s) && UnitsFound(units, Below(p, s), s.ids)
  {
    if units != [] {
      var init, u := units[..|units| - 1], units[|units| - 1];
      assert units == init + [u];
      UnitScopesHold(p, init, s);
      OneUnitScopesHold(p + [u.localKey], u, s);
      UnderStep(p, u.localKey, s);
      hide OneUnitScopes, UnitFound, Under, Below;
    }
  }

  lemma ObservationScopesHold(p: Path, os: seq<Observation>, s: Scope)
    ensures s in ObservationScopes(p, os) <==> Under(p, s) && ObservationsFound(os, Below(p, s), s.ids)
  {
    if s in ObservationScopes(p, os) {
      var i :| 0 <= i < |os| && ObservationScopes(p, os)[i] == s;
      assert Below(p, s) == [os[i].localKey, "evidence_ids"];
      assert Below(p, s)[1..] == ["evidence_ids"];
      assert os[i] in os;
    }
    if Under(p, s) && ObservationsFound(os, Below(p, s), s.ids) {
      var o :| o in os && o.localKey == Below(p, s)[0] && IdsFound(o.evidenceIds, Below(p, s)[1..], s.ids);
      var i :| 0 <= i < |os| && os[i] == o;
      assert s.path == p + Below(p, s);
      assert Below(p, s) == [o.localKey] + Below(p, s)[1..];
      assert ObservationScopes(p, os)[i] == s;
    }
  }

  lemma TopStep(k: string, s: Scope)
    ensures Under([k], s) <==> s.path != [] && s.path[0] == k
    ensures Under([k], s) ==> Below([k], s) == s.path[1..]
  {
  }

  /** The typed traversal lists exactly the scopes of the relation. */
  lemma TypedScopesHold(r: Report, s: Scope)
    ensures s in TypedScopes(r) <==> ReportFound(r, s.path, s.ids)
  {
    UnitScopesHold(["geopolitical_stories"], r.geopolitical, s);
    UnitScopesHold(["macroeconomic_stories"], r.macroeconomic, s);
    UnitScopesHold(["concept_analyses"], r.concepts, s);
    ObservationScopesHold(["observations"], r.observations, s);
    TopStep("geopolitical_stories", s);
    TopStep("macroeconomic_stories", s);
    TopStep("concept_analyses", s);
    TopStep("observations", s);
    hide UnitScopes, UnitsFound, ObservationScopes, ObservationsFound, Under, Below;
  }

  // ---- the walk of the report's tree finds the same relation ----

  lemma IdsRead(ids: seq<string>)
    ensures IdsJson(ids).Arr? && StringsOf(IdsJson(ids).items) == ids
  {
  }

  /** Texts and lists of texts hold no scope. */
  lemma NothingIn(v: JSON, path: Path, ids: seq<string>)
    requires !v.Obj? && (v.Arr? ==> forall w | w in v.items :: !w.Obj? && !w.Arr?)
    ensures !Found(v, path, ids)
  {
  }

  lemma NothingInIds(own: seq<string>, path: Path, ids: seq<string>)
    ensures !Found(IdsJson(own), path, ids)
  {
    NothingIn(IdsJson(own), path, ids);
  }

  lemma ClaimJsonFound(c: Claim, path: Path, ids: seq<string>)
    ensures Found(ClaimJson(c), path, ids) <==> IdsFound(c.evidenceIds, path, ids)
  {
    IdsRead(c.evidenceIds);
    if path != [] { NothingInIds(c.evidenceIds, path[1..], ids); }
  }

  lemma ClaimsJsonFound(claims: seq<Claim>, path: Path, ids: seq<string>)
    ensures Found(ClaimsJson(claims), path, ids) <==> ClaimsFound(claims, path, ids)
  {
    if path != [] {
      forall i | 0 <= i < |claims| ensures Found(ClaimJson(claims[i]), path[1..], ids) <==> IdsFound(claims[i].evidenceIds, path[1..], ids) {
        ClaimJsonFound(claims[i], path[1..], ids);
      }
      assert forall i | 0 <= i < |claims| :: Segment(ClaimsJson(claims).items, i) == NatText(i);
    }
  }

  lemma ObjectionsJsonFound(o: Objections, path: Path, ids: seq<string>)
    ensures Found(ObjectionsJson(o), path, ids) <==> ObjectionsFound(o, path, ids)
  {
    if path != [] {
      ClaimsJsonFound(o.counterevidence, path[1..], ids);
      ClaimsJsonFound(o.buffers, path[1..], ids);
      hide ClaimsJson, ClaimsFound;
    }
  }

  lemma AssessmentJsonFound(a: Assessment, path: Path, ids: seq<string>)
    ensures Found(AssessmentJson(a), path, ids) <==> IdsFound(a.evidenceIds, path, ids)
  {
    IdsRead(a.evidenceIds);
    if path != [] { NothingInIds(a.evidenceIds, path[1..], ids); }
  }

  lemma MacroJsonFound(m: Macro, path: Path, ids: seq<string>)
    ensures Found(MacroJson(m), path, ids) <==> JudgedFound(m.assessment, m.objections, path, ids)
  {
    if path != [] {
      AssessmentJsonFound(m.assessment, path[1..], ids);
      ObjectionsJsonFound(m.objections, path[1..], ids);
      hide AssessmentJson, ObjectionsJson, ObjectionsFound, IdsFound;
    }
  }

  lemma MacrosJsonFound(macros: seq<Macro>, path: Path, ids: seq<string>)
    ensures Found(MacrosJson(macros), path, ids) <==> MacrosFound(macros, path, ids)
  {
    if path != [] {
      forall i | 0 <= i < |macros|
        ensures Found(MacroJson(macros[i]), path[1..], ids) <==> JudgedFound(macros[i].assessment, macros[i].objections, path[1..], ids)
        ensures Segment(MacrosJson(macros).items, i) == macros[i].localKey
      {
        MacroJsonFound(macros[i], path[1..], ids);
      }
      hide MacroJson, JudgedFound, Segment;
    }
  }

  lemma NodeJsonFound(n: Node, path: Path, ids: seq<string>)
    ensures Found(NodeJson(n), path, ids) <==> JudgedFound(n.assessment, n.objections, path, ids)
  {
    if path != [] {
      AssessmentJsonFound(n.assessment, path[1..], ids);
      ObjectionsJsonFound(n.objections, path[1..], ids);
      hide AssessmentJson, ObjectionsJson, ObjectionsFound, IdsFound;
    }
  }

  lemma NodesJsonFound(nodes: seq<Node>, path: Path, ids: seq<string>)
    ensures Found(NodesJson(nodes), path, ids) <==> NodesFound(nodes, path, ids)
  {
    if path != [] {
      forall i | 0 <= i < |nodes|
        ensures Found(NodeJson(nodes[i]), path[1..], ids) <==> JudgedFound(nodes[i].assessment, nodes[i].objections, path[1..], ids)
        ensures Segment(NodesJson(nodes).items, i) == nodes[i].localKey
      {
        NodeJsonFound(nodes[i], path[1..], ids);
      }
      hide NodeJson, JudgedFound, Segment;
    }
  }

  lemma NothingInLeaves(fields: map<string, JSON>, path: Path, ids: seq<string>)
    requires !HasIds(fields) && forall k | k in fields :: !fields[k].Obj? && !fields[k].Arr?
    ensures !Found(Obj(fields), path, ids)
  {
    if path != [] && path[0] in fields { NothingIn(fields[path[0]], path[1..], ids); }
  }

  lemma NothingInGraph(g: Graph, path: Path, ids: seq<string>)
    ensures !Found(GraphJson(g), path, ids)
  {
    if |path| > 1 {
      forall i | 0 <= i < |g.nodes| ensures !Found(GraphNodeJson(g.nodes[i]), path[2..], ids) {
        NothingInLeaves(GraphNodeJson(g.nodes[i]).fields, path[2..], ids);
      }
      forall i | 0 <= i < |g.edges| ensures !Found(EdgeJson(g.edges[i]), path[2..], ids) {
        NothingInLeaves(EdgeJson(g.edges[i]).fields, path[2..], ids);
      }
      assert path[1..][1..] == path[2..];
      hide GraphNodeJson, EdgeJson, Segment;
    }
  }

  lemma ChainSummaryJsonFound(s: ChainSummary, path: Path, ids: seq<string>)
    ensures Found(ChainSummaryJson(s), path, ids) <==> ChainSummaryFound(s, path, ids)
  {
    if path != [] {
      ClaimJsonFound(s.support, path[1..], ids);
      ObjectionsJsonFound(s.objections, path[1..], ids);
      hide ClaimJson, ObjectionsJson, ObjectionsFound, IdsFound;
    }
  }

  lemma ChainJsonFound(c: Chain, path: Path, ids: seq<string>)
    ensures Found(ChainJson(c), path, ids) <==> ChainFound(c, path, ids)
  {
    if path != [] {
      AssessmentJsonFound(c.assessment, path[1..], ids);
      ChainSummaryJsonFound(c.summary, path[1..], ids);
      NothingInGraph(c.graph, path[1..], ids);
      NodesJsonFound(c.nodes, path[1..], ids);
      hide AssessmentJson, ChainSummaryJson, ChainSummaryFound, GraphJson, NodesJson, NodesFound, IdsFound;
    }
  }

  lemma ChainsJsonFound(chains: seq<Chain>, path: Path, ids: seq<string>)
    ensures Found(ChainsJson(chains), path, ids) <==> ChainsFound(chains, path, ids)
  {
    if path != [] {
      forall i | 0 <= i < |chains|
        ensures Found(ChainJson(chains[i]), path[1..], ids) <==> ChainFound(chains[i], path[1..], ids)
        ensures Segment(ChainsJson(chains).items, i) == chains[i].localKey
      {
        ChainJsonFound(chains[i], path[1..], ids);
      }
      hide ChainJson, ChainFound, Segment;
    }
  }

  lemma NothingInRefs(refs: seq<Ref>, path: Path, ids: seq<string>)
    ensures !Found(SummaryJson(Summary("", [], Impact("", []), refs)).fields["affected_refs"], path, ids)
  {
    if path != [] {
      forall i | 0 <= i < |refs| ensures !Found(RefJson(refs[i]), path[1..], ids) {
        NothingInLeaves(RefJson(refs[i]).fields, path[1..], ids);
      }
      hide RefJson, Segment;
    }
  }

  lemma ImpactJsonFound(i: Impact, path: Path, ids: seq<string>)
    ensures Found(ImpactJson(i), path, ids) <==> IdsFound(i.evidenceIds, path, ids)
  {
    IdsRead(i.evidenceIds);
    if path != [] { NothingInIds(i.evidenceIds, path[1..], ids); }
  }

  lemma SummaryJsonFound(s: Summary, path: Path, ids: seq<string>)
    ensures Found(SummaryJson(s), path, ids) <==> SummaryFound(s, path, ids)
  {
    IdsRead(s.evidenceIds);
    if path != [] {
      NothingInIds(s.evidenceIds, path[1..], ids);
      ImpactJsonFound(s.impact, path[1..], ids);
      NothingInRefs(s.refs, path[1..], ids);
      hide IdsJson, ImpactJson, RefJson, StringsOf;
    }
  }

  /** Without reasonings the tree of the detail holds what the typed traversal visits. */
  lemma DetailJsonFound(d: Detail, path: Path, ids: seq<string>)
    requires d.reasonings == []
    ensures Found(DetailJson(d), path, ids) <==> DetailFound(d, path, ids)
  {
    if path != [] {
      MacrosJsonFound(d.macros, path[1..], ids);
      ChainsJsonFound(d.chains, path[1..], ids);
      hide MacrosJson, MacrosFound, ChainsJson, ChainsFound;
    }
  }

  lemma UnitJsonFound(u: Unit, path: Path, ids: seq<string>)
    requires u.detail.reasonings == []
    ensures Found(UnitJson(u), path, ids) <==> UnitFound(u, path, ids)
  {
    if path != [] {
      SummaryJsonFound(u.summary, path[1..], ids);
      DetailJsonFound(u.detail, path[1..], ids);
      hide SummaryJson, SummaryFound, DetailJson, DetailFound;
    }
  }

  predicate Unreasoned(units: seq<Unit>) { forall u | u in units :: u.detail.reasonings == [] }

  lemma UnitsJsonFound(units: seq<Unit>, path: Path, ids: seq<string>)
    requires Unreasoned(units)
    ensures Found(UnitsJson(units), path, ids) <==> UnitsFound(units, path, ids)
  {
    if path != [] {
      forall i | 0 <= i < |units|
        ensures Found(UnitJson(units[i]), path[1..], ids) <==> UnitFound(units[i], path[1..], ids)
        ensures Segment(UnitsJson(units).items, i) == units[i].localKey
      {
        UnitJsonFound(units[i], path[1..], ids);
      }
      hide UnitJson, UnitFound, Segment;
    }
  }

  lemma ObservationsJsonFound(os: seq<Observation>, path: Path, ids: seq<string>)
    ensures Found(ObservationsJson(os), path, ids) <==> ObservationsFound(os, path, ids)
  {
    if path != [] {
      forall i | 0 <= i < |os|
        ensures Found(ObservationJson(os[i]), path[1..], ids) <==> IdsFound(os[i].evidenceIds, path[1..], ids)
        ensures Segment(ObservationsJson(os).items, i) == os[i].localKey
      {
        IdsRead(os[i].evidenceIds);
        if |path| > 1 { NothingInIds(os[i].evidenceIds, path[1..][1..], ids); }
      }
      hide ObservationJson, IdsFound, Segment;
    }
  }

  predicate NoReasonings(r: Report) { Unreasoned(r.geopolitical) && Unreasoned(r.macroeconomic) && Unreasoned(r.concepts) }

  lemma ReportJsonFound(r: Report, path: Path, ids: seq<string>)
    requires NoReasonings(r)
    ensures Found(ReportJson(r), path, ids) <==> ReportFound(r, path, ids)
  {
    hide UnitsJson, UnitsFound, ObservationsJson, ObservationsFound, Unreasoned;
    if path != [] {
      UnitsJsonFound(r.geopolitical, path[1..], ids);
      UnitsJsonFound(r.macroeconomic, path[1..], ids);
      UnitsJsonFound(r.concepts, path[1..], ids);
      ObservationsJsonFound(r.observations, path[1..], ids);
    }
  }
}
