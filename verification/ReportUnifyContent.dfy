/** What the conversion carries over: every judgment with its claims, and the Evidence cited by them. */
module ReportUnifyContent {
  import opened Json
  import opened ReportModel
  import opened ReportUnify
  import opened EvidenceScopes
  import opened EvidenceScopeAgreement

  // ---- the judgments ----

  /** The reasoning of a chain holds the chain's own judgment, claims, graph and provenance, and its nodes as assets. */
  ghost predicate HoldsChain(x: Reasoning, c: Chain) {
    && x.localKey == c.localKey && x.sourceId == c.sourceId && x.title == c.name && x.assessment == c.assessment
    && x.summary.logic == c.summary.logic && x.summary.support == Some(c.summary.support)
    && x.summary.objections == c.summary.objections
    && x.graph == Some(c.graph) && x.blocks == [] && x.provenance == c.provenance
    && |x.assets| >= |c.nodes| && x.assets[|x.assets| - |c.nodes|..] == c.nodes
  }

  /** One asset in front of the nodes when a reference names the chain as a whole, none otherwise. */
  ghost predicate HoldsWhole(x: Reasoning, c: Chain, refs: seq<Ref>) {
    if exists r | r in refs :: r.targetType == "industry_chain" && r.localKey == c.localKey then
      && |x.assets| == |c.nodes| + 1
      && var a := x.assets[0];
      && a.localKey == c.localKey + "-asset" && a.nodeLocalKey == "" && a.sourceId == c.sourceId && a.name == c.name
      && a.assessment == c.assessment && a.objections == c.summary.objections && a.provenance == c.provenance
    else |x.assets| == |c.nodes|
  }

  /** The reasoning of a macro impact is argued by its transmission logic and has the impact itself as its one asset. */
  ghost predicate HoldsMacro(x: Reasoning, m: Macro) {
    && x.localKey == m.localKey + "-reasoning" && x.sourceId == m.sourceId && x.title == m.name && x.assessment == m.assessment
    && x.summary.logic == m.assessment.transmissionLogic && x.summary.support == None && x.summary.objections == m.objections
    && x.graph == None && x.blocks == [] && x.provenance == m.provenance
    && |x.assets| == 1
    && var a := x.assets[0];
    && a.localKey == m.localKey && a.nodeLocalKey == "" && a.sourceId == m.sourceId && a.name == m.name
    && a.assessment == m.assessment && a.objections == m.objections && a.provenance == m.provenance
  }

  /** A converted unit has one reasoning for each macro impact and then one for each chain, in their order; the rest of
    the unit is as before. */
  lemma JudgmentsKept(u: Unit)
    requires Convert(u).Converted?
    ensures var v, m, c := Convert(u).unit, u.detail.macros, u.detail.chains;
            && |v.detail.reasonings| == |m| + |c| > 0
            && (forall i | 0 <= i < |m| :: HoldsMacro(v.detail.reasonings[i], m[i]))
            && (forall i | 0 <= i < |c| :: HoldsChain(v.detail.reasonings[|m| + i], c[i]) &&
                                           HoldsWhole(v.detail.reasonings[|m| + i], c[i], u.summary.refs))
    ensures var v := Convert(u).unit;
            && v.localKey == u.localKey && v.sourceId == u.sourceId && v.title == u.title && v.provenance == u.provenance
            && v.summary.conclusion == u.summary.conclusion && v.summary.evidenceIds == u.summary.evidenceIds
            && v.summary.impact == u.summary.impact && |v.summary.refs| == |u.summary.refs|
            && v.detail.macros == [] && v.detail.chains == [] && v.detail.companies == u.detail.companies
  {
    hide FirstDangling, Rewritten;
    var m, c := u.detail.macros, u.detail.chains;
    forall i | 0 <= i < |m| ensures HoldsMacro(MacroReasoning(m[i]), m[i]) {}
    forall i | 0 <= i < |c|
      ensures HoldsChain(ChainReasoning(c[i], Whole(u.summary.refs, c[i].localKey)), c[i])
      ensures HoldsWhole(ChainReasoning(c[i], Whole(u.summary.refs, c[i].localKey)), c[i], u.summary.refs)
    {
      ChainHeld(c[i], u.summary.refs);
    }
    hide MacroReasoning, ChainReasoning, Whole, HoldsMacro, HoldsChain, HoldsWhole;
  }

  lemma ChainHeld(c: Chain, refs: seq<Ref>)
    ensures HoldsChain(ChainReasoning(c, Whole(refs, c.localKey)), c)
    ensures HoldsWhole(ChainReasoning(c, Whole(refs, c.localKey)), c, refs)
  {
    assert [WholeAsset(c)] + c.nodes == [WholeAsset(c)] + c.nodes[0..];
    assert ([WholeAsset(c)] + c.nodes)[1..] == c.nodes && ([] + c.nodes)[0..] == c.nodes;
  }

  // ---- the Evidence cited ----

  /** Somewhere in the tree a list of identifiers holds `id`. */
  ghost predicate Cites(v: JSON, id: string) {
    exists path, ids :: Found(v, path, ids) && id in ids
  }

  ghost predicate CitesItself(fields: map<string, JSON>, id: string) {
    HasIds(fields) && id in StringsOf(fields["evidence_ids"].items)
  }

  ghost predicate MemberCites(fields: map<string, JSON>, id: string) {
    exists k | k in fields :: Cites(fields[k], id)
  }

  ghost predicate ItemCites(items: seq<JSON>, id: string) {
    exists i | 0 <= i < |items| :: Cites(items[i], id)
  }

  lemma ObjectCites(fields: map<string, JSON>, id: string)
    ensures Cites(Obj(fields), id) <==> CitesItself(fields, id) || MemberCites(fields, id)
  {
    if CitesItself(fields, id) {
      assert Found(Obj(fields), ["evidence_ids"], StringsOf(fields["evidence_ids"].items));
    }
    if MemberCites(fields, id) {
      var k :| k in fields && Cites(fields[k], id);
      var path, ids :| Found(fields[k], path, ids) && id in ids;
      assert ([k] + path)[1..] == path;
      assert Found(Obj(fields), [k] + path, ids);
    }
    if Cites(Obj(fields), id) && !CitesItself(fields, id) {
      var path, ids :| Found(Obj(fields), path, ids) && id in ids;
      assert path[0] in fields && Found(fields[path[0]], path[1..], ids);
    }
  }

  lemma ArrayCites(items: seq<JSON>, id: string)
    ensures Cites(Arr(items), id) <==> ItemCites(items, id)
  {
    hide Segment;
    if ItemCites(items, id) {
      var i :| 0 <= i < |items| && Cites(items[i], id);
      var path, ids :| Found(items[i], path, ids) && id in ids;
      var k := Segment(items, i);
      assert ([k] + path)[1..] == path;
      assert Found(Arr(items), [k] + path, ids);
    }
    if Cites(Arr(items), id) {
      var path, ids :| Found(Arr(items), path, ids) && id in ids;
      var i :| 0 <= i < |items| && Segment(items, i) == path[0] && Found(items[i], path[1..], ids);
      assert Cites(items[i], id);
    }
  }

  lemma LeafCitesNothing(v: JSON, id: string)
    requires !v.Obj? && !v.Arr?
    ensures !Cites(v, id)
  {
  }

  lemma IdsCiteNothing(ids: seq<string>, id: string)
    ensures !Cites(IdsJson(ids), id)
  {
    ArrayCites(IdsJson(ids).items, id);
    forall i | 0 <= i < |ids| ensures !Cites(IdsJson(ids).items[i], id) {
      LeafCitesNothing(Str(ids[i]), id);
    }
  }

  lemma StringsCiteNothing(id: string)
    ensures forall s: string :: !Cites(Str(s), id)
  {
    forall s: string ensures !Cites(Str(s), id) { LeafCitesNothing(Str(s), id); }
  }

  lemma IdsRead(ids: seq<string>)
    ensures StringsOf(IdsJson(ids).items) == ids
  {
  }

  lemma MacroCites(m: Macro, id: string)
    ensures Cites(MacroJson(m), id) <==> Cites(AssessmentJson(m.assessment), id) || Cites(ObjectionsJson(m.objections), id)
  {
    StringsCiteNothing(id);
    var f := MacroJson(m).fields;
    ObjectCites(f, id);
    hide Cites, AssessmentJson, ObjectionsJson;
    assert Cites(f["assessment"], id) || Cites(f["objections"], id) ==> MemberCites(f, id);
  }

  lemma NodeCites(n: Node, id: string)
    ensures Cites(NodeJson(n), id) <==> Cites(AssessmentJson(n.assessment), id) || Cites(ObjectionsJson(n.objections), id)
  {
    StringsCiteNothing(id);
    var f := NodeJson(n).fields;
    ObjectCites(f, id);
    hide Cites, AssessmentJson, ObjectionsJson;
    assert Cites(f["assessment"], id) || Cites(f["objections"], id) ==> MemberCites(f, id);
  }

  /** The parts of a chain or a reasoning that can cite: assessment, summary, graph and the entries of a list of nodes. */
  ghost predicate PartsCite(a: Assessment, support: Option<Claim>, o: Objections, graph: Option<Graph>, nodes: seq<Node>, id: string) {
    || Cites(AssessmentJson(a), id) || (support.Some? && Cites(ClaimJson(support.value), id)) || Cites(ObjectionsJson(o), id)
    || (graph.Some? && Cites(GraphJson(graph.value), id)) || NodesCite(nodes, id)
  }

  ghost predicate NodesCite(nodes: seq<Node>, id: string) {
    exists n | n in nodes :: Cites(AssessmentJson(n.assessment), id) || Cites(ObjectionsJson(n.objections), id)
  }

  lemma NodesJsonCites(nodes: seq<Node>, id: string)
    ensures Cites(NodesJson(nodes), id) <==> NodesCite(nodes, id)
  {
    var items := NodesJson(nodes).items;
    ArrayCites(items, id);
    forall i | 0 <= i < |nodes|
      ensures Cites(items[i], id) <==> Cites(AssessmentJson(nodes[i].assessment), id) || Cites(ObjectionsJson(nodes[i].objections), id)
    {
      NodeCites(nodes[i], id);
    }
    hide Cites, NodeJson, AssessmentJson, ObjectionsJson;
    if ItemCites(items, id) {
      var i :| 0 <= i < |items| && Cites(items[i], id);
      assert nodes[i] in nodes;
    }
  }

  lemma ChainSummaryCites(s: ChainSummary, id: string)
    ensures Cites(ChainSummaryJson(s), id) <==> Cites(ClaimJson(s.support), id) || Cites(ObjectionsJson(s.objections), id)
  {
    StringsCiteNothing(id);
    var f := ChainSummaryJson(s).fields;
    ObjectCites(f, id);
    hide Cites, ClaimJson, ObjectionsJson;
    assert Cites(f["support"], id) || Cites(f["objections"], id) ==> MemberCites(f, id);
  }

  lemma ReasoningSummaryCites(s: ReasoningSummary, id: string)
    ensures Cites(ReasoningSummaryJson(s), id) <==>
            (s.support.Some? && Cites(ClaimJson(s.support.value), id)) || Cites(ObjectionsJson(s.objections), id)
  {
    StringsCiteNothing(id);
    var f := ReasoningSummaryJson(s).fields;
    ObjectCites(f, id);
    hide Cites, ClaimJson, ObjectionsJson;
    assert (s.support.Some? && Cites(f["support"], id)) || Cites(f["objections"], id) ==> MemberCites(f, id);
  }

  lemma ChainCites(c: Chain, id: string)
    ensures Cites(ChainJson(c), id) <==>
            PartsCite(c.assessment, Some(c.summary.support), c.summary.objections, Some(c.graph), c.nodes, id)
  {
    StringsCiteNothing(id);
    var f := ChainJson(c).fields;
    ObjectCites(f, id);
    ChainSummaryCites(c.summary, id);
    NodesJsonCites(c.nodes, id);
    hide Cites, AssessmentJson, ChainSummaryJson, ClaimJson, ObjectionsJson, GraphJson, NodesJson, NodesCite;
    assert Cites(f["assessment"], id) || Cites(f["reasoning_summary"], id) ==> MemberCites(f, id);
    assert Cites(f["graph"], id) || Cites(f["affected_nodes"], id) ==> MemberCites(f, id);
  }

  /** A reasoning without blocks cites what its parts cite. */
  lemma ReasoningCites(x: Reasoning, id: string)
    requires x.blocks == []
    ensures Cites(ReasoningJson(x), id) <==> PartsCite(x.assessment, x.summary.support, x.summary.objections, x.graph, x.assets, id)
  {
    StringsCiteNothing(id);
    var f := ReasoningJson(x).fields;
    ObjectCites(f, id);
    ReasoningSummaryCites(x.summary, id);
    NodesJsonCites(x.assets, id);
    ArrayCites([], id);
    hide Cites, AssessmentJson, ReasoningSummaryJson, ClaimJson, ObjectionsJson, GraphJson, NodesJson, NodesCite, BlockJson;
    assert f["reasoning_blocks"] == Arr([]);
    assert Cites(f["assessment"], id) || Cites(f["reasoning_summary"], id) ==> MemberCites(f, id);
    assert (x.graph.Some? && Cites(f["graph"], id)) || Cites(f["affected_assets"], id) ==> MemberCites(f, id);
  }

  lemma ConvertedMacroCites(x: Reasoning, m: Macro, id: string)
    requires HoldsMacro(x, m)
    ensures Cites(ReasoningJson(x), id) <==> Cites(MacroJson(m), id)
  {
    ReasoningCites(x, id);
    MacroCites(m, id);
    hide Cites, AssessmentJson, ObjectionsJson, ReasoningJson, MacroJson, GraphJson, ClaimJson;
    assert x.assets == [x.assets[0]];
    assert x.assets[0] in x.assets;
  }

  lemma ConvertedChainCites(x: Reasoning, c: Chain, refs: seq<Ref>, id: string)
    requires HoldsChain(x, c) && HoldsWhole(x, c, refs)
    ensures Cites(ReasoningJson(x), id) <==> Cites(ChainJson(c), id)
  {
    ReasoningCites(x, id);
    ChainCites(c, id);
    hide Cites, AssessmentJson, ObjectionsJson, ReasoningJson, ChainJson, GraphJson, ClaimJson;
    assert forall n :: n in c.nodes ==> n in x.assets;
    if |x.assets| == |c.nodes| {
      assert x.assets == c.nodes;
    } else {
      assert x.assets == [x.assets[0]] + c.nodes;
    }
  }

  // ---- the whole unit ----

  ghost predicate MacroListCites(macros: seq<Macro>, id: string) { exists m | m in macros :: Cites(MacroJson(m), id) }

  ghost predicate ChainListCites(chains: seq<Chain>, id: string) { exists c | c in chains :: Cites(ChainJson(c), id) }

  ghost predicate ReasoningListCites(xs: seq<Reasoning>, id: string) { exists x | x in xs :: Cites(ReasoningJson(x), id) }

  lemma MacrosJsonCites(macros: seq<Macro>, id: string)
    ensures Cites(MacrosJson(macros), id) <==> MacroListCites(macros, id)
  {
    var items := MacrosJson(macros).items;
    assert |items| == |macros| && forall i | 0 <= i < |macros| :: items[i] == MacroJson(macros[i]);
    ArrayCites(items, id);
    hide Cites, MacroJson, MacrosJson;
    if ItemCites(items, id) {
      var i :| 0 <= i < |items| && Cites(items[i], id);
      assert macros[i] in macros;
    }
    if m :| m in macros && Cites(MacroJson(m), id) {
      var i :| 0 <= i < |macros| && macros[i] == m;
      assert Cites(items[i], id);
    }
  }

  lemma ChainsJsonCites(chains: seq<Chain>, id: string)
    ensures Cites(ChainsJson(chains), id) <==> ChainListCites(chains, id)
  {
    var items := ChainsJson(chains).items;
    assert |items| == |chains| && forall i | 0 <= i < |chains| :: items[i] == ChainJson(chains[i]);
    ArrayCites(items, id);
    hide Cites, ChainJson, ChainsJson;
    if ItemCites(items, id) {
      var i :| 0 <= i < |items| && Cites(items[i], id);
      assert chains[i] in chains;
    }
    if c :| c in chains && Cites(ChainJson(c), id) {
      var i :| 0 <= i < |chains| && chains[i] == c;
      assert Cites(items[i], id);
    }
  }

  lemma ReasoningsJsonCites(xs: seq<Reasoning>, id: string)
    ensures Cites(ReasoningsJson(xs), id) <==> ReasoningListCites(xs, id)
  {
    var items := ReasoningsJson(xs).items;
    assert |items| == |xs| && forall i | 0 <= i < |xs| :: items[i] == ReasoningJson(xs[i]);
    ArrayCites(items, id);
    hide Cites, ReasoningJson, ReasoningsJson;
    if ItemCites(items, id) {
      var i :| 0 <= i < |items| && Cites(items[i], id);
      assert xs[i] in xs;
    }
    if x :| x in xs && Cites(ReasoningJson(x), id) {
      var i :| 0 <= i < |xs| && xs[i] == x;
      assert Cites(items[i], id);
    }
  }

  /** The detail's tree cites what one of its macro impacts, chains or reasonings cites. */
  lemma DetailCites(d: Detail, id: string)
    ensures Cites(DetailJson(d), id) <==>
            MacroListCites(d.macros, id) || ChainListCites(d.chains, id) || ReasoningListCites(d.reasonings, id)
  {
    var f := DetailJson(d).fields;
    ObjectCites(f, id);
    MacrosJsonCites(d.macros, id);
    ChainsJsonCites(d.chains, id);
    ReasoningsJsonCites(d.reasonings, id);
    DetailMembers(d, id);
    hide *;
  }

  lemma DetailMembers(d: Detail, id: string)
    ensures var f := DetailJson(d).fields;
            !CitesItself(f, id) &&
            (MemberCites(f, id) <==> || ("macro_impacts" in f && Cites(MacrosJson(d.macros), id))
                                     || ("industry_chains" in f && Cites(ChainsJson(d.chains), id))
                                     || (d.reasonings != [] && Cites(ReasoningsJson(d.reasonings), id)))
    ensures "macro_impacts" !in DetailJson(d).fields ==> d.macros == []
    ensures "industry_chains" !in DetailJson(d).fields ==> d.chains == []
  {
    hide Cites, MacrosJson, ChainsJson, ReasoningsJson;
    var f := DetailJson(d).fields;
    if d.reasonings != [] {
      assert f["reasonings"] == ReasoningsJson(d.reasonings);
    }
  }

  lemma SummaryCites(s: Summary, id: string)
    ensures Cites(SummaryJson(s), id) <==> id in s.evidenceIds || id in s.impact.evidenceIds
  {
    StringsCiteNothing(id);
    IdsCiteNothing(s.evidenceIds, id);
    IdsCiteNothing(s.impact.evidenceIds, id);
    IdsRead(s.evidenceIds);
    IdsRead(s.impact.evidenceIds);
    var f := SummaryJson(s).fields;
    ObjectCites(f, id);
    ObjectCites(ImpactJson(s.impact).fields, id);
    RefsCiteNothing(s, id);
    hide Cites, IdsJson, StringsOf, RefJson;
    assert Cites(f["impact_assessment"], id) ==> MemberCites(f, id);
  }

  lemma RefsCiteNothing(s: Summary, id: string)
    ensures !Cites(SummaryJson(s).fields["affected_refs"], id)
  {
    var refs, items := s.refs, SummaryJson(s).fields["affected_refs"].items;
    ArrayCites(items, id);
    forall i | 0 <= i < |refs| ensures !Cites(items[i], id) {
      var f := RefJson(refs[i]).fields;
      ObjectCites(f, id);
      forall k | k in f ensures !Cites(f[k], id) { LeafCitesNothing(f[k], id); }
      assert !HasIds(f);
    }
    hide Cites, RefJson;
  }

  lemma UnitCites(u: Unit, id: string)
    ensures Cites(UnitJson(u), id) <==> Cites(SummaryJson(u.summary), id) || Cites(DetailJson(u.detail), id)
  {
    StringsCiteNothing(id);
    var f := UnitJson(u).fields;
    ObjectCites(f, id);
    hide Cites, SummaryJson, DetailJson;
    assert Cites(f["summary"], id) || Cites(f["detail"], id) ==> MemberCites(f, id);
  }

  lemma ReasoningsCite(u: Unit, id: string)
    requires Convert(u).Converted?
    ensures ReasoningListCites(Convert(u).unit.detail.reasonings, id) <==>
            MacroListCites(u.detail.macros, id) || ChainListCites(u.detail.chains, id)
  {
    JudgmentsKept(u);
    var x, m, c := Convert(u).unit.detail.reasonings, u.detail.macros, u.detail.chains;
    forall i | 0 <= i < |m| ensures Cites(ReasoningJson(x[i]), id) <==> Cites(MacroJson(m[i]), id) {
      ConvertedMacroCites(x[i], m[i], id);
    }
    forall i | 0 <= i < |c| ensures Cites(ReasoningJson(x[|m| + i]), id) <==> Cites(ChainJson(c[i]), id) {
      ConvertedChainCites(x[|m| + i], c[i], u.summary.refs, id);
    }
    JoinedCites(x, m, c, id);
    hide *;
  }

  lemma JoinedCites(x: seq<Reasoning>, m: seq<Macro>, c: seq<Chain>, id: string)
    requires |x| == |m| + |c|
    requires forall i | 0 <= i < |m| :: Cites(ReasoningJson(x[i]), id) <==> Cites(MacroJson(m[i]), id)
    requires forall i | 0 <= i < |c| :: Cites(ReasoningJson(x[|m| + i]), id) <==> Cites(ChainJson(c[i]), id)
    ensures ReasoningListCites(x, id) <==> MacroListCites(m, id) || ChainListCites(c, id)
  {
    hide Cites, MacroJson, ChainJson, ReasoningJson;
    if y :| y in x && Cites(ReasoningJson(y), id) {
      var i :| 0 <= i < |x| && x[i] == y;
      if i < |m| {
        assert m[i] in m;
      } else {
        assert x[|m| + (i - |m|)] == x[i] && c[i - |m|] in c;
      }
    }
    if y :| y in m && Cites(MacroJson(y), id) {
      var i :| 0 <= i < |m| && m[i] == y;
      assert x[i] in x;
    }
    if y :| y in c && Cites(ChainJson(y), id) {
      var i :| 0 <= i < |c| && c[i] == y;
      assert x[|m| + i] in x;
    }
  }

  /** The converted unit cites exactly the Evidence the old one cited; reasonings the old unit already had are dropped. */
  lemma CitationsKept(u: Unit, id: string)
    requires Convert(u).Converted?
    ensures Cites(UnitJson(Convert(u).unit), id) <==> Cites(UnitJson(u.(detail := u.detail.(reasonings := []))), id)
  {
    var v, w := Convert(u).unit, u.(detail := u.detail.(reasonings := []));
    JudgmentsKept(u);
    UnitCites(v, id);
    UnitCites(w, id);
    SummaryCites(v.summary, id);
    SummaryCites(w.summary, id);
    DetailCites(v.detail, id);
    DetailCites(w.detail, id);
    ReasoningsCite(u, id);
    hide Cites, MacroJson, ChainJson, ReasoningJson, Convert, HoldsMacro, HoldsChain, HoldsWhole, UnitJson, SummaryJson, DetailJson;
  }

  /** A version 4 or 5 report has no reasonings: each of its lists cites the same Evidence after the conversion. */
  lemma ListCitationsKept(units: seq<Unit>, id: string)
    requires AllConvert(units) && Unreasoned(units)
    ensures Cites(UnitsJson(UnifiedAll(units)), id) <==> Cites(UnitsJson(units), id)
  {
    var a, b := UnitsJson(UnifiedAll(units)).items, UnitsJson(units).items;
    ArrayCites(a, id);
    ArrayCites(b, id);
    forall i | 0 <= i < |units| ensures Cites(a[i], id) <==> Cites(b[i], id) {
      var u := units[i];
      assert u in units && Convert(u) == Converted(Unified(u));
      assert u.(detail := u.detail.(reasonings := [])) == u;
      CitationsKept(u, id);
    }
    hide Cites, UnitJson, Unified;
  }
}
