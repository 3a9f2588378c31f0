/** Uniqueness, closure and graph binding of unified (version 6) units. */
module UnifiedClosure {
  import opened Json
  import opened Sequences
  import opened ReportModel
  import opened ReportClosure

  predicate LinkCloses(b: Block, e: Edge) {
    b.causal && e.source in MetricNodeKeys(b.nodes) && e.target in MetricNodeKeys(b.nodes) && e.source != e.target
  }

  predicate DistinctLinks(links: seq<Edge>) {
    forall i, j | 0 <= i < j < |links| :: links[i].source != links[j].source || links[i].target != links[j].target
  }

  predicate BlockCloses(b: Block) {
    && b.nodes != [] && LocalKeys(MetricNodeKeys(b.nodes)) && (forall n | n in b.nodes :: n.metrics != [])
    && DistinctLinks(b.links) && forall e | e in b.links :: LinkCloses(b, e)
  }

  predicate AssetBinds(graph: Option<Graph>, a: Node) {
    a.nodeLocalKey != "" ==> graph.Some? && Binds(graph.value.nodes, a)
  }

  predicate ReasoningGraphCloses(graph: Option<Graph>) {
    graph.Some? ==> Distinct(GraphKeys(graph.value.nodes)) && forall e | e in graph.value.edges :: EdgeCloses(graph.value.nodes, e)
  }

  predicate ReasoningCloses(r: Reasoning) {
    && ReasoningGraphCloses(r.graph)
    && LocalKeys(NodeKeys(r.assets)) && (forall a | a in r.assets :: AssetBinds(r.graph, a))
    && LocalKeys(BlockKeys(r.blocks)) && forall b | b in r.blocks :: BlockCloses(b)
  }

  predicate HasProvenance(p: Provenance) { p.origin != "" || p.sources.Some? || p.signals.Some? }

  function Judged(key: string, id: string, p: Provenance): seq<Judgment> {
    if HasProvenance(p) then [Judgment(key, id, p)] else []
  }

  function AssetJudgments(assets: seq<Node>): seq<Judgment> {
    if assets == [] then []
    else AssetJudgments(assets[..|assets| - 1]) +
         Judged(assets[|assets| - 1].localKey, assets[|assets| - 1].sourceId, assets[|assets| - 1].provenance)
  }

  function ReasoningJudgments(reasonings: seq<Reasoning>): seq<Judgment> {
    if reasonings == [] then []
    else
      var r := reasonings[|reasonings| - 1];
      ReasoningJudgments(reasonings[..|reasonings| - 1]) + (Judged(r.localKey, r.sourceId, r.provenance) + AssetJudgments(r.assets))
  }

  function CompanyJudgments(companies: seq<Macro>): seq<Judgment> {
    if companies == [] then []
    else
      var c := companies[|companies| - 1];
      CompanyJudgments(companies[..|companies| - 1]) + (if c.provenance.origin != "" then [Judgment(c.localKey, c.sourceId, c.provenance)] else [])
  }

  function UnifiedJudgments(u: Unit): seq<Judgment> {
    Judged(u.localKey, u.sourceId, u.provenance) + ReasoningJudgments(u.detail.reasonings)
    + (if u.detail.companies.Some? then CompanyJudgments(u.detail.companies.value) else [])
  }

  /** The reference names one asset of one reasoning of the unit. */
  predicate AnchorCloses(reasonings: seq<Reasoning>, r: Ref) {
    && r.targetType == "" && r.chainLocalKey.None?
    && exists x, a | x in reasonings && a in x.assets :: x.localKey == r.reasoningLocalKey && a.localKey == r.localKey
  }

  predicate DistinctAnchors(refs: seq<Ref>) {
    forall i, j | 0 <= i < j < |refs| :: refs[i].reasoningLocalKey != refs[j].reasoningLocalKey || refs[i].localKey != refs[j].localKey
  }

  predicate UnifiedCloses(kind: string, u: Unit) {
    && LocalKey(u.localKey) && u.detail.macros == [] && u.detail.chains == [] && u.detail.reasonings != []
    && (Geopolitical(kind) ==> u.summary.evidenceIds != [])
    && LocalKeys(ReasoningKeys(u.detail.reasonings))
    && (forall r | r in u.detail.reasonings :: ReasoningCloses(r))
    && (UnifiedJudgments(u) != [] ==> JudgmentsClose(UnifiedJudgments(u)))
    && DistinctAnchors(u.summary.refs)
    && forall r | r in u.summary.refs :: AnchorCloses(u.detail.reasonings, r)
  }

  // ---- the validator ----

  function PairText(x: string, y: string): string { x + "/" + y }

  method ValidateBlock(b: Block) returns (ok: bool)
    ensures ok <==> BlockCloses(b)
  {
    hide LocalKey, LocalKeys;
    if b.nodes == [] {
      return false;
    }
    var nodes: set<string> := {};
    ghost var all := MetricNodeKeys(b.nodes);
    LocalKeysEmpty(all);
    for i := 0 to |b.nodes|
      invariant LocalKeys(all[..i])
      invariant forall n | n in b.nodes[..i] :: n.metrics != []
      invariant forall k :: k in nodes <==> k in all[..i]
    {
      LocalKeysStep(all, i);
      if !LocalKey(b.nodes[i].localKey) || b.nodes[i].localKey in nodes {
        NotLocalKeys(all, i);
        return false;
      }
      if b.nodes[i].metrics == [] {
        return false;
      }
      nodes := nodes + {b.nodes[i].localKey};
      assert b.nodes[..i + 1] == b.nodes[..i] + [b.nodes[i]] && all[..i + 1] == all[..i] + [all[i]];
    }
    assert b.nodes[..|b.nodes|] == b.nodes && all[..|all|] == all;
    ok := ValidateLinks(b, nodes);
  }

  lemma FittingKeys(keys: seq<string>)
    requires LocalKeys(keys)
    ensures forall k | k in keys :: SlashFree(k)
  {
  }

  method ValidateLinks(b: Block, nodes: set<string>) returns (ok: bool)
    requires LocalKeys(MetricNodeKeys(b.nodes)) && forall k :: k in nodes <==> k in MetricNodeKeys(b.nodes)
    ensures ok <==> DistinctLinks(b.links) && forall e | e in b.links :: LinkCloses(b, e)
  {
    FittingKeys(MetricNodeKeys(b.nodes));
    hide LocalKey, LocalKeys, PairText, SlashFree, MetricNodeKeys;
    var edges: set<string> := {};
    for i := 0 to |b.links|
      invariant DistinctLinks(b.links[..i]) && forall e | e in b.links[..i] :: LinkCloses(b, e)
      invariant forall t :: t in edges <==> exists j | 0 <= j < i :: PairText(b.links[j].source, b.links[j].target) == t
    {
      var e := b.links[i];
      assert e in b.links;
      var k := PairText(e.source, e.target);
      if !b.causal || e.source !in nodes || e.target !in nodes || e.source == e.target {
        return false;
      }
      forall j | 0 <= j < i
        ensures PairText(b.links[j].source, b.links[j].target) == k <==> b.links[j].source == e.source && b.links[j].target == e.target
      {
        PairTextSplit(b.links[j].source, b.links[j].target, e.source, e.target);
      }
      if k in edges {
        return false;
      }
      edges := edges + {k};
      assert b.links[..i + 1] == b.links[..i] + [e];
    }
    assert b.links[..|b.links|] == b.links;
    ok := true;
  }

  lemma PairTextSplit(x: string, y: string, r: string, a: string)
    requires SlashFree(r) && SlashFree(a)
    ensures PairText(x, y) == PairText(r, a) <==> x == r && y == a
  {
    SlashSplit(x, y, r, a);
  }

  method ValidateGraph(g: Graph) returns (ok: bool, nodes: map<string, GraphNode>)
    ensures ok <==> ReasoningGraphCloses(Some(g))
    ensures ok ==> ByKey(g.nodes, nodes)
  {
    nodes := map[];
    ghost var keys := GraphKeys(g.nodes);
    for i := 0 to |g.nodes|
      invariant Distinct(keys[..i]) && ByKey(g.nodes[..i], nodes)
      invariant forall k :: k in nodes <==> k in keys[..i]
    {
      var n := g.nodes[i];
      assert keys[..i + 1] == keys[..i] + [n.localKey] && g.nodes[..i + 1] == g.nodes[..i] + [n];
      if n.localKey in nodes {
        ghost var j :| 0 <= j < i && keys[..i][j] == n.localKey;
        assert keys[j] == keys[i];
        return false, nodes;
      }
      nodes := nodes[n.localKey := n];
    }
    assert keys[..|keys|] == keys && g.nodes[..|g.nodes|] == g.nodes;
    for i := 0 to |g.edges|
      invariant forall e | e in g.edges[..i] :: EdgeCloses(g.nodes, e)
    {
      var e := g.edges[i];
      assert e in g.edges;
      if e.source !in nodes || e.target !in nodes {
        return false, nodes;
      }
      assert nodes[e.source] in g.nodes && nodes[e.target] in g.nodes;
      assert g.edges[..i + 1] == g.edges[..i] + [e];
    }
    assert g.edges[..|g.edges|] == g.edges;
    ok := true;
  }

  method ValidateAssets(r: Reasoning, nodes: map<string, GraphNode>) returns (ok: bool)
    requires r.graph.Some? ==> Distinct(GraphKeys(r.graph.value.nodes)) && ByKey(r.graph.value.nodes, nodes)
    requires r.graph.None? ==> nodes == map[]
    ensures ok <==> LocalKeys(NodeKeys(r.assets)) && forall a | a in r.assets :: AssetBinds(r.graph, a)
  {
    hide LocalKey, LocalKeys, Binds;
    var keys: set<string> := {};
    ghost var all := NodeKeys(r.assets);
    LocalKeysEmpty(all);
    for i := 0 to |r.assets|
      invariant LocalKeys(all[..i]) && forall a | a in r.assets[..i] :: AssetBinds(r.graph, a)
      invariant forall k :: k in keys <==> k in all[..i]
    {
      var a := r.assets[i];
      assert a in r.assets;
      LocalKeysStep(all, i);
      if !LocalKey(a.localKey) || a.localKey in keys {
        NotLocalKeys(all, i);
        return false;
      }
      keys := keys + {a.localKey};
      if a.nodeLocalKey != "" {
        if r.graph.None? {
          return false;
        }
        var bound := Bound(r.graph.value.nodes, nodes, a);
        if !bound {
          return false;
        }
      }
      assert r.assets[..i + 1] == r.assets[..i] + [a] && all[..i + 1] == all[..i] + [all[i]];
    }
    assert r.assets[..|r.assets|] == r.assets && all[..|all|] == all;
    ok := true;
  }

  method ValidateBlocks(blocks: seq<Block>) returns (ok: bool)
    ensures ok <==> LocalKeys(BlockKeys(blocks)) && forall b | b in blocks :: BlockCloses(b)
  {
    hide LocalKey, LocalKeys, BlockCloses;
    var keys: set<string> := {};
    ghost var all := BlockKeys(blocks);
    LocalKeysEmpty(all);
    for i := 0 to |blocks|
      invariant LocalKeys(all[..i]) && forall b | b in blocks[..i] :: BlockCloses(b)
      invariant forall k :: k in keys <==> k in all[..i]
    {
      var b := blocks[i];
      assert b in blocks;
      LocalKeysStep(all, i);
      if !LocalKey(b.localKey) || b.localKey in keys {
        NotLocalKeys(all, i);
        return false;
      }
      keys := keys + {b.localKey};
      var blockOk := ValidateBlock(b);
      if !blockOk {
        return false;
      }
      assert blocks[..i + 1] == blocks[..i] + [b] && all[..i + 1] == all[..i] + [all[i]];
    }
    assert blocks[..|blocks|] == blocks && all[..|all|] == all;
    ok := true;
  }

  method ValidateReasoning(r: Reasoning) returns (ok: bool)
    ensures ok <==> ReasoningCloses(r)
  {
    var nodes: map<string, GraphNode> := map[];
    if r.graph.Some? {
      ok, nodes := ValidateGraph(r.graph.value);
      if !ok {
        return;
      }
    }
    hide LocalKeys, AssetBinds, BlockCloses;
    ok := ValidateAssets(r, nodes);
    if !ok {
      return;
    }
    ok := ValidateBlocks(r.blocks);
  }

  function Texts(reasoning: string, assets: seq<Node>): set<string> { set a | a in assets :: PairText(reasoning, a.localKey) }

  ghost predicate Targets(reasonings: seq<Reasoning>, targets: set<string>) {
    forall t :: t in targets <==> exists x | x in reasonings :: t in Texts(x.localKey, x.assets)
  }

  /** The reasonings of a unit: their own checks and the texts of the assets that references may name. */
  method ValidateReasonings(reasonings: seq<Reasoning>) returns (ok: bool, targets: set<string>)
    ensures ok <==> LocalKeys(ReasoningKeys(reasonings)) && forall r | r in reasonings :: ReasoningCloses(r)
    ensures ok ==> Targets(reasonings, targets)
  {
    hide LocalKey, LocalKeys, ReasoningCloses, Texts;
    targets := {};
    var keys: set<string> := {};
    ghost var all := ReasoningKeys(reasonings);
    LocalKeysEmpty(all);
    for i := 0 to |reasonings|
      invariant LocalKeys(all[..i]) && forall r | r in reasonings[..i] :: ReasoningCloses(r)
      invariant forall k :: k in keys <==> k in all[..i]
      invariant Targets(reasonings[..i], targets)
    {
      var r := reasonings[i];
      assert r in reasonings;
      LocalKeysStep(all, i);
      if !LocalKey(r.localKey) || r.localKey in keys {
        NotLocalKeys(all, i);
        return false, targets;
      }
      keys := keys + {r.localKey};
      var reasoningOk := ValidateReasoning(r);
      if !reasoningOk {
        return false, targets;
      }
      targets := targets + Texts(r.localKey, r.assets);
      assert reasonings[..i + 1] == reasonings[..i] + [r] && all[..i + 1] == all[..i] + [all[i]];
    }
    assert reasonings[..|reasonings|] == reasonings && all[..|all|] == all;
    ok := true;
  }

  lemma TargetText(reasonings: seq<Reasoning>, targets: set<string>, r: Ref)
    requires LocalKeys(ReasoningKeys(reasonings)) && (forall x | x in reasonings :: ReasoningCloses(x)) && Targets(reasonings, targets)
    ensures PairText(r.reasoningLocalKey, r.localKey) in targets <==>
            exists x, a | x in reasonings && a in x.assets :: x.localKey == r.reasoningLocalKey && a.localKey == r.localKey
    ensures PairText(r.reasoningLocalKey, r.localKey) in targets ==> SlashFree(r.reasoningLocalKey) && SlashFree(r.localKey)
  {
    var t := PairText(r.reasoningLocalKey, r.localKey);
    if t in targets {
      var x :| x in reasonings && t in Texts(x.localKey, x.assets);
      var a :| a in x.assets && PairText(x.localKey, a.localKey) == t;
      KeysFit(reasonings, x, a);
      hide ReasoningCloses, LocalKeys, PairText;
      PairTextSplit(r.reasoningLocalKey, r.localKey, x.localKey, a.localKey);
    }
  }

  lemma KeysFit(reasonings: seq<Reasoning>, x: Reasoning, a: Node)
    requires LocalKeys(ReasoningKeys(reasonings)) && x in reasonings && ReasoningCloses(x) && a in x.assets
    ensures SlashFree(x.localKey) && SlashFree(a.localKey)
  {
    var i :| 0 <= i < |reasonings| && reasonings[i] == x;
    assert ReasoningKeys(reasonings)[i] == x.localKey;
    var j :| 0 <= j < |x.assets| && x.assets[j] == a;
    assert NodeKeys(x.assets)[j] == a.localKey;
    LocalKeySlashFree(x.localKey);
    LocalKeySlashFree(a.localKey);
  }

  method ValidateAnchors(reasonings: seq<Reasoning>, targets: set<string>, refs: seq<Ref>) returns (ok: bool)
    requires LocalKeys(ReasoningKeys(reasonings)) && (forall x | x in reasonings :: ReasoningCloses(x)) && Targets(reasonings, targets)
    ensures ok <==> DistinctAnchors(refs) && forall r | r in refs :: AnchorCloses(reasonings, r)
  {
    hide LocalKeys, ReasoningCloses, Targets, PairText, SlashFree;
    var seen: set<string> := {};
    for i := 0 to |refs|
      invariant DistinctAnchors(refs[..i]) && forall r | r in refs[..i] :: AnchorCloses(reasonings, r)
      invariant forall t :: t in seen <==> exists j | 0 <= j < i :: PairText(refs[j].reasoningLocalKey, refs[j].localKey) == t
    {
      var r := refs[i];
      var k := PairText(r.reasoningLocalKey, r.localKey);
      TargetText(reasonings, targets, r);
      assert r in refs;
      if r.targetType != "" || r.chainLocalKey.Some? || k !in targets {
        return false;
      }
      forall j | 0 <= j < i
        ensures PairText(refs[j].reasoningLocalKey, refs[j].localKey) == k <==>
                refs[j].reasoningLocalKey == r.reasoningLocalKey && refs[j].localKey == r.localKey
      {
        PairTextSplit(refs[j].reasoningLocalKey, refs[j].localKey, r.reasoningLocalKey, r.localKey);
      }
      if k in seen {
        return false;
      }
      seen := seen + {k};
      assert refs[..i + 1] == refs[..i] + [r];
    }
    assert refs[..|refs|] == refs;
    ok := true;
  }

  /** `ValidateUnifiedUnit`, without its checks of single fields. */
  method ValidateUnifiedUnit(kind: string, u: Unit) returns (ok: bool)
    ensures ok <==> UnifiedCloses(kind, u)
  {
    hide LocalKey, LocalKeys, ReasoningCloses, JudgmentsClose, DistinctAnchors, AnchorCloses;
    if !LocalKey(u.localKey) || u.detail.macros != [] || u.detail.chains != [] || u.detail.reasonings == [] {
      return false;
    }
    if Geopolitical(kind) && u.summary.evidenceIds == [] {
      return false;
    }
    var targets;
    ok, targets := ValidateReasonings(u.detail.reasonings);
    if !ok {
      return;
    }
    var judgments := UnifiedJudgments(u);
    if judgments != [] {
      ok := ValidateSignalJudgments(judgments);
      if !ok {
        return;
      }
    }
    ok := ValidateAnchors(u.detail.reasonings, targets, u.summary.refs);
  }
}
