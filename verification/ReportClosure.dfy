/** Uniqueness, closure and graph binding of normalized units: the validators against what they promise. */
module ReportClosure {
  import opened Json
  import opened Sequences
  import opened ReportModel

  // ---- graphs ----

  predicate DistinctSources(nodes: seq<GraphNode>) {
    forall i, j | 0 <= i < j < |nodes| :: nodes[i].sourceId != nodes[j].sourceId
  }

  predicate HasGraphKey(nodes: seq<GraphNode>, key: string) { exists g | g in nodes :: g.localKey == key }

  function EdgeText(e: Edge): string { e.source + "/" + (e.target + "/" + e.relation) }

  predicate EdgeCloses(nodes: seq<GraphNode>, e: Edge) { HasGraphKey(nodes, e.source) && HasGraphKey(nodes, e.target) }

  /** A version 4 graph: valid distinct keys, distinct sources, edges between two nodes of it, none twice. */
  predicate GraphCloses(g: Graph) {
    && LocalKeys(GraphKeys(g.nodes)) && DistinctSources(g.nodes) && Distinct(g.edges)
    && forall e | e in g.edges :: EdgeCloses(g.nodes, e) && e.source != e.target
  }

  /** The node is the graph node it names. */
  predicate Binds(nodes: seq<GraphNode>, n: Node) {
    exists g | g in nodes :: g.localKey == n.nodeLocalKey && g.sourceId == n.sourceId && g.name == n.name
  }

  predicate DistinctTargets(nodes: seq<Node>) {
    forall i, j | 0 <= i < j < |nodes| :: nodes[i].nodeLocalKey != nodes[j].nodeLocalKey
  }

  predicate ChainCloses(c: Chain) {
    && LocalKey(c.localKey) && GraphCloses(c.graph) && LocalKeys(NodeKeys(c.nodes)) && DistinctTargets(c.nodes)
    && forall n | n in c.nodes :: Binds(c.graph.nodes, n)
  }

  lemma GraphKeyUnique(nodes: seq<GraphNode>, a: GraphNode, b: GraphNode)
    requires Distinct(GraphKeys(nodes)) && a in nodes && b in nodes && a.localKey == b.localKey
    ensures a == b
  {
    var i :| 0 <= i < |nodes| && nodes[i] == a;
    var j :| 0 <= j < |nodes| && nodes[j] == b;
    assert GraphKeys(nodes)[i] == GraphKeys(nodes)[j];
  }

  lemma EdgeTextUnique(e: Edge, f: Edge)
    requires LocalKey(e.source) && LocalKey(e.target) && LocalKey(f.source) && LocalKey(f.target)
    ensures EdgeText(e) == EdgeText(f) <==> e == f
  {
    FirstSlash(e.source, e.target + "/" + e.relation, f.source, f.target + "/" + f.relation);
    FirstSlash(e.target, e.relation, f.target, f.relation);
  }

  ghost predicate ByKey(nodes: seq<GraphNode>, graph: map<string, GraphNode>) {
    && (forall n | n in nodes :: n.localKey in graph && graph[n.localKey] == n)
    && (forall k | k in graph :: graph[k] in nodes && graph[k].localKey == k)
  }

  method ValidateGraphNodes(nodes: seq<GraphNode>) returns (ok: bool, graph: map<string, GraphNode>)
    ensures ok <==> LocalKeys(GraphKeys(nodes)) && DistinctSources(nodes)
    ensures ok ==> ByKey(nodes, graph)
  {
    hide LocalKey, LocalKeys;
    graph := map[];
    var graphIds: set<string> := {};
    ghost var keys := GraphKeys(nodes);
    LocalKeysEmpty(keys);
    for i := 0 to |nodes|
      invariant LocalKeys(keys[..i]) && DistinctSources(nodes[..i])
      invariant forall k :: k in graph <==> k in keys[..i]
      invariant forall k :: k in graphIds <==> exists j | 0 <= j < i :: nodes[j].sourceId == k
      invariant ByKey(nodes[..i], graph)
    {
      var n := nodes[i];
      LocalKeysStep(keys, i);
      if !LocalKey(n.localKey) || n.localKey in graph {
        NotLocalKeys(keys, i);
        return false, graph;
      }
      if n.sourceId in graphIds {
        return false, graph;
      }
      graphIds := graphIds + {n.sourceId};
      assert nodes[..i + 1] == nodes[..i] + [n] && keys[..i + 1] == keys[..i] + [keys[i]];
      graph := graph[n.localKey := n];
    }
    assert nodes[..|nodes|] == nodes && keys[..|keys|] == keys;
    ok := true;
  }

  lemma LocalKeysEmpty(keys: seq<string>)
    ensures LocalKeys(keys[..0])
  {
  }

  lemma NotLocalKeys(keys: seq<string>, i: nat)
    requires i < |keys| && !LocalKeys(keys[..i + 1])
    ensures !LocalKeys(keys)
  {
    if LocalKeys(keys) { LocalKeysPrefix(keys, i + 1); }
  }

  method ValidateEdges(nodes: seq<GraphNode>, graph: map<string, GraphNode>, edges: seq<Edge>) returns (ok: bool)
    requires LocalKeys(GraphKeys(nodes)) && ByKey(nodes, graph)
    ensures ok <==> Distinct(edges) && forall e | e in edges :: EdgeCloses(nodes, e) && e.source != e.target
  {
    var seen: set<string> := {};
    EndpointKeys(nodes);
    for i := 0 to |edges|
      invariant Distinct(edges[..i]) && forall e | e in edges[..i] :: EdgeCloses(nodes, e) && e.source != e.target
      invariant forall t :: t in seen <==> exists j | 0 <= j < i :: EdgeText(edges[j]) == t
    {
      hide LocalKey, LocalKeys, EdgeText;
      var e := edges[i];
      if e.source !in graph || e.target !in graph || e.source == e.target {
        return false;
      }
      assert graph[e.source] in nodes && graph[e.target] in nodes;
      forall j | 0 <= j < i ensures EdgeText(edges[j]) == EdgeText(e) <==> edges[j] == e {
        assert edges[j] in edges[..i];
        EdgeTextUnique(edges[j], e);
      }
      if EdgeText(e) in seen {
        return false;
      }
      seen := seen + {EdgeText(e)};
      assert edges[..i + 1] == edges[..i] + [e];
    }
    assert edges[..|edges|] == edges;
    ok := true;
  }

  lemma EndpointKeys(nodes: seq<GraphNode>)
    requires LocalKeys(GraphKeys(nodes))
    ensures forall k | HasGraphKey(nodes, k) :: LocalKey(k)
  {
    forall k | HasGraphKey(nodes, k) ensures LocalKey(k) {
      var g :| g in nodes && g.localKey == k;
      var i :| 0 <= i < |nodes| && nodes[i] == g;
      assert GraphKeys(nodes)[i] == k;
    }
  }

  function KeySet(nodes: seq<Node>): set<string> { set n | n in nodes :: n.localKey }

  lemma KeySetKeys(nodes: seq<Node>)
    ensures forall k :: k in KeySet(nodes) <==> k in NodeKeys(nodes)
  {
    forall k | k in KeySet(nodes) ensures k in NodeKeys(nodes) {
      var n :| n in nodes && n.localKey == k;
      var i :| 0 <= i < |nodes| && nodes[i] == n;
      assert NodeKeys(nodes)[i] == k;
    }
  }

  /** `validateNormalizedChain`: answers the keys of the affected nodes. */
  method ValidateChain(c: Chain) returns (ok: bool, keys: set<string>)
    ensures ok <==> ChainCloses(c)
    ensures ok ==> keys == KeySet(c.nodes)
  {
    hide LocalKey, LocalKeys;
    keys := {};
    if !LocalKey(c.localKey) {
      return false, keys;
    }
    var nodesOk, graph := ValidateGraphNodes(c.graph.nodes);
    if !nodesOk {
      return false, keys;
    }
    var edgesOk := ValidateEdges(c.graph.nodes, graph, c.graph.edges);
    if !edgesOk {
      return false, keys;
    }
    ok, keys := ValidateNodes(c, graph);
  }

  method ValidateNodes(c: Chain, graph: map<string, GraphNode>) returns (ok: bool, keys: set<string>)
    requires Distinct(GraphKeys(c.graph.nodes)) && ByKey(c.graph.nodes, graph)
    ensures ok <==> LocalKeys(NodeKeys(c.nodes)) && DistinctTargets(c.nodes) && forall n | n in c.nodes :: Binds(c.graph.nodes, n)
    ensures ok ==> keys == KeySet(c.nodes)
  {
    hide LocalKey, LocalKeys;
    keys := {};
    KeySetKeys(c.nodes);
    var targets: set<string> := {};
    ghost var all := NodeKeys(c.nodes);
    LocalKeysEmpty(all);
    for i := 0 to |c.nodes|
      invariant LocalKeys(all[..i]) && DistinctTargets(c.nodes[..i])
      invariant forall n | n in c.nodes[..i] :: Binds(c.graph.nodes, n)
      invariant forall k :: k in keys <==> k in all[..i]
      invariant forall k :: k in targets <==> exists j | 0 <= j < i :: c.nodes[j].nodeLocalKey == k
    {
      var n := c.nodes[i];
      LocalKeysStep(all, i);
      if !LocalKey(n.localKey) || n.localKey in keys {
        NotLocalKeys(all, i);
        return false, keys;
      }
      keys := keys + {n.localKey};
      var bound := Bound(c.graph.nodes, graph, n);
      if !bound || n.nodeLocalKey in targets {
        return false, keys;
      }
      targets := targets + {n.nodeLocalKey};
      assert c.nodes[..i + 1] == c.nodes[..i] + [n] && all[..i + 1] == all[..i] + [all[i]];
    }
    assert c.nodes[..|c.nodes|] == c.nodes && all[..|all|] == all;
    ok := true;
  }

  method Bound(nodes: seq<GraphNode>, graph: map<string, GraphNode>, n: Node) returns (ok: bool)
    requires Distinct(GraphKeys(nodes)) && ByKey(nodes, graph)
    ensures ok <==> Binds(nodes, n)
  {
    ok := n.nodeLocalKey in graph && graph[n.nodeLocalKey].sourceId == n.sourceId && graph[n.nodeLocalKey].name == n.name;
    if Binds(nodes, n) {
      var g :| g in nodes && g.localKey == n.nodeLocalKey && g.sourceId == n.sourceId && g.name == n.name;
      GraphKeyUnique(nodes, g, graph[n.nodeLocalKey]);
    }
  }

  // ---- version 4 units ----

  /** What a reference points at: versions 4 and 5 compare target type, chain key and local key. */
  datatype RefKey = RefKey(targetType: string, chain: Option<string>, localKey: string)

  function KeyOf(r: Ref): RefKey { RefKey(r.targetType, r.chainLocalKey, r.localKey) }

  function RefText(r: Ref): string {
    r.targetType + "/" + (if r.chainLocalKey.Some? then r.localKey + "/" + r.chainLocalKey.value else r.localKey)
  }

  predicate Geopolitical(kind: string) { kind == "geopolitical_stories" }

  predicate Concept(kind: string) { kind == "concept_analyses" || kind == "industry_chain_analyses" }

  predicate RefCloses(kind: string, d: Detail, r: Ref) {
    if r.targetType == "macroeconomic_story" then Geopolitical(kind) && r.chainLocalKey.None? && r.localKey in MacroKeys(d.macros)
    else if r.targetType == "industry_chain" then !Concept(kind) && r.chainLocalKey.None? && r.localKey in ChainKeys(d.chains)
    else
      && r.targetType == "industry_chain_node" && r.chainLocalKey.Some? && Concept(kind)
      && exists c | c in d.chains :: c.localKey == r.chainLocalKey.value && r.localKey in NodeKeys(c.nodes)
  }

  predicate DistinctRefs(refs: seq<Ref>) {
    forall i, j | 0 <= i < j < |refs| :: KeyOf(refs[i]) != KeyOf(refs[j])
  }

  predicate ChainsClose(chains: seq<Chain>) {
    && LocalKeys(ChainKeys(chains))
    && (forall i, j | 0 <= i < j < |chains| :: chains[i].sourceId != chains[j].sourceId)
    && forall c | c in chains :: ChainCloses(c)
  }

  predicate UnitCloses(kind: string, u: Unit) {
    && LocalKey(u.localKey)
    && (u.summary.impact.level != "pending" ==> u.summary.impact.evidenceIds != [])
    && (!Geopolitical(kind) ==> u.detail.macros == [])
    && LocalKeys(MacroKeys(u.detail.macros))
    && ChainsClose(u.detail.chains)
    && DistinctRefs(u.summary.refs)
    && forall r | r in u.summary.refs :: RefCloses(kind, u.detail, r)
  }

  lemma ClosedKeys(kind: string, d: Detail, r: Ref)
    requires LocalKeys(MacroKeys(d.macros)) && ChainsClose(d.chains) && RefCloses(kind, d, r)
    ensures LocalKey(r.localKey) && (r.chainLocalKey.Some? ==> LocalKey(r.chainLocalKey.value))
  {
    if r.targetType == "industry_chain_node" {
      var c :| c in d.chains && c.localKey == r.chainLocalKey.value && r.localKey in NodeKeys(c.nodes);
      assert ChainCloses(c);
    }
  }

  /** Among closed references the joined text distinguishes what the three parts distinguish. */
  lemma RefTextUnique(kind: string, d: Detail, r: Ref, s: Ref)
    requires LocalKeys(MacroKeys(d.macros)) && ChainsClose(d.chains) && RefCloses(kind, d, r) && RefCloses(kind, d, s)
    ensures RefText(r) == RefText(s) <==> KeyOf(r) == KeyOf(s)
  {
    ClosedKeys(kind, d, r);
    ClosedKeys(kind, d, s);
    var x := if r.chainLocalKey.Some? then r.localKey + "/" + r.chainLocalKey.value else r.localKey;
    var y := if s.chainLocalKey.Some? then s.localKey + "/" + s.chainLocalKey.value else s.localKey;
    assert SlashFree("macroeconomic_story") && SlashFree("industry_chain") && SlashFree("industry_chain_node");
    assert r.chainLocalKey.Some? <==> r.targetType == "industry_chain_node";
    assert s.chainLocalKey.Some? <==> s.targetType == "industry_chain_node";
    hide LocalKeys, ChainsClose, MacroKeys;
    FirstSlash(r.targetType, x, s.targetType, y);
    if r.chainLocalKey.Some? && s.chainLocalKey.Some? {
      LocalKeySlashFree(r.localKey);
      LocalKeySlashFree(s.localKey);
      FirstSlash(r.localKey, r.chainLocalKey.value, s.localKey, s.chainLocalKey.value);
    }
  }

  method ValidateMacros(macros: seq<Macro>) returns (ok: bool, keys: set<string>)
    ensures ok <==> LocalKeys(MacroKeys(macros))
    ensures ok ==> forall k :: k in keys <==> k in MacroKeys(macros)
  {
    hide LocalKey, LocalKeys;
    keys := {};
    ghost var all := MacroKeys(macros);
    LocalKeysEmpty(all);
    for i := 0 to |macros|
      invariant LocalKeys(all[..i])
      invariant forall k :: k in keys <==> k in all[..i]
    {
      LocalKeysStep(all, i);
      if !LocalKey(macros[i].localKey) || macros[i].localKey in keys {
        NotLocalKeys(all, i);
        return false, keys;
      }
      keys := keys + {macros[i].localKey};
      assert all[..i + 1] == all[..i] + [all[i]];
    }
    assert all[..|all|] == all;
    ok := true;
  }

  ghost predicate ByChain(chains: seq<Chain>, nodes: map<string, set<string>>) {
    && nodes.Keys == (set c | c in chains :: c.localKey)
    && forall c | c in chains :: nodes[c.localKey] == KeySet(c.nodes)
  }

  method ValidateChains(chains: seq<Chain>) returns (ok: bool, nodes: map<string, set<string>>)
    ensures ok <==> ChainsClose(chains)
    ensures ok ==> ByChain(chains, nodes)
  {
    hide LocalKey, LocalKeys, KeySet, ChainCloses;
    nodes := map[];
    var sources: set<string> := {};
    ghost var all := ChainKeys(chains);
    LocalKeysEmpty(all);
    for i := 0 to |chains|
      invariant LocalKeys(all[..i]) && forall c | c in chains[..i] :: ChainCloses(c)
      invariant forall m, n | 0 <= m < n < i :: chains[m].sourceId != chains[n].sourceId
      invariant forall k :: k in sources <==> exists j | 0 <= j < i :: chains[j].sourceId == k
      invariant ByChain(chains[..i], nodes)
    {
      var c := chains[i];
      if c.sourceId in sources {
        return false, nodes;
      }
      sources := sources + {c.sourceId};
      LocalKeysStep(all, i);
      var chainOk, keys := ValidateChain(c);
      if !chainOk {
        return false, nodes;
      }
      ChainKeyFits(c);
      ChainKeysSeen(chains, i);
      if c.localKey in nodes {
        NotLocalKeys(all, i);
        return false, nodes;
      }
      nodes := nodes[c.localKey := keys];
      assert chains[..i + 1] == chains[..i] + [c];
    }
    assert chains[..|chains|] == chains && all[..|all|] == all;
    ok := true;
  }

  lemma ChainKeysSeen(chains: seq<Chain>, i: nat)
    requires i <= |chains|
    ensures forall k :: k in (set c | c in chains[..i] :: c.localKey) <==> k in ChainKeys(chains)[..i]
  {
    forall k | k in ChainKeys(chains)[..i] ensures k in (set c | c in chains[..i] :: c.localKey) {
      var j :| 0 <= j < i && ChainKeys(chains)[j] == k;
      assert chains[j] in chains[..i];
    }
    forall k | k in (set c | c in chains[..i] :: c.localKey) ensures k in ChainKeys(chains)[..i] {
      var c :| c in chains[..i] && c.localKey == k;
      var j :| 0 <= j < i && chains[j] == c;
      assert ChainKeys(chains)[j] == k;
    }
  }

  lemma ChainKeyFits(c: Chain)
    requires ChainCloses(c)
    ensures LocalKey(c.localKey)
  {
  }

  lemma OneChain(chains: seq<Chain>, a: Chain, b: Chain)
    requires Distinct(ChainKeys(chains)) && a in chains && b in chains && a.localKey == b.localKey
    ensures a == b
  {
    var i :| 0 <= i < |chains| && chains[i] == a;
    var j :| 0 <= j < |chains| && chains[j] == b;
    assert ChainKeys(chains)[i] == ChainKeys(chains)[j];
  }

  lemma InNodeKeys(nodes: seq<Node>, n: Node)
    requires n in nodes
    ensures n.localKey in NodeKeys(nodes)
  {
    var i :| 0 <= i < |nodes| && nodes[i] == n;
    assert NodeKeys(nodes)[i] == n.localKey;
  }

  lemma OneMacro(macros: seq<Macro>, a: Macro, b: Macro)
    requires Distinct(MacroKeys(macros)) && a in macros && b in macros && a.localKey == b.localKey
    ensures a == b
  {
    var i :| 0 <= i < |macros| && macros[i] == a;
    var j :| 0 <= j < |macros| && macros[j] == b;
    assert MacroKeys(macros)[i] == MacroKeys(macros)[j];
  }

  lemma OneNode(nodes: seq<Node>, a: Node, b: Node)
    requires Distinct(NodeKeys(nodes)) && a in nodes && b in nodes && a.localKey == b.localKey
    ensures a == b
  {
    var i :| 0 <= i < |nodes| && nodes[i] == a;
    var j :| 0 <= j < |nodes| && nodes[j] == b;
    assert NodeKeys(nodes)[i] == NodeKeys(nodes)[j];
  }

  /** `validateNormalizedUnit`, without its checks of single fields. */
  method ValidateNormalizedUnit(kind: string, u: Unit) returns (ok: bool)
    ensures ok <==> UnitCloses(kind, u)
  {
    hide LocalKey, LocalKeys, ChainsClose, RefText;
    if !LocalKey(u.localKey) {
      return false;
    }
    if u.summary.impact.level != "pending" && u.summary.impact.evidenceIds == [] {
      return false;
    }
    if !Geopolitical(kind) && u.detail.macros != [] {
      return false;
    }
    var macrosOk, macros := ValidateMacros(u.detail.macros);
    if !macrosOk {
      return false;
    }
    var chainsOk, chains := ValidateChains(u.detail.chains);
    if !chainsOk {
      return false;
    }
    var refs, seen := u.summary.refs, {};
    for i := 0 to |refs|
      invariant DistinctRefs(refs[..i]) && forall r | r in refs[..i] :: RefCloses(kind, u.detail, r)
      invariant forall t :: t in seen <==> exists j | 0 <= j < i :: RefText(refs[j]) == t
    {
      var r := refs[i];
      var valid := RefValid(kind, u.detail, macros, chains, r);
      forall j | 0 <= j < i && valid ensures RefText(refs[j]) == RefText(r) <==> KeyOf(refs[j]) == KeyOf(r) {
        assert refs[j] in refs[..i];
        RefTextUnique(kind, u.detail, refs[j], r);
      }
      if RefText(r) in seen || !valid {
        return false;
      }
      seen := seen + {RefText(r)};
      assert refs[..i + 1] == refs[..i] + [r];
    }
    assert refs[..|refs|] == refs;
    ok := true;
  }

  method RefValid(kind: string, d: Detail, macros: set<string>, chains: map<string, set<string>>, r: Ref) returns (valid: bool)
    requires ChainsClose(d.chains) && ByChain(d.chains, chains) && forall k :: k in macros <==> k in MacroKeys(d.macros)
    ensures valid <==> RefCloses(kind, d, r)
  {
    ChainKeysSeen(d.chains, |d.chains|);
    assert d.chains[..|d.chains|] == d.chains && ChainKeys(d.chains)[..|d.chains|] == ChainKeys(d.chains);
    forall c | c in d.chains ensures forall k :: k in KeySet(c.nodes) <==> k in NodeKeys(c.nodes) { KeySetKeys(c.nodes); }
    hide ChainCloses, LocalKey, MacroKeys, NodeKeys, KeySet;
    valid := false;
    if r.targetType == "macroeconomic_story" {
      valid := Geopolitical(kind) && r.chainLocalKey.None? && r.localKey in macros;
    } else if r.targetType == "industry_chain" {
      valid := !Concept(kind) && r.chainLocalKey.None? && r.localKey in chains;
    } else if r.targetType == "industry_chain_node" && r.chainLocalKey.Some? {
      var key := r.chainLocalKey.value;
      valid := Concept(kind) && key in chains && r.localKey in chains[key];
      if key in chains {
        var c :| c in d.chains && c.localKey == key;
        assert forall k :: k in chains[key] <==> k in NodeKeys(c.nodes);
      }
    }
  }

  // ---- signal judgments ----

  datatype Judgment = Judgment(key: string, id: string, provenance: Provenance)

  function JudgmentKeys(values: seq<Judgment>): (k: seq<string>)
    ensures |k| == |values|
  {
    seq(|values|, i requires 0 <= i < |values| => values[i].key)
  }

  predicate SignalFits(row: Signal, src: Sources, i: nat) {
    && i < |src.signalIds| && row.signalId == src.signalIds[i]
    && row.eventIds != [] && row.evidenceIds != [] && Distinct(row.eventIds) && Distinct(row.evidenceIds)
    && forall id | id in row.eventIds :: id in src.eventIds
  }

  /** The checks of one judgment that no other judgment can influence. */
  predicate OwnProvenance(p: Provenance) {
    && p.signals.Some? && p.sources.Some?
    && var src, rows := p.sources.value, p.signals.value;
    && Distinct(src.signalIds) && Distinct(src.eventIds)
    && p.origin in {"direct", "inferred"} && (p.origin == "direct" <==> rows != [])
    && (src.eventIds != [] || src.upstream != []) && |src.signalIds| == |rows|
    && forall i | 0 <= i < |rows| :: SignalFits(rows[i], src, i)
  }

  predicate UpstreamCloses(values: seq<Judgment>, key: string, r: UpstreamRef) {
    r.localKey != key && exists w | w in values :: w.key == r.localKey && w.id == r.entityId
  }

  predicate DistinctUpstream(refs: seq<UpstreamRef>) {
    forall i, j | 0 <= i < j < |refs| :: refs[i].localKey != refs[j].localKey
  }

  predicate JudgmentCloses(values: seq<Judgment>, v: Judgment) {
    && OwnProvenance(v.provenance)
    && DistinctUpstream(v.provenance.sources.value.upstream)
    && forall r | r in v.provenance.sources.value.upstream :: UpstreamCloses(values, v.key, r)
  }

  predicate JudgmentsClose(values: seq<Judgment>) {
    LocalKeys(JudgmentKeys(values)) && forall v | v in values :: JudgmentCloses(values, v)
  }

  /** `validateSignalJudgments`. */
  method ValidateSignalJudgments(values: seq<Judgment>) returns (ok: bool)
    ensures ok <==> JudgmentsClose(values)
  {
    hide LocalKey, LocalKeys, OwnProvenance;
    var objects: map<string, string> := map[];
    ghost var all := JudgmentKeys(values);
    LocalKeysEmpty(all);
    for i := 0 to |values|
      invariant LocalKeys(all[..i])
      invariant forall k :: k in objects <==> k in all[..i]
      invariant forall j | 0 <= j < i :: values[j].key in objects && objects[values[j].key] == values[j].id
    {
      LocalKeysStep(all, i);
      if !LocalKey(values[i].key) || values[i].key in objects {
        NotLocalKeys(all, i);
        return false;
      }
      forall j | 0 <= j < i ensures values[j].key != values[i].key { assert all[..i][j] == values[j].key; }
      objects := objects[values[i].key := values[i].id];
      assert all[..i + 1] == all[..i] + [all[i]];
    }
    assert all[..|all|] == all;
    assert ObjectsOf(values, objects) by { KeysBack(values, objects); }
    for i := 0 to |values|
      invariant forall j | 0 <= j < i :: JudgmentCloses(values, values[j])
    {
      var v := values[i];
      assert v in values;
      if !OwnProvenance(v.provenance) {
        return false;
      }
      OwnHasSources(v.provenance);
      var upstreamOk := ValidateUpstream(values, objects, v.key, v.provenance.sources.value.upstream);
      if !upstreamOk {
        return false;
      }
    }
    ok := true;
  }

  lemma OwnHasSources(p: Provenance)
    requires OwnProvenance(p)
    ensures p.sources.Some?
  {
  }

  ghost predicate ObjectsOf(values: seq<Judgment>, objects: map<string, string>) {
    && (forall v | v in values :: v.key in objects && objects[v.key] == v.id)
    && (forall k | k in objects :: exists v | v in values :: v.key == k)
  }

  lemma KeysBack(values: seq<Judgment>, objects: map<string, string>)
    requires forall k :: k in objects <==> k in JudgmentKeys(values)
    requires forall j | 0 <= j < |values| :: values[j].key in objects && objects[values[j].key] == values[j].id
    ensures ObjectsOf(values, objects)
  {
    forall k | k in objects ensures exists v | v in values :: v.key == k {
      var j :| 0 <= j < |values| && JudgmentKeys(values)[j] == k;
      assert values[j] in values;
    }
  }

  method ValidateUpstream(values: seq<Judgment>, objects: map<string, string>, key: string, refs: seq<UpstreamRef>) returns (ok: bool)
    requires ObjectsOf(values, objects)
    ensures ok <==> DistinctUpstream(refs) && forall r | r in refs :: UpstreamCloses(values, key, r)
  {
    var seen: set<string> := {};
    for i := 0 to |refs|
      invariant DistinctUpstream(refs[..i]) && forall r | r in refs[..i] :: UpstreamCloses(values, key, r)
      invariant forall k :: k in seen <==> exists j | 0 <= j < i :: refs[j].localKey == k
    {
      var r := refs[i];
      assert r in refs;
      if r.localKey !in objects || objects[r.localKey] != r.entityId || r.localKey == key || r.localKey in seen {
        return false;
      }
      seen := seen + {r.localKey};
      assert refs[..i + 1] == refs[..i] + [r];
    }
    assert refs[..|refs|] == refs;
    ok := true;
  }
}
