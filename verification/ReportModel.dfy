/** The normalized report, versions 4 to 6: the fields that carry keys, references, provenance or Evidence. */
module ReportModel {
  import opened Json
  import opened Sequences

  datatype Claim = Claim(text: string, basis: string, evidenceIds: seq<string>)

  datatype Objections = Objections(status: string, counterevidence: seq<Claim>, buffers: seq<Claim>)

  datatype Assessment = Assessment(conclusion: string, transmissionLogic: string, evidenceIds: seq<string>)

  datatype UpstreamRef = UpstreamRef(entityId: string, localKey: string)

  datatype Sources = Sources(signalIds: seq<string>, eventIds: seq<string>, upstream: seq<UpstreamRef>)

  datatype Signal = Signal(signalId: string, eventIds: seq<string>, evidenceIds: seq<string>)

  /** `judgment_origin`, `reasoning_sources` and `variable_signals`; absent in version 4. */
  datatype Provenance = Provenance(origin: string, sources: Option<Sources>, signals: Option<seq<Signal>>)

  datatype Macro = Macro(
    localKey: string, sourceId: string, name: string, assessment: Assessment, objections: Objections, provenance: Provenance)

  /** An affected node of a chain, and from version 6 an affected asset of a reasoning. */
  datatype Node = Node(
    localKey: string, sourceId: string, nodeLocalKey: string, name: string, assessment: Assessment,
    objections: Objections, provenance: Provenance)

  datatype GraphNode = GraphNode(localKey: string, sourceId: string, name: string)

  datatype Edge = Edge(source: string, target: string, relation: string)

  datatype Graph = Graph(nodes: seq<GraphNode>, edges: seq<Edge>)

  datatype ReasoningSummary = ReasoningSummary(logic: string, support: Option<Claim>, objections: Objections)

  datatype ChainSummary = ChainSummary(logic: string, support: Claim, objections: Objections)

  datatype Chain = Chain(
    localKey: string, sourceId: string, name: string, assessment: Assessment, summary: ChainSummary,
    graph: Graph, nodes: seq<Node>, provenance: Provenance)

  datatype Metric = Metric(name: string, evidenceIds: seq<string>)

  datatype MetricNode = MetricNode(localKey: string, name: string, metrics: seq<Metric>)

  datatype Block = Block(localKey: string, title: string, causal: bool, nodes: seq<MetricNode>, links: seq<Edge>)

  datatype Reasoning = Reasoning(
    localKey: string, sourceId: string, title: string, assessment: Assessment, summary: ReasoningSummary,
    blocks: seq<Block>, graph: Option<Graph>, assets: seq<Node>, provenance: Provenance)

  /** Versions 4 and 5 fill `targetType`, version 6 fills `reasoningLocalKey`. */
  datatype Ref = Ref(reasoningLocalKey: string, targetType: string, localKey: string, chainLocalKey: Option<string>)

  datatype Impact = Impact(level: string, evidenceIds: seq<string>)

  datatype Summary = Summary(conclusion: string, evidenceIds: seq<string>, impact: Impact, refs: seq<Ref>)

  datatype Detail = Detail(
    reasonings: seq<Reasoning>, macros: seq<Macro>, chains: seq<Chain>, companies: Option<seq<Macro>>)

  datatype Unit = Unit(
    localKey: string, sourceId: string, title: string, provenance: Provenance, summary: Summary, detail: Detail)

  datatype Observation = Observation(localKey: string, text: string, evidenceIds: seq<string>)

  // ---- local keys ----

  predicate AlphaNumeric(c: char) { 'A' <= c <= 'Z' || 'a' <= c <= 'z' || '0' <= c <= '9' }

  predicate KeyChar(c: char) { AlphaNumeric(c) || c == '.' || c == '_' || c == '-' }

  /** `localKeyPattern`. */
  predicate LocalKey(key: string) {
    1 <= |key| <= 128 && AlphaNumeric(key[0]) && forall i | 0 <= i < |key| :: KeyChar(key[i])
  }

  predicate SlashFree(s: string) { '/' !in s }

  lemma LocalKeySlashFree(key: string)
    requires LocalKey(key)
    ensures SlashFree(key)
  {
  }

  /** Keys that `normalizedKey` accepts one after the other with one `seen` map. */
  predicate LocalKeys(keys: seq<string>) { (forall k | k in keys :: LocalKey(k)) && Distinct(keys) }

  /** One more key is accepted when it fits the pattern and was not seen. */
  lemma LocalKeysStep(keys: seq<string>, i: nat)
    requires i < |keys|
    ensures LocalKeys(keys[..i + 1]) <==> LocalKeys(keys[..i]) && LocalKey(keys[i]) && keys[i] !in keys[..i]
  {
    var a, b := keys[..i], keys[..i + 1];
    assert b == a + [keys[i]];
    hide LocalKey;
    if LocalKeys(b) {
      forall k | k in a ensures LocalKey(k) && k != keys[i] {
        var n :| 0 <= n < |a| && a[n] == k;
        assert b[n] == k && b[i] == keys[i];
      }
      forall m, n | 0 <= m < n < |a| ensures a[m] != a[n] { assert b[m] != b[n]; }
      assert b[i] in b;
    }
    if LocalKeys(a) && LocalKey(keys[i]) && keys[i] !in a {
      forall m, n | 0 <= m < n < |b| ensures b[m] != b[n] {
        assert b[m] == a[m];
        if n < i { assert b[n] == a[n]; }
      }
    }
  }

  lemma LocalKeysPrefix(keys: seq<string>, i: nat)
    requires i <= |keys| && LocalKeys(keys)
    ensures LocalKeys(keys[..i])
  {
    hide LocalKey;
    forall k | k in keys[..i] ensures LocalKey(k) {
      var n :| 0 <= n < i && keys[n] == k;
      assert keys[n] in keys;
    }
  }

  function NodeKeys(nodes: seq<Node>): (k: seq<string>)
    ensures |k| == |nodes|
  {
    seq(|nodes|, i requires 0 <= i < |nodes| => nodes[i].localKey)
  }

  function MacroKeys(macros: seq<Macro>): (k: seq<string>)
    ensures |k| == |macros|
  {
    seq(|macros|, i requires 0 <= i < |macros| => macros[i].localKey)
  }

  function ChainKeys(chains: seq<Chain>): (k: seq<string>)
    ensures |k| == |chains|
  {
    seq(|chains|, i requires 0 <= i < |chains| => chains[i].localKey)
  }

  function GraphKeys(nodes: seq<GraphNode>): (k: seq<string>)
    ensures |k| == |nodes|
  {
    seq(|nodes|, i requires 0 <= i < |nodes| => nodes[i].localKey)
  }

  function ReasoningKeys(reasonings: seq<Reasoning>): (k: seq<string>)
    ensures |k| == |reasonings|
  {
    seq(|reasonings|, i requires 0 <= i < |reasonings| => reasonings[i].localKey)
  }

  function BlockKeys(blocks: seq<Block>): (k: seq<string>)
    ensures |k| == |blocks|
  {
    seq(|blocks|, i requires 0 <= i < |blocks| => blocks[i].localKey)
  }

  function MetricNodeKeys(nodes: seq<MetricNode>): (k: seq<string>)
    ensures |k| == |nodes|
  {
    seq(|nodes|, i requires 0 <= i < |nodes| => nodes[i].localKey)
  }

  // ---- two texts joined by a slash ----

  /** Only one split of a text with a single slash exists. */
  lemma SlashSplit(x: string, y: string, r: string, a: string)
    requires SlashFree(r) && SlashFree(a)
    ensures x + "/" + y == r + "/" + a <==> x == r && y == a
  {
    OnlySeparator(x, y, r, a, '/');
  }

  /** The text before the first slash can be read back. */
  lemma FirstSlash(x: string, y: string, r: string, a: string)
    requires SlashFree(x) && SlashFree(r)
    ensures x + "/" + y == r + "/" + a <==> x == r && y == a
  {
    var s, t := x + "/" + y, r + "/" + a;
    assert s[|x|] == '/' && t[|r|] == '/';
    if s == t {
      assert forall i | 0 <= i < |x| :: s[i] == x[i] && x[i] in x;
      assert forall i | 0 <= i < |r| :: t[i] == r[i] && r[i] in r;
      assert |x| == |r|;
      assert x == s[..|x|] && r == t[..|r|];
      assert y == s[|x| + 1..] && a == t[|r| + 1..];
    }
  }
}
