/** The offline conversion of version 4 and 5 units to version 6. */
module ReportUnify {
  import opened Json
  import opened ReportModel
  import opened ReportClosure

  // ---- the converted content ----

  function ReasoningKey(macroKey: string): string { macroKey + "-reasoning" }

  function AssetKey(chainKey: string): string { chainKey + "-asset" }

  function MacroAsset(m: Macro): Node {
    Node(m.localKey, m.sourceId, "", m.name, m.assessment, m.objections, m.provenance)
  }

  function MacroReasoning(m: Macro): Reasoning {
    Reasoning(ReasoningKey(m.localKey), m.sourceId, m.name, m.assessment,
              ReasoningSummary(m.assessment.transmissionLogic, None, m.objections), [], None, [MacroAsset(m)], m.provenance)
  }

  function WholeAsset(c: Chain): Node {
    Node(AssetKey(c.localKey), c.sourceId, "", c.name, c.assessment, c.summary.objections, c.provenance)
  }

  /** A chain that the summary refers to as a whole gets an asset of its own in front of its nodes. */
  function ChainReasoning(c: Chain, whole: bool): Reasoning {
    Reasoning(c.localKey, c.sourceId, c.name, c.assessment,
              ReasoningSummary(c.summary.logic, Some(c.summary.support), c.summary.objections), [], Some(c.graph),
              (if whole then [WholeAsset(c)] else []) + c.nodes, c.provenance)
  }

  predicate Whole(refs: seq<Ref>, chainKey: string) {
    exists r | r in refs :: r.targetType == "industry_chain" && r.localKey == chainKey
  }

  predicate Collides(refs: seq<Ref>, c: Chain) { Whole(refs, c.localKey) && AssetKey(c.localKey) in NodeKeys(c.nodes) }

  function MacroReasonings(macros: seq<Macro>): (r: seq<Reasoning>)
    ensures |r| == |macros|
  {
    seq(|macros|, i requires 0 <= i < |macros| => MacroReasoning(macros[i]))
  }

  function ChainReasonings(refs: seq<Ref>, chains: seq<Chain>): (r: seq<Reasoning>)
    ensures |r| == |chains|
  {
    seq(|chains|, i requires 0 <= i < |chains| => ChainReasoning(chains[i], Whole(refs, chains[i].localKey)))
  }

  /** Which references the conversion has a new target for, and which one. */
  predicate Known(refs: seq<Ref>, macros: seq<Macro>, chains: seq<Chain>, key: RefKey) {
    || (key.targetType == "macroeconomic_story" && key.chain.None? && exists m | m in macros :: m.localKey == key.localKey)
    || (key.targetType == "industry_chain_node" && key.chain.Some?
        && exists c | c in chains :: c.localKey == key.chain.value && exists n | n in c.nodes :: n.localKey == key.localKey)
    || (key.targetType == "industry_chain" && key.chain.None?
        && exists c | c in chains :: c.localKey == key.localKey && Whole(refs, c.localKey))
  }

  function NewRef(reasoning: string, asset: string): Ref { Ref(reasoning, "", asset, None) }

  function NewTarget(key: RefKey): Ref {
    if key.targetType == "macroeconomic_story" then NewRef(ReasoningKey(key.localKey), key.localKey)
    else if key.chain.Some? then NewRef(key.chain.value, key.localKey)
    else NewRef(key.localKey, AssetKey(key.localKey))
  }

  function Rewritten(refs: seq<Ref>): (r: seq<Ref>)
    ensures |r| == |refs|
  {
    seq(|refs|, i requires 0 <= i < |refs| => NewTarget(KeyOf(refs[i])))
  }

  function FirstDangling(all: seq<Ref>, macros: seq<Macro>, chains: seq<Chain>, refs: seq<Ref>): Option<RefKey> {
    if refs == [] then None
    else if !Known(all, macros, chains, KeyOf(refs[0])) then Some(KeyOf(refs[0]))
    else FirstDangling(all, macros, chains, refs[1..])
  }

  datatype Conversion = Converted(unit: Unit) | Collision | NoReasoning | Dangling(key: RefKey)

  function Unified(u: Unit): Unit {
    var d, refs := u.detail, u.summary.refs;
    u.(summary := u.summary.(refs := Rewritten(refs)),
       detail := d.(reasonings := MacroReasonings(d.macros) + ChainReasonings(refs, d.chains), macros := [], chains := []))
  }

  function Convert(u: Unit): Conversion {
    var d, refs := u.detail, u.summary.refs;
    if exists c | c in d.chains :: Collides(refs, c) then Collision
    else if d.macros == [] && d.chains == [] then NoReasoning
    else match FirstDangling(refs, d.macros, d.chains, refs)
      case Some(key) => Dangling(key)
      case None => Converted(Unified(u))
  }

  // ---- the conversion loop ----

  ghost predicate MapsKnown(refs: seq<Ref>, macros: seq<Macro>, chains: seq<Chain>, refmap: map<RefKey, Ref>) {
    forall k :: (k in refmap <==> Known(refs, macros, chains, k)) && (k in refmap ==> refmap[k] == NewTarget(k))
  }

  method ConvertMacros(refs: seq<Ref>, macros: seq<Macro>) returns (reasonings: seq<Reasoning>, refmap: map<RefKey, Ref>)
    ensures reasonings == MacroReasonings(macros) && MapsKnown(refs, macros, [], refmap)
  {
    reasonings, refmap := [], map[];
    for i := 0 to |macros|
      invariant reasonings == MacroReasonings(macros[..i]) && MapsKnown(refs, macros[..i], [], refmap)
    {
      var m := macros[i];
      var asset := Node(m.localKey, m.sourceId, "", m.name, m.assessment, m.objections, m.provenance);
      var reasoning := Reasoning(m.localKey + "-reasoning", m.sourceId, m.name, m.assessment,
                                 ReasoningSummary(m.assessment.transmissionLogic, None, m.objections), [], None, [asset], m.provenance);
      reasonings := reasonings + [reasoning];
      refmap := refmap[RefKey("macroeconomic_story", None, m.localKey) := NewRef(reasoning.localKey, asset.localKey)];
      assert macros[..i + 1] == macros[..i] + [m];
    }
    assert macros[..|macros|] == macros;
  }

  /** The chains, one reasoning each; stops at the first generated key that a node already has. */
  method ConvertChains(refs: seq<Ref>, macros: seq<Macro>, chains: seq<Chain>, before: seq<Reasoning>, macroMap: map<RefKey, Ref>)
    returns (collision: bool, reasonings: seq<Reasoning>, refmap: map<RefKey, Ref>)
    requires MapsKnown(refs, macros, [], macroMap)
    ensures collision <==> exists c | c in chains :: Collides(refs, c)
    ensures !collision ==> reasonings == before + ChainReasonings(refs, chains) && MapsKnown(refs, macros, chains, refmap)
  {
    hide ChainReasoning, Whole, NodeKeys, Known;
    reasonings, refmap := before, macroMap;
    for i := 0 to |chains|
      invariant reasonings == before + ChainReasonings(refs, chains[..i])
      invariant MapsKnown(refs, macros, chains[..i], refmap)
      invariant forall c | c in chains[..i] :: !Collides(refs, c)
    {
      var c := chains[i];
      assert c in chains && chains[..i + 1] == chains[..i] + [c];
      ghost var soFar := refmap;
      refmap := MapNodes(c, refmap);
      var whole := Whole(refs, c.localKey);
      if whole {
        if AssetKey(c.localKey) in NodeKeys(c.nodes) {
          return true, reasonings, refmap;
        }
        refmap := refmap[RefKey("industry_chain", None, c.localKey) := NewRef(c.localKey, AssetKey(c.localKey))];
      }
      MappedChain(refs, macros, chains[..i], c, soFar, refmap);
      reasonings := reasonings + [ChainReasoning(c, whole)];
      assert ChainReasonings(refs, chains[..i + 1]) == ChainReasonings(refs, chains[..i]) + [ChainReasoning(c, whole)];
    }
    assert chains[..|chains|] == chains;
    collision := false;
  }

  predicate NodeKeyOf(c: Chain, nodes: seq<Node>, k: RefKey) {
    k.targetType == "industry_chain_node" && k.chain == Some(c.localKey) && exists n | n in nodes :: n.localKey == k.localKey
  }

  method MapNodes(c: Chain, base: map<RefKey, Ref>) returns (refmap: map<RefKey, Ref>)
    ensures forall k :: k in refmap <==> k in base || NodeKeyOf(c, c.nodes, k)
    ensures forall k | k in refmap :: refmap[k] == if NodeKeyOf(c, c.nodes, k) then NewTarget(k) else base[k]
  {
    refmap := base;
    for i := 0 to |c.nodes|
      invariant forall k :: k in refmap <==> k in base || NodeKeyOf(c, c.nodes[..i], k)
      invariant forall k | k in refmap :: refmap[k] == if NodeKeyOf(c, c.nodes[..i], k) then NewTarget(k) else base[k]
    {
      var n := c.nodes[i];
      assert c.nodes[..i + 1] == c.nodes[..i] + [n];
      refmap := refmap[RefKey("industry_chain_node", Some(c.localKey), n.localKey) := NewRef(c.localKey, n.localKey)];
    }
    assert c.nodes[..|c.nodes|] == c.nodes;
  }

  lemma KnownChain(refs: seq<Ref>, macros: seq<Macro>, chains: seq<Chain>, c: Chain, k: RefKey)
    ensures Known(refs, macros, chains + [c], k) <==>
            || Known(refs, macros, chains, k) || NodeKeyOf(c, c.nodes, k)
            || (Whole(refs, c.localKey) && k == RefKey("industry_chain", None, c.localKey))
  {
    hide Whole;
    assert forall d :: d in chains + [c] <==> d in chains || d == c;
  }

  lemma MappedChain(refs: seq<Ref>, macros: seq<Macro>, chains: seq<Chain>, c: Chain, base: map<RefKey, Ref>, refmap: map<RefKey, Ref>)
    requires MapsKnown(refs, macros, chains, base)
    requires forall k :: k in refmap <==>
               k in base || NodeKeyOf(c, c.nodes, k) || (Whole(refs, c.localKey) && k == RefKey("industry_chain", None, c.localKey))
    requires forall k | k in refmap :: refmap[k] == NewTarget(k) || (k in base && refmap[k] == base[k])
    ensures MapsKnown(refs, macros, chains + [c], refmap)
  {
    hide Known, Whole, NodeKeyOf, NewTarget;
    forall k ensures k in refmap <==> Known(refs, macros, chains + [c], k) {
      KnownChain(refs, macros, chains, c, k);
    }
  }

  datatype Rewrite = Rewrite(original: Ref, updated: Ref)

  method RewriteRefs(refs: seq<Ref>, macros: seq<Macro>, chains: seq<Chain>, refmap: map<RefKey, Ref>)
    returns (dangling: Option<RefKey>, updated: seq<Ref>, bindings: seq<Rewrite>)
    requires MapsKnown(refs, macros, chains, refmap)
    ensures dangling == FirstDangling(refs, macros, chains, refs)
    ensures dangling.None? ==> updated == Rewritten(refs) && |bindings| == |refs|
    ensures dangling.None? ==> forall i | 0 <= i < |refs| :: bindings[i] == Rewrite(refs[i], updated[i])
  {
    hide Known, NewTarget;
    updated, bindings := [], [];
    assert refs[0..] == refs;
    for i := 0 to |refs|
      invariant FirstDangling(refs, macros, chains, refs) == FirstDangling(refs, macros, chains, refs[i..])
      invariant updated == Rewritten(refs)[..i] && |bindings| == i
      invariant forall j | 0 <= j < i :: bindings[j] == Rewrite(refs[j], updated[j])
    {
      var key := KeyOf(refs[i]);
      assert refs[i..][1..] == refs[i + 1..] && refs[i..][0] == refs[i];
      if key !in refmap {
        return Some(key), updated, bindings;
      }
      updated := updated + [refmap[key]];
      bindings := bindings + [Rewrite(refs[i], refmap[key])];
    }
    dangling := None;
  }

  /** One unit of `convert`: the new unit, and for each reference what it was rewritten to. */
  method ConvertUnit(u: Unit) returns (result: Conversion, bindings: seq<Rewrite>)
    ensures result == Convert(u)
    ensures result.Converted? ==> |bindings| == |u.summary.refs| && forall i | 0 <= i < |bindings| ::
              bindings[i] == Rewrite(u.summary.refs[i], result.unit.summary.refs[i])
  {
    hide Known, Collides, Whole, MacroReasoning, ChainReasoning;
    bindings := [];
    var reasonings, refmap := ConvertMacros(u.summary.refs, u.detail.macros);
    var collision;
    collision, reasonings, refmap := ConvertChains(u.summary.refs, u.detail.macros, u.detail.chains, reasonings, refmap);
    if collision {
      return Collision, bindings;
    }
    if reasonings == [] {
      return NoReasoning, bindings;
    }
    var dangling, refs;
    dangling, refs, bindings := RewriteRefs(u.summary.refs, u.detail.macros, u.detail.chains, refmap);
    if dangling.Some? {
      return Dangling(dangling.value), bindings;
    }
    result := Converted(u.(summary := u.summary.(refs := refs), detail := u.detail.(reasonings := reasonings, macros := [], chains := [])));
  }

  datatype Report = Report(
    schemaVersion: string, geopolitical: seq<Unit>, macroeconomic: seq<Unit>, concepts: seq<Unit>, industryChains: seq<Unit>)

  predicate AllConvert(units: seq<Unit>) { forall u | u in units :: Convert(u).Converted? }

  function UnifiedAll(units: seq<Unit>): seq<Unit> {
    seq(|units|, i requires 0 <= i < |units| => Unified(units[i]))
  }

  method ConvertUnits(units: seq<Unit>) returns (ok: bool, converted: seq<Unit>)
    ensures ok <==> AllConvert(units)
    ensures ok ==> converted == UnifiedAll(units)
  {
    converted := [];
    for i := 0 to |units|
      invariant converted == UnifiedAll(units[..i]) && AllConvert(units[..i])
    {
      assert units[i] in units && units[..i + 1] == units[..i] + [units[i]];
      var one, bindings := ConvertUnit(units[i]);
      hide Unified;
      if !one.Converted? {
        return false, converted;
      }
      converted := converted + [one.unit];
    }
    assert units[..|units|] == units;
    ok := true;
  }

  const V4 := "report-publication/v4"
  const V5 := "report-publication/v5"
  const V6 := "report-publication/v6"

  /** `convert`: only an explicit version 4 or 5 report, and only as a whole. */
  method ConvertReport(r: Report) returns (result: Option<Report>)
    ensures result.Some? <==> r.schemaVersion in {"report-publication/v4", "report-publication/v5"} && AllConvert(r.geopolitical + r.macroeconomic + r.concepts + r.industryChains)
    ensures result.Some? ==> result.value == Report("report-publication/v6", UnifiedAll(r.geopolitical), UnifiedAll(r.macroeconomic),
                                                    UnifiedAll(r.concepts), UnifiedAll(r.industryChains))
  {
    if r.schemaVersion != V4 && r.schemaVersion != V5 {
      return None;
    }
    var a, geopolitical := ConvertUnits(r.geopolitical);
    var b, macroeconomic := ConvertUnits(r.macroeconomic);
    var c, concepts := ConvertUnits(r.concepts);
    var d, industryChains := ConvertUnits(r.industryChains);
    hide Convert, UnifiedAll;
    if !a || !b || !c || !d {
      return None;
    }
    return Some(Report(V6, geopolitical, macroeconomic, concepts, industryChains));
  }
}
