/** Closed units that are converted and then refused by version 6, one for each reason. */
module ReportUnifyRefusals {
  import opened Json
  import opened ReportModel
  import opened ReportClosure
  import opened UnifiedClosure
  import opened ReportUnify
  import opened ReportUnifyMeaning
  import opened ReportUnifyClosure
  import opened ReportUnifySignals

  const STORIES := "geopolitical_stories"

  const JUDGED := Assessment("rises", "exports fall, prices rise", ["EVD00000000-0000-5000-8000-000000000001"])

  const OPEN := Objections("none", [], [])

  const CITED := ["EVD00000000-0000-5000-8000-000000000001"]

  const UNJUDGED := Provenance("", None, None)

  /** A judgment without signals of its own, taken from one Event. */
  const INFERRED := Provenance("inferred", Some(Sources([], ["EVT00000000-0000-5000-8000-000000000001"], [])), Some([]))

  /** A story with one macro impact, which its summary refers to. */
  function Story(unitKey: string, key: string, chains: seq<Chain>, evidence: seq<string>, p: Provenance, companies: Option<seq<Macro>>): Unit {
    Unit(unitKey, "GPR00000000-0000-5000-8000-000000000001", "Strait closed", p,
         Summary("Prices rise", evidence, Impact("pending", []), [Ref("", "macroeconomic_story", key, None)]),
         Detail([], [Macro(key, "MEC00000000-0000-5000-8000-000000000001", "Inflation", JUDGED, OPEN, p)], chains, companies))
  }

  lemma MacroIs(u: Unit, key: string)
    requires |u.detail.macros| == 1 && u.detail.macros[0].localKey == key
    ensures MacroKeys(u.detail.macros) == [key] && forall m | m in u.detail.macros :: m == u.detail.macros[0]
  {
  }

  /** A hundred and nineteen letters: a valid key whose generated key is one character too long. */
  function LongKey(): string { seq(119, _ => 'a') }

  function LongStory(): Unit { Story("story", LongKey(), [], CITED, UNJUDGED, None) }

  lemma LongKeyRefused()
    ensures UnitCloses(STORIES, LongStory()) && Convert(LongStory()).Converted? && LongStory().summary.evidenceIds != []
    ensures !UnifiedCloses(STORIES, Convert(LongStory()).unit)
  {
    var u := LongStory();
    assert LocalKey("story") && LocalKey(LongKey());
    MacroIs(u, LongKey());
    assert u.detail.macros[0] in u.detail.macros && |u.detail.macros[0].localKey| == 119;
    hide LocalKey, LongKey, UnifiedCloses;
    ConvertedIff(STORIES, u);
    UnifiedClosesIff(STORIES, u);
  }

  function UncitedStory(): Unit { Story("story", "macro", [], [], UNJUDGED, None) }

  lemma UncitedRefused()
    ensures UnitCloses(STORIES, UncitedStory()) && Convert(UncitedStory()).Converted?
    ensures ReasoningKeysFit(UncitedStory()) && NoClash(UncitedStory())
    ensures !UnifiedCloses(STORIES, Convert(UncitedStory()).unit)
  {
    var u := UncitedStory();
    assert LocalKey("story") && LocalKey("macro");
    MacroIs(u, "macro");
    hide LocalKey, UnifiedCloses;
    ConvertedIff(STORIES, u);
    UnifiedClosesIff(STORIES, u);
  }

  /** A chain of one node, whose key is the one generated for the macro impact. */
  function ClashingChain(): Chain {
    Chain("macro-reasoning", "ICH00000000-0000-5000-8000-000000000001", "Oil", JUDGED,
          ChainSummary("exports fall, prices rise", Claim("reported", "source_fact", CITED), OPEN),
          Graph([GraphNode("node", "CND00000000-0000-5000-8000-000000000001", "Refining")], []),
          [Node("refining", "CND00000000-0000-5000-8000-000000000001", "node", "Refining", JUDGED, OPEN, UNJUDGED)], UNJUDGED)
  }

  function ClashingStory(): Unit { Story("story", "macro", [ClashingChain()], CITED, UNJUDGED, None) }

  lemma ClashingChainCloses()
    ensures ChainCloses(ClashingChain())
  {
    var c := ClashingChain();
    assert LocalKey("macro-reasoning") && LocalKey("node") && LocalKey("refining");
    assert GraphKeys(c.graph.nodes) == ["node"] && NodeKeys(c.nodes) == ["refining"];
    assert c.graph.nodes[0] in c.graph.nodes;
    hide LocalKey;
  }

  lemma ClashingStoryCloses()
    ensures UnitCloses(STORIES, ClashingStory())
  {
    var u := ClashingStory();
    assert LocalKey("story") && LocalKey("macro") && LocalKey("macro-reasoning");
    ClashingChainCloses();
    MacroIs(u, "macro");
    assert ChainKeys(u.detail.chains) == ["macro-reasoning"];
    hide LocalKey, ChainCloses;
  }

  lemma Clashes()
    ensures !NoClash(ClashingStory()) && NoProvenance(ClashingStory())
    ensures ClashingStory().detail.macros != [] && forall c | c in ClashingStory().detail.chains :: !Collides(ClashingStory().summary.refs, c)
  {
    var u := ClashingStory();
    assert u.detail.macros[0].localKey == "macro" && u.detail.chains[0].localKey == "macro-reasoning";
    assert u.detail.macros[0] in u.detail.macros && u.detail.chains[0] in u.detail.chains;
    assert ReasoningKey("macro") == "macro-reasoning";
  }

  lemma ClashRefused()
    ensures UnitCloses(STORIES, ClashingStory()) && Convert(ClashingStory()).Converted? && ClashingStory().summary.evidenceIds != []
    ensures !UnifiedCloses(STORIES, Convert(ClashingStory()).unit)
  {
    var u := ClashingStory();
    assert u.summary.evidenceIds == CITED;
    ClashingStoryCloses();
    Clashes();
    hide *;
    ConvertedIff(STORIES, u);
    UnifiedClosesIff(STORIES, u);
    assert CITED[0] in CITED;
  }

  /** A version 5 story that itself carries the key generated for its macro impact. */
  function SignalStory(): Unit { Story("macro-reasoning", "macro", [], CITED, INFERRED, Some([])) }

  lemma SignalStoryCloses()
    ensures SignalUnitCloses(STORIES, SignalStory())
  {
    var u := SignalStory();
    assert LocalKey("macro-reasoning") && LocalKey("macro");
    MacroIs(u, "macro");
    var values := SignalJudgments(u);
    assert values == [Judgment("macro-reasoning", u.sourceId, INFERRED), Judgment("macro", u.detail.macros[0].sourceId, INFERRED)];
    assert JudgmentKeys(values) == ["macro-reasoning", "macro"];
    assert OwnProvenance(INFERRED);
    hide LocalKey, OwnProvenance;
    forall v | v in values ensures JudgmentCloses(values, v) {}
  }

  lemma SignalClashes()
    ensures !AddedFresh(SignalStory()) && SignalStory().detail.macros != [] && SignalStory().detail.chains == []
  {
    var u := SignalStory();
    assert ReasoningKey("macro") == "macro-reasoning";
    assert AddedForMacros(u.detail.macros)[0] in Added(u) && AddedForMacros(u.detail.macros)[0].key == "macro-reasoning";
    assert SignalJudgments(u)[0].key == "macro-reasoning";
    hide LocalKey, LocalKeys;
  }

  lemma SignalClashRefused()
    ensures SignalUnitCloses(STORIES, SignalStory()) && Convert(SignalStory()).Converted? && SignalStory().summary.evidenceIds != []
    ensures !UnifiedCloses(STORIES, Convert(SignalStory()).unit)
  {
    var u := SignalStory();
    SignalStoryCloses();
    SignalClashes();
    assert u.summary.evidenceIds == CITED && CITED[0] in CITED;
    SignalCloses(u);
    hide *;
    ConvertedIff(STORIES, u);
    SignalUnitIff(STORIES, u);
  }

  lemma SignalCloses(u: Unit)
    requires SignalUnitCloses(STORIES, u)
    ensures UnitCloses(STORIES, u)
  {
    hide UnitCloses, JudgmentsClose;
  }
}
