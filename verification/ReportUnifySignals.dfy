/** Version 5: the converted judgments close exactly when the generated keys are fresh. */
module ReportUnifySignals {
  import opened Json
  import opened Sequences
  import opened ReportModel
  import opened ReportClosure
  import opened UnifiedClosure
  import opened ReportUnify
  import opened ReportUnifyMeaning
  import opened ReportUnifyClosure

  // ---- the judgments of a version 5 unit ----

  function MacroJudgments(macros: seq<Macro>): (j: seq<Judgment>)
    ensures |j| == |macros|
  {
    seq(|macros|, i requires 0 <= i < |macros| => Judgment(macros[i].localKey, macros[i].sourceId, macros[i].provenance))
  }

  function NodeJudgments(nodes: seq<Node>): (j: seq<Judgment>)
    ensures |j| == |nodes|
  {
    seq(|nodes|, i requires 0 <= i < |nodes| => Judgment(nodes[i].localKey, nodes[i].sourceId, nodes[i].provenance))
  }

  function ChainJudgments(chains: seq<Chain>): seq<Judgment> {
    if chains == [] then []
    else
      var c := chains[|chains| - 1];
      ChainJudgments(chains[..|chains| - 1]) + ([Judgment(c.localKey, c.sourceId, c.provenance)] + NodeJudgments(c.nodes))
  }

  function Companies(u: Unit): seq<Macro> { if u.detail.companies.Some? then u.detail.companies.value else [] }

  function SignalJudgments(u: Unit): seq<Judgment> {
    [Judgment(u.localKey, u.sourceId, u.provenance)] + MacroJudgments(u.detail.macros) + MacroJudgments(Companies(u))
    + ChainJudgments(u.detail.chains)
  }

  /** `ValidateSignalUnit`, as far as keys, references and provenance go. */
  predicate SignalUnitCloses(kind: string, u: Unit) {
    UnitCloses(kind, u) && u.detail.companies.Some? && JudgmentsClose(SignalJudgments(u))
  }

  // ---- the judgments the conversion adds ----

  function AddedForMacros(macros: seq<Macro>): (j: seq<Judgment>)
    ensures |j| == |macros|
  {
    seq(|macros|, i requires 0 <= i < |macros| => Judgment(ReasoningKey(macros[i].localKey), macros[i].sourceId, macros[i].provenance))
  }

  function AddedForChain(refs: seq<Ref>, c: Chain): seq<Judgment> {
    if Whole(refs, c.localKey) then [Judgment(AssetKey(c.localKey), c.sourceId, c.provenance)] else []
  }

  function AddedForChains(refs: seq<Ref>, chains: seq<Chain>): seq<Judgment> {
    if chains == [] then []
    else AddedForChains(refs, chains[..|chains| - 1]) + AddedForChain(refs, chains[|chains| - 1])
  }

  function Added(u: Unit): seq<Judgment> { AddedForMacros(u.detail.macros) + AddedForChains(u.summary.refs, u.detail.chains) }

  // ---- converted judgments are the old ones and the added ones ----

  predicate AllJudged(u: Unit) {
    && HasProvenance(u.provenance)
    && (forall m | m in u.detail.macros :: HasProvenance(m.provenance))
    && (forall m | m in Companies(u) :: m.provenance.origin != "")
    && forall c | c in u.detail.chains :: HasProvenance(c.provenance) && forall n | n in c.nodes :: HasProvenance(n.provenance)
  }

  lemma LastReasoning(a: seq<Reasoning>, x: Reasoning)
    ensures ReasoningJudgments(a + [x]) == ReasoningJudgments(a) + (Judged(x.localKey, x.sourceId, x.provenance) + AssetJudgments(x.assets))
  {
    hide Judged, AssetJudgments;
    assert (a + [x])[..|a + [x]| - 1] == a;
  }

  lemma {:induction false} JudgmentsConcat(a: seq<Reasoning>, b: seq<Reasoning>)
    ensures ReasoningJudgments(a + b) == ReasoningJudgments(a) + ReasoningJudgments(b)
  {
    if b == [] {
      assert a + b == a;
    } else {
      var init, x := b[..|b| - 1], b[|b| - 1];
      assert a + b == a + init + [x] && b == init + [x];
      LastReasoning(a + init, x);
      LastReasoning(init, x);
      JudgmentsConcat(a, init);
      hide *;
      Regroup(ReasoningJudgments(a), ReasoningJudgments(init), Judged(x.localKey, x.sourceId, x.provenance) + AssetJudgments(x.assets));
    }
  }

  lemma {:induction false} AssetsJudged(assets: seq<Node>)
    requires forall a | a in assets :: HasProvenance(a.provenance)
    ensures AssetJudgments(assets) == NodeJudgments(assets)
  {
    if assets != [] {
      AssetsJudged(assets[..|assets| - 1]);
      assert assets == assets[..|assets| - 1] + [assets[|assets| - 1]];
    }
  }

  lemma MacroJudged(m: Macro)
    requires HasProvenance(m.provenance)
    ensures AssetJudgments([MacroAsset(m)]) == [Judgment(m.localKey, m.sourceId, m.provenance)]
  {
    AssetsJudged([MacroAsset(m)]);
  }

  lemma MacroStep(init: seq<Macro>, m: Macro)
    requires HasProvenance(m.provenance)
    ensures ReasoningJudgments(MacroReasonings(init + [m])) ==
            ReasoningJudgments(MacroReasonings(init)) + ([Judgment(ReasoningKey(m.localKey), m.sourceId, m.provenance)] + [Judgment(m.localKey, m.sourceId, m.provenance)])
    ensures MacroJudgments(init + [m]) == MacroJudgments(init) + [Judgment(m.localKey, m.sourceId, m.provenance)]
    ensures AddedForMacros(init + [m]) == AddedForMacros(init) + [Judgment(ReasoningKey(m.localKey), m.sourceId, m.provenance)]
  {
    MacroJudged(m);
    LastReasoning(MacroReasonings(init), MacroReasoning(m));
    LastMacro(init, m);
    LastMacroJudged(init, m);
    hide *;
  }

  lemma LastMacro(init: seq<Macro>, m: Macro)
    ensures MacroReasonings(init + [m]) == MacroReasonings(init) + [MacroReasoning(m)]
    ensures MacroReasoning(m).localKey == ReasoningKey(m.localKey) && MacroReasoning(m).sourceId == m.sourceId
    ensures MacroReasoning(m).provenance == m.provenance
  {
    hide ReasoningKey, MacroAsset;
  }

  lemma LastMacroJudged(init: seq<Macro>, m: Macro)
    ensures MacroJudgments(init + [m]) == MacroJudgments(init) + [Judgment(m.localKey, m.sourceId, m.provenance)]
    ensures AddedForMacros(init + [m]) == AddedForMacros(init) + [Judgment(ReasoningKey(m.localKey), m.sourceId, m.provenance)]
  {
    hide ReasoningKey;
  }

  lemma {:induction false} MacrosJudged(macros: seq<Macro>)
    requires forall m | m in macros :: HasProvenance(m.provenance)
    ensures multiset(ReasoningJudgments(MacroReasonings(macros))) == multiset(MacroJudgments(macros)) + multiset(AddedForMacros(macros))
  {
    if macros != [] {
      var init, m := macros[..|macros| - 1], macros[|macros| - 1];
      assert macros == init + [m];
      MacrosJudged(init);
      MacroStep(init, m);
      hide *;
      TwoMore(ReasoningJudgments(MacroReasonings(init)), MacroJudgments(init), AddedForMacros(init),
              Judgment(ReasoningKey(m.localKey), m.sourceId, m.provenance), Judgment(m.localKey, m.sourceId, m.provenance));
    }
  }

  lemma TwoMore(all: seq<Judgment>, own: seq<Judgment>, added: seq<Judgment>, x: Judgment, y: Judgment)
    requires multiset(all) == multiset(own) + multiset(added)
    ensures multiset(all + ([x] + [y])) == multiset(own + [y]) + multiset(added + [x])
  {
  }

  lemma ChainJudged(refs: seq<Ref>, c: Chain)
    requires HasProvenance(c.provenance) && forall n | n in c.nodes :: HasProvenance(n.provenance)
    ensures AssetJudgments(ChainReasoning(c, Whole(refs, c.localKey)).assets) == AddedForChain(refs, c) + NodeJudgments(c.nodes)
  {
    var assets := ChainReasoning(c, Whole(refs, c.localKey)).assets;
    forall a | a in assets ensures HasProvenance(a.provenance) {
      assert a == WholeAsset(c) || a in c.nodes;
    }
    AssetsJudged(assets);
    if Whole(refs, c.localKey) {
      assert assets == [WholeAsset(c)] + c.nodes;
      assert NodeJudgments(assets) == AddedForChain(refs, c) + NodeJudgments(c.nodes);
    } else {
      assert assets == c.nodes;
    }
  }

  lemma Mixed(all: seq<Judgment>, kept: seq<Judgment>, before: seq<Judgment>, own: seq<Judgment>, added: seq<Judgment>, nodes: seq<Judgment>)
    requires multiset(all) == multiset(kept) + multiset(before)
    ensures multiset(all + (own + (added + nodes))) == multiset(kept + (own + nodes)) + multiset(before + added)
  {
  }

  lemma ChainStep(refs: seq<Ref>, init: seq<Chain>, c: Chain)
    requires HasProvenance(c.provenance) && forall n | n in c.nodes :: HasProvenance(n.provenance)
    ensures var own := [Judgment(c.localKey, c.sourceId, c.provenance)];
            && ReasoningJudgments(ChainReasonings(refs, init + [c])) ==
               ReasoningJudgments(ChainReasonings(refs, init)) + (own + (AddedForChain(refs, c) + NodeJudgments(c.nodes)))
            && ChainJudgments(init + [c]) == ChainJudgments(init) + (own + NodeJudgments(c.nodes))
            && AddedForChains(refs, init + [c]) == AddedForChains(refs, init) + AddedForChain(refs, c)
  {
    ChainJudged(refs, c);
    var x := ChainReasoning(c, Whole(refs, c.localKey));
    LastReasoning(ChainReasonings(refs, init), x);
    assert ChainReasonings(refs, init + [c]) == ChainReasonings(refs, init) + [x];
    assert (init + [c])[..|init|] == init;
    hide ReasoningJudgments, HasProvenance, Whole, AddedForChain, NodeJudgments, ChainReasonings;
  }

  lemma {:induction false} ChainsJudged(refs: seq<Ref>, chains: seq<Chain>)
    requires forall c | c in chains :: HasProvenance(c.provenance) && forall n | n in c.nodes :: HasProvenance(n.provenance)
    ensures multiset(ReasoningJudgments(ChainReasonings(refs, chains))) == multiset(ChainJudgments(chains)) + multiset(AddedForChains(refs, chains))
  {
    if chains != [] {
      hide *;
      var init, c := chains[..|chains| - 1], chains[|chains| - 1];
      ChainsJudged(refs, init);
      ChainStep(refs, init, c);
      assert chains == init + [c];
      Mixed(ReasoningJudgments(ChainReasonings(refs, init)), ChainJudgments(init), AddedForChains(refs, init),
            [Judgment(c.localKey, c.sourceId, c.provenance)], AddedForChain(refs, c), NodeJudgments(c.nodes));
    }
  }

  lemma {:induction false} CompaniesJudged(companies: seq<Macro>)
    requires forall m | m in companies :: m.provenance.origin != ""
    ensures CompanyJudgments(companies) == MacroJudgments(companies)
  {
    if companies != [] {
      CompaniesJudged(companies[..|companies| - 1]);
      assert companies == companies[..|companies| - 1] + [companies[|companies| - 1]];
    }
  }

  lemma ConvertedJudgments(u: Unit)
    requires AllJudged(u)
    ensures multiset(UnifiedJudgments(Unified(u))) == multiset(SignalJudgments(u) + Added(u))
  {
    MacrosJudged(u.detail.macros);
    ChainsJudged(u.summary.refs, u.detail.chains);
    CompaniesJudged(Companies(u));
    JudgmentsConcat(MacroReasonings(u.detail.macros), ChainReasonings(u.summary.refs, u.detail.chains));
    UnitParts(u);
    var macros, chains := MacroReasonings(u.detail.macros), ChainReasonings(u.summary.refs, u.detail.chains);
    hide *;
    Gathered([Judgment(u.localKey, u.sourceId, u.provenance)], ReasoningJudgments(macros), ReasoningJudgments(chains),
             MacroJudgments(Companies(u)), MacroJudgments(u.detail.macros), AddedForMacros(u.detail.macros),
             ChainJudgments(u.detail.chains), AddedForChains(u.summary.refs, u.detail.chains));
  }

  lemma UnitParts(u: Unit)
    requires AllJudged(u) && CompanyJudgments(Companies(u)) == MacroJudgments(Companies(u))
    ensures UnifiedJudgments(Unified(u)) ==
            [Judgment(u.localKey, u.sourceId, u.provenance)]
            + ReasoningJudgments(MacroReasonings(u.detail.macros) + ChainReasonings(u.summary.refs, u.detail.chains)) + MacroJudgments(Companies(u))
    ensures SignalJudgments(u) == [Judgment(u.localKey, u.sourceId, u.provenance)] + MacroJudgments(u.detail.macros)
                                  + MacroJudgments(Companies(u)) + ChainJudgments(u.detail.chains)
    ensures Added(u) == AddedForMacros(u.detail.macros) + AddedForChains(u.summary.refs, u.detail.chains)
  {
    hide ReasoningJudgments, MacroReasonings, ChainReasonings, MacroJudgments, CompanyJudgments, ChainJudgments, AddedForMacros, AddedForChains;
  }

  lemma Gathered(own: seq<Judgment>, x: seq<Judgment>, y: seq<Judgment>, companies: seq<Judgment>,
                 a: seq<Judgment>, b: seq<Judgment>, c: seq<Judgment>, d: seq<Judgment>)
    requires multiset(x) == multiset(a) + multiset(b) && multiset(y) == multiset(c) + multiset(d)
    ensures multiset(own + (x + y) + companies) == multiset(own + a + companies + c + (b + d))
  {
  }

  // ---- closure depends on the judgments, not on their order ----

  lemma JudgmentCount(values: seq<Judgment>)
    ensures Distinct(JudgmentKeys(values)) <==> |(set v | v in values :: v.key)| == |values|
  {
    DistinctCount(JudgmentKeys(values));
    forall k ensures k in Elements(JudgmentKeys(values)) <==> k in (set v | v in values :: v.key) {
      if k in Elements(JudgmentKeys(values)) {
        var i :| 0 <= i < |values| && JudgmentKeys(values)[i] == k;
        assert values[i] in values;
      }
      if v :| v in values && v.key == k {
        var i :| 0 <= i < |values| && values[i] == v;
        assert JudgmentKeys(values)[i] == k;
      }
    }
    assert Elements(JudgmentKeys(values)) == set v | v in values :: v.key;
  }

  lemma KeysOfMembers(values: seq<Judgment>)
    ensures (forall k | k in JudgmentKeys(values) :: LocalKey(k)) <==> forall v | v in values :: LocalKey(v.key)
  {
    hide LocalKey;
    if forall k | k in JudgmentKeys(values) :: LocalKey(k) {
      forall v | v in values ensures LocalKey(v.key) {
        var i :| 0 <= i < |values| && values[i] == v;
        assert JudgmentKeys(values)[i] == v.key;
      }
    }
  }

  lemma OrderIrrelevant(a: seq<Judgment>, b: seq<Judgment>)
    requires multiset(a) == multiset(b)
    ensures JudgmentsClose(a) <==> JudgmentsClose(b)
  {
    assert forall v :: v in a <==> v in multiset(a);
    assert forall v :: v in b <==> v in multiset(b);
    assert |a| == |multiset(a)| == |b|;
    assert (set v | v in a :: v.key) == (set v | v in b :: v.key);
    JudgmentCount(a);
    JudgmentCount(b);
    KeysOfMembers(a);
    KeysOfMembers(b);
    hide LocalKey, JudgmentKeys, OwnProvenance, DistinctUpstream;
    forall v ensures JudgmentCloses(a, v) <==> JudgmentCloses(b, v) {}
  }

  // ---- added judgments close exactly when their keys are fresh ----

  /** The added keys fit, are none of the old keys and differ from each other. */
  predicate AddedFresh(u: Unit) { Fresh(SignalJudgments(u), Added(u)) }

  predicate Fresh(values: seq<Judgment>, added: seq<Judgment>) {
    LocalKeys(JudgmentKeys(added)) && forall g, v | g in added && v in values :: g.key != v.key
  }

  /** Each added judgment repeats an old one under a new key. */
  predicate Copies(values: seq<Judgment>, added: seq<Judgment>) {
    forall g | g in added :: exists v | v in values :: v.id == g.id && v.provenance == g.provenance
  }

  lemma JoinedKeys(values: seq<Judgment>, added: seq<Judgment>)
    requires LocalKeys(JudgmentKeys(values))
    ensures LocalKeys(JudgmentKeys(values + added)) <==> Fresh(values, added)
  {
    var a, b := JudgmentKeys(values), JudgmentKeys(added);
    assert JudgmentKeys(values + added) == a + b;
    forall g, v | g in added && v in values ensures g.key in b && v.key in a {
      var i :| 0 <= i < |added| && added[i] == g;
      var j :| 0 <= j < |values| && values[j] == v;
      assert b[i] == g.key && a[j] == v.key;
    }
    forall k | k in b ensures exists g | g in added :: g.key == k {
      var i :| 0 <= i < |added| && b[i] == k;
      assert added[i] in added;
    }
    forall k | k in a ensures exists v | v in values :: v.key == k {
      var i :| 0 <= i < |values| && a[i] == k;
      assert values[i] in values;
    }
    hide LocalKey, JudgmentKeys;
    JoinedDistinct(a, b);
  }

  lemma JoinedDistinct(a: seq<string>, b: seq<string>)
    requires Distinct(a)
    ensures Distinct(a + b) <==> Distinct(b) && forall x | x in a :: x !in b
  {
    var c := a + b;
    if Distinct(c) {
      forall i, j | 0 <= i < j < |b| ensures b[i] != b[j] { assert c[|a| + i] != c[|a| + j]; }
      forall x | x in a ensures x !in b {
        var i :| 0 <= i < |a| && a[i] == x;
        assert forall j | 0 <= j < |b| :: c[i] != c[|a| + j] == b[j];
      }
    }
    if Distinct(b) && forall x | x in a :: x !in b {
      forall i, j | 0 <= i < j < |c| ensures c[i] != c[j] {
        if i < |a| <= j {
          assert c[i] in a && c[j] in b;
        } else if i >= |a| {
          assert b[i - |a|] != b[j - |a|];
        }
      }
    }
  }

  lemma CopyCloses(values: seq<Judgment>, added: seq<Judgment>, v: Judgment, key: string)
    requires JudgmentsClose(values) && v in values && (key == v.key || forall w | w in values :: w.key != key)
    ensures JudgmentCloses(values + added, Judgment(key, v.id, v.provenance))
  {
    hide LocalKeys, OwnProvenance, DistinctUpstream;
    assert JudgmentCloses(values, v);
    OwnHasSources(v.provenance);
    forall r | r in v.provenance.sources.value.upstream ensures UpstreamCloses(values + added, key, r) {
      assert UpstreamCloses(values, v.key, r);
      var w :| w in values && w.key == r.localKey && w.id == r.entityId;
      assert w in values + added;
    }
  }

  /** Copies of judgments, upstream references included, close with the originals exactly under fresh keys. */
  lemma CopiesCloseIff(values: seq<Judgment>, added: seq<Judgment>)
    requires JudgmentsClose(values) && Copies(values, added)
    ensures JudgmentsClose(values + added) <==> Fresh(values, added)
  {
    JoinedKeys(values, added);
    if Fresh(values, added) {
      forall v | v in values + added ensures JudgmentCloses(values + added, v) {
        if v in values {
          CopyCloses(values, added, v, v.key);
        } else {
          assert v in added;
          var w :| w in values && w.id == v.id && w.provenance == v.provenance;
          CopyCloses(values, added, w, v.key);
        }
      }
    }
  }

  // ---- the unit ----

  lemma ChainJudgmentIn(chains: seq<Chain>, c: Chain)
    requires c in chains
    ensures Judgment(c.localKey, c.sourceId, c.provenance) in ChainJudgments(chains)
    ensures forall n | n in c.nodes :: Judgment(n.localKey, n.sourceId, n.provenance) in ChainJudgments(chains)
  {
    var last := chains[|chains| - 1];
    assert chains == chains[..|chains| - 1] + [last];
    if c == last {
      forall n | n in c.nodes ensures Judgment(n.localKey, n.sourceId, n.provenance) in NodeJudgments(c.nodes) {
        var i :| 0 <= i < |c.nodes| && c.nodes[i] == n;
        assert NodeJudgments(c.nodes)[i] == Judgment(n.localKey, n.sourceId, n.provenance);
      }
    } else {
      ChainJudgmentIn(chains[..|chains| - 1], c);
    }
  }

  lemma MacroJudgmentIn(macros: seq<Macro>, m: Macro)
    requires m in macros
    ensures Judgment(m.localKey, m.sourceId, m.provenance) in MacroJudgments(macros)
  {
    var i :| 0 <= i < |macros| && macros[i] == m;
    assert MacroJudgments(macros)[i] == Judgment(m.localKey, m.sourceId, m.provenance);
  }

  lemma JudgmentJudged(values: seq<Judgment>, v: Judgment)
    requires JudgmentsClose(values) && v in values
    ensures v.provenance.origin != "" && HasProvenance(v.provenance)
  {
    assert JudgmentCloses(values, v);
  }

  lemma SignalUnitJudged(kind: string, u: Unit)
    requires SignalUnitCloses(kind, u)
    ensures AllJudged(u)
  {
    var values := SignalJudgments(u);
    JudgmentJudged(values, Judgment(u.localKey, u.sourceId, u.provenance));
    hide JudgmentsClose, UnitCloses, HasProvenance, ChainJudgments, MacroJudgments;
    forall m | m in u.detail.macros ensures HasProvenance(m.provenance) {
      MacroJudgmentIn(u.detail.macros, m);
      JudgmentJudged(values, Judgment(m.localKey, m.sourceId, m.provenance));
    }
    forall m | m in Companies(u) ensures m.provenance.origin != "" {
      MacroJudgmentIn(Companies(u), m);
      JudgmentJudged(values, Judgment(m.localKey, m.sourceId, m.provenance));
    }
    forall c | c in u.detail.chains ensures HasProvenance(c.provenance) && forall n | n in c.nodes :: HasProvenance(n.provenance) {
      ChainJudgmentIn(u.detail.chains, c);
      JudgmentJudged(values, Judgment(c.localKey, c.sourceId, c.provenance));
      forall n | n in c.nodes ensures HasProvenance(n.provenance) {
        JudgmentJudged(values, Judgment(n.localKey, n.sourceId, n.provenance));
      }
    }
  }

  lemma {:induction false} AddedForChainsFrom(refs: seq<Ref>, chains: seq<Chain>)
    ensures forall g | g in AddedForChains(refs, chains) ::
              exists c | c in chains :: Whole(refs, c.localKey) && g == Judgment(AssetKey(c.localKey), c.sourceId, c.provenance)
    ensures forall c | c in chains && Whole(refs, c.localKey) ::
              Judgment(AssetKey(c.localKey), c.sourceId, c.provenance) in AddedForChains(refs, chains)
  {
    hide Whole, AssetKey;
    if chains != [] {
      var init, last := chains[..|chains| - 1], chains[|chains| - 1];
      AddedForChainsFrom(refs, init);
      assert chains == init + [last];
      assert forall c :: c in chains <==> c in init || c == last;
    }
  }

  lemma AddedCopies(u: Unit)
    ensures Copies(SignalJudgments(u), Added(u))
  {
    AddedForChainsFrom(u.summary.refs, u.detail.chains);
    hide ChainJudgments, MacroJudgments, AddedForChains, Whole, AssetKey, ReasoningKey;
    forall g | g in Added(u) ensures exists v | v in SignalJudgments(u) :: v.id == g.id && v.provenance == g.provenance {
      if g in AddedForMacros(u.detail.macros) {
        var i :| 0 <= i < |u.detail.macros| && AddedForMacros(u.detail.macros)[i] == g;
        var m := u.detail.macros[i];
        MacroJudgmentIn(u.detail.macros, m);
        assert Judgment(m.localKey, m.sourceId, m.provenance) in SignalJudgments(u);
      } else {
        var c :| c in u.detail.chains && g == Judgment(AssetKey(c.localKey), c.sourceId, c.provenance);
        ChainJudgmentIn(u.detail.chains, c);
        assert Judgment(c.localKey, c.sourceId, c.provenance) in SignalJudgments(u);
      }
    }
  }

  /** Upstream references of a version 5 unit still close after the conversion exactly when the generated
    keys fit, differ from each other and from every key already in the judgment scope. */
  lemma SignalsCloseIff(kind: string, u: Unit)
    requires SignalUnitCloses(kind, u)
    ensures JudgmentsClose(UnifiedJudgments(Unified(u))) <==> AddedFresh(u)
  {
    SignalUnitJudged(kind, u);
    ConvertedJudgments(u);
    AddedCopies(u);
    hide SignalJudgments, Added, JudgmentsClose, Unified, UnifiedJudgments;
    OrderIrrelevant(UnifiedJudgments(Unified(u)), SignalJudgments(u) + Added(u));
    CopiesCloseIff(SignalJudgments(u), Added(u));
  }

  lemma FreshKeysFit(kind: string, u: Unit)
    requires SignalUnitCloses(kind, u) && AddedFresh(u)
    ensures ReasoningKeysFit(u) && AssetKeysFit(u) && NoClash(u) && forall c | c in u.detail.chains :: !Collides(u.summary.refs, c)
  {
    var values, added := SignalJudgments(u), Added(u);
    KeysOfMembers(added);
    AddedForChainsFrom(u.summary.refs, u.detail.chains);
    hide LocalKey, JudgmentsClose, MacroJudgments, ChainJudgments, AddedForChains, Whole;
    forall m | m in u.detail.macros ensures |m.localKey| <= 118 && forall v | v in values :: v.key != ReasoningKey(m.localKey) {
      var i :| 0 <= i < |u.detail.macros| && u.detail.macros[i] == m;
      assert AddedForMacros(u.detail.macros)[i] in added;
      MacroKeyFits(u, m);
    }
    forall c | c in u.detail.chains
      ensures Whole(u.summary.refs, c.localKey) ==> |c.localKey| <= 122 && AssetKey(c.localKey) !in NodeKeys(c.nodes)
    {
      ChainJudgmentIn(u.detail.chains, c);
      ReportUnifyClosure.ChainKeyFits(u, c);
      forall i | 0 <= i < |c.nodes| ensures Whole(u.summary.refs, c.localKey) ==> NodeKeys(c.nodes)[i] != AssetKey(c.localKey) {
        assert c.nodes[i] in c.nodes;
      }
    }
    forall m, c | m in u.detail.macros && c in u.detail.chains ensures c.localKey != ReasoningKey(m.localKey) {
      ChainJudgmentIn(u.detail.chains, c);
      assert Judgment(c.localKey, c.sourceId, c.provenance) in values;
    }
  }

  /** A closed version 5 unit with content is converted to a closed version 6 unit exactly when the generated
    keys are fresh, and a geopolitical unit cites Evidence in its summary. */
  lemma SignalUnitIff(kind: string, u: Unit)
    requires SignalUnitCloses(kind, u) && (u.detail.macros != [] || u.detail.chains != [])
    ensures Convert(u).Converted? && UnifiedCloses(kind, Convert(u).unit) <==>
            AddedFresh(u) && (Geopolitical(kind) ==> u.summary.evidenceIds != [])
  {
    ConvertedIff(kind, u);
    SignalsCloseIff(kind, u);
    SignalUnitJudged(kind, u);
    assert UnifiedJudgments(Unified(u))[0] == Judgment(u.localKey, u.sourceId, u.provenance);
    if AddedFresh(u) {
      FreshKeysFit(kind, u);
      ReasoningKeysIff(kind, u);
      ReasoningsIff(kind, u);
      AnchorsClose(kind, u);
      RefsStayDistinct(kind, u);
    }
    hide UnifiedJudgments, JudgmentsClose, LocalKey, LocalKeys, ReasoningCloses, Rewritten, NoClash, ReasoningKeysFit, AssetKeysFit;
    hide DistinctAnchors, AnchorCloses, MacroReasonings, ChainReasonings, ReasoningKeys, ChainsClose, DistinctRefs, RefCloses, AddedFresh, AllJudged;
  }
}
