/** When the converted unit passes the version 6 checks. */
module ReportUnifyClosure {
  import opened Json
  import opened ReportModel
  import opened ReportClosure
  import opened UnifiedClosure
  import opened ReportUnify
  import opened ReportUnifyMeaning

  // ---- generated keys ----

  /** A generated key fits the local key pattern exactly while it is not too long. */
  lemma GeneratedKeyFits(key: string, suffix: string)
    requires LocalKey(key) && suffix in {"-reasoning", "-asset"}
    ensures LocalKey(key + suffix) <==> |key| + |suffix| <= 128
  {
    forall i | 0 <= i < |key + suffix| ensures KeyChar((key + suffix)[i]) {
      if i >= |key| { assert (key + suffix)[i] == suffix[i - |key|]; }
    }
  }

  predicate ReasoningKeysFit(u: Unit) { forall m | m in u.detail.macros :: |m.localKey| <= 118 }

  predicate AssetKeysFit(u: Unit) {
    forall c | c in u.detail.chains :: Whole(u.summary.refs, c.localKey) ==> |c.localKey| <= 122
  }

  lemma MacroKeyFits(u: Unit, m: Macro)
    requires LocalKeys(MacroKeys(u.detail.macros)) && m in u.detail.macros
    ensures LocalKey(m.localKey) && (LocalKey(ReasoningKey(m.localKey)) <==> |m.localKey| <= 118)
  {
    var i :| 0 <= i < |u.detail.macros| && u.detail.macros[i] == m;
    assert MacroKeys(u.detail.macros)[i] in MacroKeys(u.detail.macros);
    GeneratedKeyFits(m.localKey, "-reasoning");
  }

  lemma ChainKeyFits(u: Unit, c: Chain)
    requires ChainsClose(u.detail.chains) && c in u.detail.chains
    ensures LocalKey(c.localKey) && (LocalKey(AssetKey(c.localKey)) <==> |c.localKey| <= 122)
  {
    assert ChainCloses(c);
    GeneratedKeyFits(c.localKey, "-asset");
  }

  // ---- reasoning keys ----

  lemma ReasoningKeyAt(u: Unit, i: nat)
    requires i < |Reasonings(u)|
    ensures ReasoningKeys(Reasonings(u))[i] ==
            if i < |u.detail.macros| then ReasoningKey(u.detail.macros[i].localKey)
            else u.detail.chains[i - |u.detail.macros|].localKey
  {
  }

  /** The reasoning keys are valid and distinct exactly when they fit and no chain carries a generated one. */
  lemma ReasoningKeysIff(kind: string, u: Unit)
    requires UnitCloses(kind, u)
    ensures LocalKeys(ReasoningKeys(Reasonings(u))) <==> ReasoningKeysFit(u) && NoClash(u)
  {
    var keys, k := ReasoningKeys(Reasonings(u)), |u.detail.macros|;
    assert |keys| == k + |u.detail.chains|;
    forall i | 0 <= i < |keys|
      ensures keys[i] == if i < k then ReasoningKey(u.detail.macros[i].localKey) else u.detail.chains[i - k].localKey
    {
      ReasoningKeyAt(u, i);
    }
    hide Reasonings, ReasoningKeys, ReasoningKey, LocalKey;
    if LocalKeys(keys) {
      KeysGood(u, keys);
    }
    if ReasoningKeysFit(u) && NoClash(u) {
      GoodKeys(kind, u, keys);
    }
  }

  ghost predicate KeysAre(u: Unit, keys: seq<string>) {
    && |keys| == |u.detail.macros| + |u.detail.chains|
    && forall i | 0 <= i < |keys| ::
         keys[i] == if i < |u.detail.macros| then ReasoningKey(u.detail.macros[i].localKey) else u.detail.chains[i - |u.detail.macros|].localKey
  }

  lemma KeysGood(u: Unit, keys: seq<string>)
    requires KeysAre(u, keys) && LocalKeys(keys) && LocalKeys(MacroKeys(u.detail.macros))
    ensures ReasoningKeysFit(u) && NoClash(u)
  {
    hide LocalKey, ReasoningKey;
    forall m | m in u.detail.macros ensures |m.localKey| <= 118 {
      var i :| 0 <= i < |u.detail.macros| && u.detail.macros[i] == m;
      assert keys[i] in keys;
      MacroKeyFits(u, m);
    }
    forall m, c | m in u.detail.macros && c in u.detail.chains ensures c.localKey != ReasoningKey(m.localKey) {
      var i :| 0 <= i < |u.detail.macros| && u.detail.macros[i] == m;
      var j :| 0 <= j < |u.detail.chains| && u.detail.chains[j] == c;
      assert keys[i] != keys[|u.detail.macros| + j];
    }
  }

  lemma GoodKeys(kind: string, u: Unit, keys: seq<string>)
    requires KeysAre(u, keys) && UnitCloses(kind, u) && ReasoningKeysFit(u) && NoClash(u)
    ensures LocalKeys(keys)
  {
    hide LocalKey, ReasoningKey;
    var k := |u.detail.macros|;
    forall s | s in keys ensures LocalKey(s) {
      var i :| 0 <= i < |keys| && keys[i] == s;
      if i < k {
        MacroKeyFits(u, u.detail.macros[i]);
      } else {
        ChainKeyFits(u, u.detail.chains[i - k]);
      }
    }
    forall i, j | 0 <= i < j < |keys| ensures keys[i] != keys[j] {
      if j < k {
        assert MacroKeys(u.detail.macros)[i] != MacroKeys(u.detail.macros)[j];
        ReasoningKeysDiffer(u.detail.macros[i].localKey, u.detail.macros[j].localKey);
      } else if i < k {
        assert u.detail.macros[i] in u.detail.macros && u.detail.chains[j - k] in u.detail.chains;
      } else {
        assert ChainKeys(u.detail.chains)[i - k] != ChainKeys(u.detail.chains)[j - k];
      }
    }
  }

  lemma ReasoningKeysDiffer(a: string, b: string)
    requires a != b
    ensures ReasoningKey(a) != ReasoningKey(b)
  {
    SuffixCancel(a, b, "-reasoning");
  }

  // ---- each reasoning ----

  lemma MacroReasoningCloses(u: Unit, m: Macro)
    requires LocalKeys(MacroKeys(u.detail.macros)) && m in u.detail.macros
    ensures ReasoningCloses(MacroReasoning(m))
  {
    MacroKeyFits(u, m);
    assert NodeKeys([MacroAsset(m)]) == [m.localKey];
  }

  /** A chain's reasoning closes exactly when the generated asset key fits and no node has it. */
  lemma ChainReasoningIff(u: Unit, c: Chain)
    requires ChainsClose(u.detail.chains) && c in u.detail.chains
    ensures var whole := Whole(u.summary.refs, c.localKey);
            ReasoningCloses(ChainReasoning(c, whole)) <==> (whole ==> |c.localKey| <= 122 && AssetKey(c.localKey) !in NodeKeys(c.nodes))
  {
    var whole := Whole(u.summary.refs, c.localKey);
    assert ChainCloses(c);
    ChainKeyFits(u, c);
    var assets := ChainReasoning(c, whole).assets;
    var front := if whole then [AssetKey(c.localKey)] else [];
    assert NodeKeys(assets) == front + NodeKeys(c.nodes);
    forall a | a in assets ensures AssetBinds(Some(c.graph), a) {
      assert a == WholeAsset(c) || a in c.nodes;
    }
    hide ChainCloses, LocalKey, Whole, NodeKeys;
    FrontKey(front, NodeKeys(c.nodes));
  }

  lemma FrontKey(front: seq<string>, keys: seq<string>)
    requires LocalKeys(keys) && |front| <= 1
    ensures LocalKeys(front + keys) <==> forall k | k in front :: LocalKey(k) && k !in keys
  {
    hide LocalKey;
    var all := front + keys;
    if LocalKeys(all) {
      forall k | k in front ensures LocalKey(k) && k !in keys {
        assert k in all && all[0] == k;
        assert forall j | 0 <= j < |keys| :: all[j + 1] == keys[j];
      }
    }
    if forall k | k in front :: LocalKey(k) && k !in keys {
      forall i, j | 0 <= i < j < |all| ensures all[i] != all[j] {
        assert all[j] == keys[j - |front|];
        if i >= |front| {
          assert all[i] == keys[i - |front|];
        } else {
          assert all[i] == front[i] && all[j] in keys;
        }
      }
    }
  }

  lemma ReasoningsIff(kind: string, u: Unit)
    requires UnitCloses(kind, u) && forall c | c in u.detail.chains :: !Collides(u.summary.refs, c)
    ensures (forall x | x in Reasonings(u) :: ReasoningCloses(x)) <==> AssetKeysFit(u)
  {
    hide LocalKey, LocalKeys, ReasoningCloses, Reasonings, Whole, ChainReasoning, NodeKeys, MacroKeys, ChainsClose;
    if AssetKeysFit(u) {
      forall x | x in Reasonings(u) ensures ReasoningCloses(x) {
        ReasoningFrom(u, x);
        if m :| m in u.detail.macros && x == MacroReasoning(m) {
          MacroReasoningCloses(u, m);
        } else {
          var c :| c in u.detail.chains && x == ChainReasoning(c, Whole(u.summary.refs, c.localKey));
          ChainReasoningIff(u, c);
        }
      }
    }
    if forall x | x in Reasonings(u) :: ReasoningCloses(x) {
      forall c | c in u.detail.chains ensures Whole(u.summary.refs, c.localKey) ==> |c.localKey| <= 122 {
        ChainIn(u, c);
        ChainReasoningIff(u, c);
      }
    }
  }

  // ---- references ----

  lemma AnchorsClose(kind: string, u: Unit)
    requires UnitCloses(kind, u)
    ensures forall r | r in Rewritten(u.summary.refs) :: AnchorCloses(Reasonings(u), r)
  {
    hide UnitCloses, Denotes, NewTarget, Reasonings;
    forall r | r in Rewritten(u.summary.refs) ensures AnchorCloses(Reasonings(u), r) {
      var i :| 0 <= i < |u.summary.refs| && Rewritten(u.summary.refs)[i] == r;
      var t := ClosedRefDenotes(kind, u, u.summary.refs[i]);
      MeaningKept(kind, u, u.summary.refs[i], t);
      NewTargetShape(KeyOf(u.summary.refs[i]));
    }
  }

  // ---- version 4: no provenance, no judgments ----

  predicate Unjudged(p: Provenance) { !HasProvenance(p) }

  predicate NoProvenance(u: Unit) {
    && Unjudged(u.provenance) && u.detail.companies.None?
    && (forall m | m in u.detail.macros :: Unjudged(m.provenance))
    && forall c | c in u.detail.chains :: Unjudged(c.provenance) && forall n | n in c.nodes :: Unjudged(n.provenance)
  }

  lemma {:induction false} NoAssetJudgments(assets: seq<Node>)
    requires forall a | a in assets :: Unjudged(a.provenance)
    ensures AssetJudgments(assets) == []
  {
    if assets != [] { NoAssetJudgments(assets[..|assets| - 1]); }
  }

  lemma {:induction false} NoReasoningJudgments(reasonings: seq<Reasoning>)
    requires forall x | x in reasonings :: Unjudged(x.provenance) && forall a | a in x.assets :: Unjudged(a.provenance)
    ensures ReasoningJudgments(reasonings) == []
  {
    if reasonings != [] {
      NoReasoningJudgments(reasonings[..|reasonings| - 1]);
      NoAssetJudgments(reasonings[|reasonings| - 1].assets);
    }
  }

  lemma NoJudgments(u: Unit)
    requires NoProvenance(u)
    ensures UnifiedJudgments(Unified(u)) == []
  {
    forall x | x in Reasonings(u) ensures Unjudged(x.provenance) && forall a | a in x.assets :: Unjudged(a.provenance) {
      ReasoningFrom(u, x);
    }
    NoReasoningJudgments(Reasonings(u));
  }

  /** A closed version 4 unit that converts passes the version 6 checks exactly when its generated keys fit,
    no chain carries a generated reasoning key, and a geopolitical unit cites Evidence in its summary. */
  lemma UnifiedClosesIff(kind: string, u: Unit)
    requires UnitCloses(kind, u) && Convert(u).Converted? && NoProvenance(u)
    ensures UnifiedCloses(kind, Unified(u)) <==>
            && ReasoningKeysFit(u) && AssetKeysFit(u) && NoClash(u)
            && (Geopolitical(kind) ==> u.summary.evidenceIds != [])
  {
    ReasoningKeysIff(kind, u);
    ReasoningsIff(kind, u);
    AnchorsClose(kind, u);
    RefsStayDistinct(kind, u);
    NoJudgments(u);
    hide UnifiedJudgments, JudgmentsClose, LocalKey, LocalKeys, ReasoningCloses, Rewritten, NoClash, ReasoningKeysFit, AssetKeysFit;
    hide DistinctAnchors, AnchorCloses, MacroReasonings, ChainReasonings, ReasoningKeys, ChainsClose, DistinctRefs, RefCloses;
  }
}
