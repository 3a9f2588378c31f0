/** What the conversion preserves: every reference keeps its meaning, closed units stay closed. */
module ReportUnifyMeaning {
  import opened Json
  import opened Sequences
  import opened ReportModel
  import opened ReportClosure
  import opened UnifiedClosure
  import opened ReportUnify

  // ---- no reference of a closed unit dangles ----

  lemma ClosedRefKnown(kind: string, d: Detail, refs: seq<Ref>, r: Ref)
    requires RefCloses(kind, d, r) && r in refs
    ensures Known(refs, d.macros, d.chains, KeyOf(r))
  {
    if r.targetType == "macroeconomic_story" {
      var i :| 0 <= i < |d.macros| && MacroKeys(d.macros)[i] == r.localKey;
      assert d.macros[i] in d.macros;
    } else if r.targetType == "industry_chain" {
      var i :| 0 <= i < |d.chains| && ChainKeys(d.chains)[i] == r.localKey;
      assert d.chains[i] in d.chains;
    } else {
      var c :| c in d.chains && c.localKey == r.chainLocalKey.value && r.localKey in NodeKeys(c.nodes);
      var i :| 0 <= i < |c.nodes| && NodeKeys(c.nodes)[i] == r.localKey;
      assert c.nodes[i] in c.nodes;
    }
  }

  lemma {:induction false} NoDangling(kind: string, d: Detail, all: seq<Ref>, refs: seq<Ref>)
    requires forall r | r in refs :: r in all && RefCloses(kind, d, r)
    ensures FirstDangling(all, d.macros, d.chains, refs).None?
  {
    hide Known, RefCloses;
    if refs != [] {
      ClosedRefKnown(kind, d, all, refs[0]);
      NoDangling(kind, d, all, refs[1..]);
    }
  }

  /** A closed unit is converted exactly when it has content and no generated asset key meets a node key. */
  lemma ConvertedIff(kind: string, u: Unit)
    requires UnitCloses(kind, u)
    ensures !Convert(u).Dangling?
    ensures Convert(u) == Converted(Unified(u)) <==>
            (u.detail.macros != [] || u.detail.chains != []) && forall c | c in u.detail.chains :: !Collides(u.summary.refs, c)
  {
    hide RefCloses, Unified, Collides;
    NoDangling(kind, u.detail, u.summary.refs, u.summary.refs);
  }

  // ---- what a reference denotes ----

  datatype Target = Target(name: string, sourceId: string, assessment: Assessment)

  /** Before: a macro impact, a chain as a whole, or a node of a chain. */
  ghost predicate Denotes(d: Detail, r: Ref, t: Target) {
    if r.targetType == "macroeconomic_story" then
      exists m | m in d.macros :: m.localKey == r.localKey && t == Target(m.name, m.sourceId, m.assessment)
    else if r.targetType == "industry_chain" then
      exists c | c in d.chains :: c.localKey == r.localKey && t == Target(c.name, c.sourceId, c.assessment)
    else
      exists c, n | c in d.chains && n in c.nodes ::
        Some(c.localKey) == r.chainLocalKey && n.localKey == r.localKey && t == Target(n.name, n.sourceId, n.assessment)
  }

  /** After: an asset of a reasoning. */
  ghost predicate DenotesAsset(reasonings: seq<Reasoning>, r: Ref, t: Target) {
    exists x, a | x in reasonings && a in x.assets ::
      x.localKey == r.reasoningLocalKey && a.localKey == r.localKey && t == Target(a.name, a.sourceId, a.assessment)
  }

  function Reasonings(u: Unit): seq<Reasoning> {
    MacroReasonings(u.detail.macros) + ChainReasonings(u.summary.refs, u.detail.chains)
  }

  lemma MacroIn(u: Unit, m: Macro)
    requires m in u.detail.macros
    ensures MacroReasoning(m) in Reasonings(u)
  {
    var i :| 0 <= i < |u.detail.macros| && u.detail.macros[i] == m;
    assert Reasonings(u)[i] == MacroReasoning(m);
  }

  lemma ChainIn(u: Unit, c: Chain)
    requires c in u.detail.chains
    ensures ChainReasoning(c, Whole(u.summary.refs, c.localKey)) in Reasonings(u)
  {
    hide Whole, ChainReasoning, MacroReasoning;
    var i :| 0 <= i < |u.detail.chains| && u.detail.chains[i] == c;
    assert Reasonings(u)[|u.detail.macros| + i] == ChainReasoning(c, Whole(u.summary.refs, c.localKey));
  }

  /** Every reasoning of the result comes from a macro impact or a chain. */
  lemma ReasoningFrom(u: Unit, x: Reasoning)
    requires x in Reasonings(u)
    ensures (exists m | m in u.detail.macros :: x == MacroReasoning(m))
         || (exists c | c in u.detail.chains :: x == ChainReasoning(c, Whole(u.summary.refs, c.localKey)))
  {
    hide Whole, ChainReasoning, MacroReasoning;
    var i :| 0 <= i < |Reasonings(u)| && Reasonings(u)[i] == x;
    if i < |u.detail.macros| {
      assert u.detail.macros[i] in u.detail.macros;
    } else {
      assert u.detail.chains[i - |u.detail.macros|] in u.detail.chains;
    }
  }

  /** What a reference denoted before, its rewritten form denotes after. */
  lemma MeaningKept(kind: string, u: Unit, r: Ref, t: Target)
    requires UnitCloses(kind, u) && r in u.summary.refs && Denotes(u.detail, r, t)
    ensures DenotesAsset(Reasonings(u), NewTarget(KeyOf(r)), t)
  {
    assert RefCloses(kind, u.detail, r);
    hide UnitCloses, Reasonings, NodeKeys, MacroKeys, ChainKeys;
    if r.targetType == "macroeconomic_story" {
      var m :| m in u.detail.macros && m.localKey == r.localKey && t == Target(m.name, m.sourceId, m.assessment);
      MacroIn(u, m);
      assert MacroAsset(m) in MacroReasoning(m).assets;
    } else if r.targetType == "industry_chain" {
      var c :| c in u.detail.chains && c.localKey == r.localKey && t == Target(c.name, c.sourceId, c.assessment);
      ChainIn(u, c);
      assert Whole(u.summary.refs, c.localKey);
      assert WholeAsset(c) in ChainReasoning(c, true).assets;
    } else {
      var c, n :| c in u.detail.chains && n in c.nodes &&
        Some(c.localKey) == r.chainLocalKey && n.localKey == r.localKey && t == Target(n.name, n.sourceId, n.assessment);
      ChainIn(u, c);
      assert n in ChainReasoning(c, Whole(u.summary.refs, c.localKey)).assets;
    }
  }

  /** Every reference of a closed unit denotes something. */
  lemma ClosedRefDenotes(kind: string, u: Unit, r: Ref) returns (t: Target)
    requires UnitCloses(kind, u) && r in u.summary.refs
    ensures Denotes(u.detail, r, t)
  {
    assert RefCloses(kind, u.detail, r);
    if r.targetType == "macroeconomic_story" {
      var i :| 0 <= i < |u.detail.macros| && MacroKeys(u.detail.macros)[i] == r.localKey;
      var m := u.detail.macros[i];
      assert m in u.detail.macros;
      t := Target(m.name, m.sourceId, m.assessment);
    } else if r.targetType == "industry_chain" {
      var i :| 0 <= i < |u.detail.chains| && ChainKeys(u.detail.chains)[i] == r.localKey;
      var c := u.detail.chains[i];
      assert c in u.detail.chains;
      t := Target(c.name, c.sourceId, c.assessment);
    } else {
      var c :| c in u.detail.chains && c.localKey == r.chainLocalKey.value && r.localKey in NodeKeys(c.nodes);
      var i :| 0 <= i < |c.nodes| && NodeKeys(c.nodes)[i] == r.localKey;
      var n := c.nodes[i];
      assert n in c.nodes;
      t := Target(n.name, n.sourceId, n.assessment);
    }
  }

  /** No chain carries the key that a macro impact's reasoning gets. */
  predicate NoClash(u: Unit) {
    forall m, c | m in u.detail.macros && c in u.detail.chains :: c.localKey != ReasoningKey(m.localKey)
  }

  lemma SuffixCancel(a: string, b: string, suffix: string)
    ensures a + suffix == b + suffix <==> a == b
  {
    if a + suffix == b + suffix {
      assert a == (a + suffix)[..|a|] && b == (b + suffix)[..|b|];
    }
  }

  /** Two chain reasonings, or a chain and a macro reasoning, with one key come from one chain. */
  lemma FromChain(kind: string, u: Unit, c: Chain, x: Reasoning)
    requires UnitCloses(kind, u) && NoClash(u) && c in u.detail.chains && x in Reasonings(u) && x.localKey == c.localKey
    ensures x == ChainReasoning(c, Whole(u.summary.refs, c.localKey))
  {
    ReasoningFrom(u, x);
    hide Reasonings, Whole, ChainCloses, LocalKey;
    if d :| d in u.detail.chains && x == ChainReasoning(d, Whole(u.summary.refs, d.localKey)) {
      OneChain(u.detail.chains, c, d);
    }
  }

  lemma FromMacro(kind: string, u: Unit, m: Macro, x: Reasoning)
    requires UnitCloses(kind, u) && NoClash(u) && m in u.detail.macros && x in Reasonings(u) && x.localKey == ReasoningKey(m.localKey)
    ensures x == MacroReasoning(m)
  {
    ReasoningFrom(u, x);
    hide Reasonings, Whole, ChainCloses, LocalKey;
    if n :| n in u.detail.macros && x == MacroReasoning(n) {
      SuffixCancel(m.localKey, n.localKey, "-reasoning");
      OneMacro(u.detail.macros, m, n);
    }
  }

  lemma ChainNodesDistinct(kind: string, u: Unit, c: Chain)
    requires UnitCloses(kind, u) && c in u.detail.chains
    ensures Distinct(NodeKeys(c.nodes))
  {
    assert ChainCloses(c);
  }

  /** The rewritten reference denotes exactly what the original denoted, when no generated reasoning key
    is also a chain's key. */
  lemma MeaningExact(kind: string, u: Unit, r: Ref, t: Target)
    requires UnitCloses(kind, u) && r in u.summary.refs && Convert(u).Converted? && NoClash(u)
    ensures Denotes(u.detail, r, t) <==> DenotesAsset(Reasonings(u), NewTarget(KeyOf(r)), t)
  {
    if Denotes(u.detail, r, t) {
      MeaningKept(kind, u, r, t);
    }
    if DenotesAsset(Reasonings(u), NewTarget(KeyOf(r)), t) {
      var updated := NewTarget(KeyOf(r));
      var x, a :| x in Reasonings(u) && a in x.assets && x.localKey == updated.reasoningLocalKey && a.localKey == updated.localKey
        && t == Target(a.name, a.sourceId, a.assessment);
      AssetDenoted(kind, u, r, x, a);
    }
  }

  lemma AssetDenoted(kind: string, u: Unit, r: Ref, x: Reasoning, a: Node)
    requires UnitCloses(kind, u) && r in u.summary.refs && Convert(u).Converted? && NoClash(u)
    requires x in Reasonings(u) && a in x.assets
    requires x.localKey == NewTarget(KeyOf(r)).reasoningLocalKey && a.localKey == NewTarget(KeyOf(r)).localKey
    ensures Denotes(u.detail, r, Target(a.name, a.sourceId, a.assessment))
  {
    var denoted := ClosedRefDenotes(kind, u, r);
    assert RefCloses(kind, u.detail, r);
    assert forall c | c in u.detail.chains :: !Collides(u.summary.refs, c);
    hide UnitCloses, Convert, NoClash, Reasonings, Whole, NodeKeys, MacroKeys, ChainKeys;
    if r.targetType == "macroeconomic_story" {
      var m :| m in u.detail.macros && m.localKey == r.localKey;
      FromMacro(kind, u, m, x);
      assert a == MacroAsset(m);
    } else if r.targetType == "industry_chain" {
      var c :| c in u.detail.chains && c.localKey == r.localKey;
      FromChain(kind, u, c, x);
      assert Whole(u.summary.refs, c.localKey) by { WholeRef(u.summary.refs, r); }
      assert a == WholeAsset(c) || a in c.nodes;
      if a in c.nodes { InNodeKeys(c.nodes, a); }
    } else {
      var c, n :| c in u.detail.chains && n in c.nodes && Some(c.localKey) == r.chainLocalKey && n.localKey == r.localKey;
      FromChain(kind, u, c, x);
      InNodeKeys(c.nodes, n);
      ChainNodesDistinct(kind, u, c);
      assert a in c.nodes;
      OneNode(c.nodes, a, n);
    }
  }

  lemma WholeRef(refs: seq<Ref>, r: Ref)
    requires r in refs && r.targetType == "industry_chain"
    ensures Whole(refs, r.localKey)
  {
  }

  // ---- distinct references stay distinct ----

  /** A generated reasoning key and a generated asset key cannot both coincide: the lengths differ. */
  lemma NoCoincidence(macroKey: string, chainKey: string)
    ensures NewRef(ReasoningKey(macroKey), macroKey) != NewRef(chainKey, AssetKey(chainKey))
  {
    assert |ReasoningKey(macroKey)| == |macroKey| + 10 && |AssetKey(chainKey)| == |chainKey| + 6;
  }

  lemma NewTargetsDiffer(kind: string, d: Detail, r: Ref, s: Ref)
    requires RefCloses(kind, d, r) && RefCloses(kind, d, s)
    ensures NewTarget(KeyOf(r)) == NewTarget(KeyOf(s)) <==> KeyOf(r) == KeyOf(s)
  {
    NoCoincidence(r.localKey, s.localKey);
    NoCoincidence(s.localKey, r.localKey);
    SuffixCancel(r.localKey, s.localKey, "-reasoning");
    SuffixCancel(r.localKey, s.localKey, "-asset");
  }

  lemma RefsStayDistinct(kind: string, u: Unit)
    requires UnitCloses(kind, u)
    ensures DistinctAnchors(Rewritten(u.summary.refs))
  {
    hide RefCloses, NewTarget;
    var refs := u.summary.refs;
    forall i, j | 0 <= i < j < |refs|
      ensures var a, b := Rewritten(refs)[i], Rewritten(refs)[j]; a.reasoningLocalKey != b.reasoningLocalKey || a.localKey != b.localKey
    {
      NewTargetsDiffer(kind, u.detail, refs[i], refs[j]);
      NewTargetShape(KeyOf(refs[i]));
      NewTargetShape(KeyOf(refs[j]));
    }
  }

  lemma NewTargetShape(key: RefKey)
    ensures NewTarget(key).targetType == "" && NewTarget(key).chainLocalKey.None?
  {
  }
}
