/** Scopes of any report tree: where the segments of every array differ, a path names one scope. */
module EvidenceTree {
  import opened Json
  import opened Sequences
  import opened ReportModel
  import opened EvidenceScopes
  import opened EvidenceScopeAgreement
  import opened EvidenceScopeIndex

  /** At every level the segments differ and hold no slash: local keys are distinct, the rest is told apart by position. */
  predicate TreeKeyed(v: JSON) {
    match v
    case Arr(items) =>
      && (forall i, j | 0 <= i < j < |items| :: Segment(items, i) != Segment(items, j))
      && forall i | 0 <= i < |items| :: SlashFree(Segment(items, i)) && TreeKeyed(items[i])
    case Obj(fields) => forall k | k in fields :: SlashFree(k) && TreeKeyed(fields[k])
    case _ => true
  }

  lemma {:induction false} OneTreeScope(v: JSON, path: Path, a: seq<string>, b: seq<string>)
    requires TreeKeyed(v) && Found(v, path, a) && Found(v, path, b)
    ensures a == b && SlashFreePath(path)
    decreases |path|
  {
    if v.Obj? {
      if path == ["evidence_ids"] {
        assert path[1..] == [];
        assert SlashFree("evidence_ids");
      } else {
        OneTreeScope(v.fields[path[0]], path[1..], a, b);
        SlashFreeStep(path);
      }
    } else {
      var i :| 0 <= i < |v.items| && Segment(v.items, i) == path[0] && Found(v.items[i], path[1..], a);
      var j :| 0 <= j < |v.items| && Segment(v.items, j) == path[0] && Found(v.items[j], path[1..], b);
      assert i == j;
      OneTreeScope(v.items[i], path[1..], a, b);
      SlashFreeStep(path);
    }
  }

  lemma WalkIsFound(v: JSON, s: Scope)
    ensures s in WalkScopes(v, []) <==> Found(v, s.path, s.ids)
  {
    WalkFinds(v, [], s);
    assert s.path[0..] == s.path;
    hide WalkScopes, Found;
  }

  /** The tree walk over a keyed tree of any version: two scopes have one path text exactly when they are one scope. */
  lemma TreePathIsKey(v: JSON, s: Scope, t: Scope)
    requires TreeKeyed(v) && s in WalkScopes(v, []) && t in WalkScopes(v, [])
    ensures Text(s.path) == Text(t.path) <==> s == t
  {
    WalkIsFound(v, s);
    WalkIsFound(v, t);
    OneTreeScope(v, s.path, s.ids, s.ids);
    OneTreeScope(v, t.path, t.ids, t.ids);
    FoundNonempty(v, s.path, s.ids);
    FoundNonempty(v, t.path, t.ids);
    TextInjective(s.path, t.path);
    if s.path == t.path {
      OneTreeScope(v, s.path, s.ids, t.ids);
    }
    hide TreeKeyed, WalkScopes, Text, Found, SlashFreePath;
  }

  lemma FoundNonempty(v: JSON, path: Path, ids: seq<string>)
    requires Found(v, path, ids)
    ensures path != []
  {
  }

  /** Walk, links and counts over a keyed tree: every scope is counted with its own length. */
  method TreeCounts(v: JSON) returns (counts: map<string, nat>)
    requires TreeKeyed(v) && forall s | s in WalkScopes(v, []) :: Distinct(s.ids)
    ensures forall s | s in WalkScopes(v, []) ::
              (Text(s.path) in counts <==> s.ids != []) && (s.ids != [] ==> counts[Text(s.path)] == |s.ids|)
  {
    assert Rooted([]) == "";
    forall s, t | s in WalkScopes(v, []) && t in WalkScopes(v, []) && Text(s.path) == Text(t.path) ensures s == t { TreePathIsKey(v, s, t); }
    assert PathKeys(WalkScopes(v, []));
    hide TreeKeyed, WalkScopes, Texts, Text, PathKeys;
    var texts := Walk(v, [], "");
    counts := CountScopes(texts, WalkScopes(v, []));
  }
}
