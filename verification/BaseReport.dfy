/** A version 4 report as a whole: what its validator accepts has a usable scope index. */
module BaseReport {
  import opened Json
  import opened ReportModel
  import opened ReportClosure
  import opened EvidenceScopes
  import opened EvidenceScopeAgreement
  import opened EvidenceScopeIndex

  predicate DistinctUnitSources(units: seq<Unit>) {
    forall i, j | 0 <= i < j < |units| :: units[i].sourceId != units[j].sourceId
  }

  predicate GroupCloses(kind: string, units: seq<Unit>) {
    DistinctUnitSources(units) && LocalKeys(UnitKeys(units)) && forall u | u in units :: UnitCloses(kind, u)
  }

  predicate ReportCloses(r: Report) {
    && GroupCloses("geopolitical_stories", r.geopolitical) && GroupCloses("macroeconomic_stories", r.macroeconomic)
    && GroupCloses("concept_analyses", r.concepts)
    && (r.geopolitical != [] || r.macroeconomic != [] || r.concepts != [])
    && LocalKeys(ObservationKeys(r.observations))
  }

  method ValidateGroup(kind: string, units: seq<Unit>) returns (ok: bool)
    ensures ok <==> GroupCloses(kind, units)
  {
    hide LocalKey, LocalKeys, UnitCloses;
    var sources: set<string>, unitKeys: set<string> := {}, {};
    ghost var keys := UnitKeys(units);
    LocalKeysEmpty(keys);
    for i := 0 to |units|
      invariant DistinctUnitSources(units[..i]) && LocalKeys(keys[..i]) && forall u | u in units[..i] :: UnitCloses(kind, u)
      invariant forall k :: k in sources <==> exists j | 0 <= j < i :: units[j].sourceId == k
      invariant forall k :: k in unitKeys <==> k in keys[..i]
    {
      var u := units[i];
      assert u in units && units[..i + 1] == units[..i] + [u] && keys[..i + 1] == keys[..i] + [keys[i]];
      if u.sourceId in sources {
        return false;
      }
      sources := sources + {u.sourceId};
      LocalKeysStep(keys, i);
      if u.localKey in unitKeys {
        NotLocalKeys(keys, i);
        return false;
      }
      unitKeys := unitKeys + {u.localKey};
      var closes := ValidateNormalizedUnit(kind, u);
      if !closes {
        return false;
      }
      UnitKeyFits(kind, u);
    }
    assert units[..|units|] == units && keys[..|keys|] == keys;
    ok := true;
  }

  lemma UnitKeyFits(kind: string, u: Unit)
    requires UnitCloses(kind, u)
    ensures LocalKey(u.localKey)
  {
  }

  method ValidateObservations(os: seq<Observation>) returns (ok: bool)
    ensures ok <==> LocalKeys(ObservationKeys(os))
  {
    hide LocalKey, LocalKeys;
    var seen: set<string> := {};
    ghost var keys := ObservationKeys(os);
    LocalKeysEmpty(keys);
    for i := 0 to |os|
      invariant LocalKeys(keys[..i]) && forall k :: k in seen <==> k in keys[..i]
    {
      LocalKeysStep(keys, i);
      if !LocalKey(os[i].localKey) || os[i].localKey in seen {
        NotLocalKeys(keys, i);
        return false;
      }
      seen := seen + {os[i].localKey};
      assert keys[..i + 1] == keys[..i] + [keys[i]];
    }
    assert keys[..|keys|] == keys;
    ok := true;
  }

  /** `validateNormalizedBaseReport`, without its checks of single fields. */
  method ValidateBaseReport(r: Report) returns (ok: bool)
    ensures ok <==> ReportCloses(r)
  {
    hide GroupCloses;
    ok := ValidateGroup("geopolitical_stories", r.geopolitical);
    if !ok {
      return;
    }
    ok := ValidateGroup("macroeconomic_stories", r.macroeconomic);
    if !ok {
      return;
    }
    ok := ValidateGroup("concept_analyses", r.concepts);
    if !ok {
      return;
    }
    if |r.geopolitical| + |r.macroeconomic| + |r.concepts| == 0 {
      return false;
    }
    ok := ValidateObservations(r.observations);
  }

  lemma ClosedGroupKeyed(kind: string, units: seq<Unit>)
    requires GroupCloses(kind, units)
    ensures UnitsKeyed(units)
  {
    forall u | u in units ensures UnitKeyed(u) { ValidatedUnitKeyed(kind, u); }
  }

  /** In an accepted report every path text names one scope, in the typed traversal and, without reasonings, in the
    tree walk as well. */
  lemma AcceptedPathsUnique(r: Report, s: Scope, t: Scope)
    requires ReportCloses(r) && s in TypedScopes(r) && t in TypedScopes(r)
    ensures Text(s.path) == Text(t.path) <==> s == t
    ensures NoReasonings(r) ==> s in TreeScopes(r) && t in TreeScopes(r)
  {
    AcceptedKeyed(r);
    hide ReportCloses, Keyed;
    PathTextIsKey(r, s, t);
    TraversalsAgreeIff(r);
  }

  lemma AcceptedKeyed(r: Report)
    requires ReportCloses(r)
    ensures Keyed(r)
  {
    ClosedGroupKeyed("geopolitical_stories", r.geopolitical);
    ClosedGroupKeyed("macroeconomic_stories", r.macroeconomic);
    ClosedGroupKeyed("concept_analyses", r.concepts);
  }

  // ---- a report on which the traversals differ ----

  const CITED := ["EVD00000000-0000-5000-8000-000000000001"]

  /** A reasoning as version 6 writes it, inside a version 4 unit. */
  const REASONING := Reasoning(
    "reasoning", "MEC00000000-0000-5000-8000-000000000001", "Inflation", Assessment("rises", "prices rise", CITED),
    ReasoningSummary("prices rise", None, Objections("none", [], [])), [], None, [], Provenance("", None, None))

  const MACRO := Macro(
    "macro", "MEC00000000-0000-5000-8000-000000000001", "Inflation", Assessment("rises", "prices rise", CITED),
    Objections("none", [], []), Provenance("", None, None))

  const STORY := Unit(
    "story", "GPR00000000-0000-5000-8000-000000000001", "Strait closed", Provenance("", None, None),
    Summary("Prices rise", CITED, Impact("pending", []), [Ref("", "macroeconomic_story", "macro", None)]),
    Detail([REASONING], [MACRO], [], None))

  lemma StoryCloses()
    ensures UnitCloses("geopolitical_stories", STORY)
  {
    assert LocalKey("story") && LocalKey("macro");
    assert MacroKeys([MACRO]) == ["macro"];
    hide LocalKey;
  }

  /** The validator accepts a version 4 report with a reasoning, on which the two traversals yield different scopes. */
  lemma AcceptedReportMayDiffer()
    ensures ReportCloses(Report([STORY], [], [], [])) && !SameScopes(Report([STORY], [], [], []))
  {
    var r := Report([STORY], [], [], []);
    StoryCloses();
    assert LocalKey("story");
    assert UnitKeys([STORY]) == ["story"] && UnitKeys([]) == [] && ObservationKeys([]) == [];
    TraversalsAgreeIff(r);
    assert r.geopolitical[0].detail.reasonings == [REASONING] && [REASONING][0] in [REASONING];
    hide LocalKey, UnitCloses, SameScopes;
  }
}
