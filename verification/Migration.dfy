/** Migration control: one locked run of the executor, and what it reports. */
module Migration {
  import opened Json
  import opened Decimal
  import opened Identity

  /** A migration file; PostgreSQL's current version is the greatest one applied. */
  datatype File = File(version: nat, name: string)

  /** A migration as reported: its version as text of at least six digits. */
  datatype Migration = Migration(version: string, name: string)

  // ---- version texts ----

  function Zeros(n: nat): (z: string)
    ensures |z| == n && forall i | 0 <= i < n :: z[i] == '0'
  {
    seq(n, _ => '0')
  }

  /** `fmt.Sprintf("%06d", version)`. */
  function PaddedText(version: nat): string {
    var text := NatText(version);
    if |text| < 6 then Zeros(6 - |text|) + text else text
  }

  lemma {:induction false} PaddedValue(n: nat, text: string)
    requires IsDigits(text)
    ensures IsDigits(Zeros(n) + text) && Value(Zeros(n) + text) == Value(text)
  {
    if n == 0 {
      assert Zeros(0) + text == text;
    } else {
      PaddedValue(n - 1, text);
      var s := Zeros(n) + text;
      assert s[1..] == Zeros(n - 1) + text;
      LeadingZero(s);
    }
  }

  lemma DigitsAreNotSpace(text: string)
    requires text != "" && IsDigits(text)
    ensures TrimSpace(text) == text
  {
    TrimPlain(text);
  }

  /** A version text is read back as the version. */
  lemma VersionRead(version: nat)
    requires version < INT64_LIMIT
    ensures ParseInt64(PaddedText(version)) == Some(version as int) && TrimSpace(PaddedText(version)) == PaddedText(version)
    ensures ParseInt64(IntText(version)) == Some(version as int) && TrimSpace(IntText(version)) == IntText(version)
  {
    NatTextValue(version);
    var text := NatText(version);
    PaddedValue(if |text| < 6 then 6 - |text| else 0, text);
    assert Zeros(0) + text == text;
    DigitsAreNotSpace(PaddedText(version));
    DigitsAreNotSpace(text);
    assert IsDigit(text[0]) && IsDigit(PaddedText(version)[0]);
  }

  /** A reported version has six digits, or as many as it needs when it needs more. */
  lemma VersionShape(version: nat)
    ensures |PaddedText(version)| == if version < 100_000 then 6 else |NatText(version)|
    ensures IsDigits(PaddedText(version)) && Value(PaddedText(version)) == version
  {
    NatTextValue(version);
    var text := NatText(version);
    PaddedValue(if |text| < 6 then 6 - |text| else 0, text);
    assert Zeros(0) + text == text;
    if version < 100_000 { ShortText(version); } else { LongText(version); }
  }

  lemma ShortText(version: nat)
    requires version < 100_000
    ensures |NatText(version)| <= 5
  {
    assert |NatText(version / 10_000)| == 1;
    assert version / 1_000 / 10 == version / 10_000 && version / 100 / 10 == version / 1_000 && version / 10 / 10 == version / 100;
    assert |NatText(version / 1_000)| <= 2;
    assert |NatText(version / 100)| <= 3;
    assert |NatText(version / 10)| <= 4;
  }

  lemma LongText(version: nat)
    requires version >= 100_000
    ensures |NatText(version)| >= 6
  {
    assert |NatText(version / 100_000)| >= 1;
    assert version / 10_000 / 10 == version / 100_000 && version / 1_000 / 10 == version / 10_000;
    assert version / 100 / 10 == version / 1_000 && version / 10 / 10 == version / 100;
    assert |NatText(version / 10_000)| >= 2;
    assert |NatText(version / 1_000)| >= 3;
    assert |NatText(version / 100)| >= 4;
    assert |NatText(version / 10)| >= 5;
  }

  lemma VersionTextInjective(v: nat, w: nat)
    requires v < INT64_LIMIT && w < INT64_LIMIT
    ensures PaddedText(v) == PaddedText(w) <==> v == w
  {
    VersionRead(v);
    VersionRead(w);
  }

  /** `parseTargetVersion`. */
  function ParseTarget(text: string): Option<int> {
    var target := ParseInt64(TrimSpace(text));
    if target.Some? && target.value >= 1 then target else None
  }

  predicate Blank(text: string) { TrimSpace(text) == "" }

  /** A written target is read as its value when that is at least 1 and refused otherwise; blank means only space. */
  lemma TargetRead(target: int)
    requires -0x8000_0000_0000_0000 <= target < 0x8000_0000_0000_0000
    ensures ParseTarget(IntText(target)) == if target >= 1 then Some(target) else None
  {
    var n := if target < 0 then 0 - target else target;
    NatTextValue(n);
    DigitsAreNotSpace(NatText(n));
    assert IsDigit(NatText(n)[0]);
    if target < 0 {
      var text := "-" + NatText(n);
      assert text[1..] == NatText(n) && IsDigit(text[|text| - 1]);
      TrimPlain(text);
    }
  }

  // ---- files ----

  ghost predicate Ascending(files: seq<File>) {
    && (forall i | 0 <= i < |files| :: 0 < files[i].version < INT64_LIMIT)
    && forall i, j | 0 <= i < j < |files| :: files[i].version < files[j].version
  }

  /** The files with a version above `low` and not above `high`. */
  function Between(files: seq<File>, low: int, high: int): seq<File> {
    if files == [] then []
    else
      var f := files[|files| - 1];
      Between(files[..|files| - 1], low, high) + (if low < f.version <= high then [f] else [])
  }

  function Above(files: seq<File>, low: int): seq<File> {
    if files == [] then []
    else Above(files[..|files| - 1], low) + (if low < files[|files| - 1].version then [files[|files| - 1]] else [])
  }

  function Reported(files: seq<File>): (m: seq<Migration>)
    ensures |m| == |files|
  {
    seq(|files|, i requires 0 <= i < |files| => Migration(PaddedText(files[i].version), files[i].name))
  }

  lemma {:induction false} InAbove(files: seq<File>, low: int)
    ensures forall f :: f in Above(files, low) <==> f in files && low < f.version
  {
    if files != [] {
      InAbove(files[..|files| - 1], low);
      assert files == files[..|files| - 1] + [files[|files| - 1]];
    }
  }

  lemma {:induction false} AboveAscending(files: seq<File>, low: int)
    requires Ascending(files)
    ensures Ascending(Above(files, low))
  {
    if files != [] {
      var init := files[..|files| - 1];
      AboveAscending(init, low);
      InAbove(init, low);
      var a := Above(init, low);
      forall i | 0 <= i < |a| ensures a[i].version < files[|files| - 1].version {
        assert a[i] in init;
      }
    }
  }

  /** What is above `low` but not above `high` is what is missing among those above `high`. */
  lemma {:induction false} BetweenOfAbove(files: seq<File>, low: int, high: int)
    ensures Between(Above(files, low), low, high) == Between(files, low, high)
  {
    if files != [] {
      var init, f := files[..|files| - 1], files[|files| - 1];
      BetweenOfAbove(init, low, high);
      if low < f.version {
        assert Above(files, low)[..|Above(files, low)| - 1] == Above(init, low);
      } else {
        assert Above(files, low) == Above(init, low);
      }
    }
  }

  // ---- the applied set by difference ----

  function Versions(ms: seq<Migration>): set<string> { set m | m in ms :: m.version }

  /** `appliedMigrationDifference`: what vanished from the pending list, or an inconsistency. */
  function Difference(before: seq<Migration>, after: set<string>, current: int): Option<seq<Migration>> {
    if before == [] then Some([])
    else match Difference(before[..|before| - 1], after, current)
      case None => None
      case Some(applied) =>
        var m := before[|before| - 1];
        if m.version in after then Some(applied)
        else
          var version := ParseInt64(TrimSpace(m.version));
          if version.None? || version.value > current then None else Some(applied + [m])
  }

  method AppliedDifference(before: seq<Migration>, after: seq<Migration>, currentVersion: string) returns (applied: seq<Migration>, ok: bool)
    ensures ok <==> (ParseInt64(TrimSpace(currentVersion)).Some?
                     && Difference(before, Versions(after), ParseInt64(TrimSpace(currentVersion)).value).Some?)
    ensures ok ==> applied == Difference(before, Versions(after), ParseInt64(TrimSpace(currentVersion)).value).value
  {
    hide ParseInt64, TrimSpace;
    var current := ParseInt64(TrimSpace(currentVersion));
    if current.None? {
      return [], false;
    }
    var remaining: set<string> := {};
    for i := 0 to |after|
      invariant remaining == Versions(after[..i])
    {
      assert after[..i + 1] == after[..i] + [after[i]];
      remaining := remaining + {after[i].version};
    }
    assert after[..|after|] == after;
    applied := [];
    for i := 0 to |before|
      invariant Difference(before[..i], remaining, current.value) == Some(applied)
    {
      assert before[..i + 1][..i] == before[..i];
      if before[i].version !in remaining {
        var version := ParseInt64(TrimSpace(before[i].version));
        if version.None? || version.value > current.value {
          DifferenceFails(before, i + 1, remaining, current.value);
          return applied, false;
        }
        applied := applied + [before[i]];
      }
    }
    assert before[..|before|] == before;
    ok := true;
  }

  lemma {:induction false} DifferenceFails(before: seq<Migration>, n: nat, after: set<string>, current: int)
    requires n <= |before| && Difference(before[..n], after, current).None?
    ensures Difference(before, after, current).None?
    decreases |before|
  {
    if n == |before| {
      assert before[..n] == before;
    } else {
      assert before[..|before| - 1][..n] == before[..n];
      DifferenceFails(before[..|before| - 1], n, after, current);
    }
  }

  lemma VersionAbove(files: seq<File>, high: int, f: File)
    requires Ascending(files) && f in files
    ensures PaddedText(f.version) in Versions(Reported(Above(files, high))) <==> high < f.version
  {
    var a := Above(files, high);
    InAbove(files, high);
    var r := Reported(a);
    if high < f.version {
      var i :| 0 <= i < |a| && a[i] == f;
      assert r[i] in r;
    }
    if PaddedText(f.version) in Versions(r) {
      var m :| m in r && m.version == PaddedText(f.version);
      var i :| 0 <= i < |r| && r[i] == m;
      assert a[i] in files;
      var j :| 0 <= j < |files| && files[j] == a[i];
      var k :| 0 <= k < |files| && files[k] == f;
      VersionTextInjective(a[i].version, f.version);
    }
  }

  function One(f: File): Migration { Migration(PaddedText(f.version), f.name) }

  lemma ReportedSnoc(init: seq<File>, f: File)
    ensures Reported(init + [f]) == Reported(init) + [One(f)]
  {
  }

  lemma BetweenSnoc(init: seq<File>, f: File, low: int, high: int)
    ensures Between(init + [f], low, high) == Between(init, low, high) + (if low < f.version <= high then [f] else [])
  {
    assert (init + [f])[..|init|] == init;
  }

  lemma DifferenceSnoc(init: seq<Migration>, m: Migration, after: set<string>, current: int, applied: seq<Migration>)
    requires Difference(init, after, current) == Some(applied)
    requires m.version in after || (ParseInt64(TrimSpace(m.version)).Some? && ParseInt64(TrimSpace(m.version)).value <= current)
    ensures Difference(init + [m], after, current) == Some(if m.version in after then applied else applied + [m])
  {
    assert (init + [m])[..|init|] == init;
  }

  /** The difference of the pending lists before and after is exactly what lies between the two versions:
    the check for an inconsistency cannot fail on a consistent database. */
  lemma {:induction false} DifferenceIsBetween(files: seq<File>, part: seq<File>, low: int, high: int)
    requires Ascending(files) && low <= high && forall f | f in part :: f in files && low < f.version
    ensures Difference(Reported(part), Versions(Reported(Above(files, high))), high) == Some(Reported(Between(part, low, high)))
  {
    hide *;
    if part == [] {
      NoDifference(Versions(Reported(Above(files, high))), low, high);
    } else {
      var init, f := part[..|part| - 1], part[|part| - 1];
      assert part == init + [f] && f in part && forall g | g in init :: g in part;
      var after, between := Versions(Reported(Above(files, high))), Between(init, low, high);
      FileVersion(files, f);
      DifferenceIsBetween(files, init, low, high);
      VersionAbove(files, high, f);
      VersionRead(f.version);
      OneVersion(f);
      DifferenceSnoc(Reported(init), One(f), after, high, Reported(between));
      ReportedSnoc(init, f);
      ReportedSnoc(between, f);
      BetweenSnoc(init, f, low, high);
      assert between + [] == between;
    }
  }

  lemma NoDifference(after: set<string>, low: int, high: int)
    ensures Difference(Reported([]), after, high) == Some(Reported(Between([], low, high)))
  {
  }

  lemma FileVersion(files: seq<File>, f: File)
    requires Ascending(files) && f in files
    ensures f.version < INT64_LIMIT
  {
  }

  lemma OneVersion(f: File)
    ensures One(f).version == PaddedText(f.version)
  {
  }

  lemma AppliedIsBetween(files: seq<File>, low: int, high: int)
    requires Ascending(files) && low <= high
    ensures Difference(Reported(Above(files, low)), Versions(Reported(Above(files, high))), high) == Some(Reported(Between(files, low, high)))
  {
    InAbove(files, low);
    DifferenceIsBetween(files, Above(files, low), low, high);
    BetweenOfAbove(files, low, high);
  }

  // ---- what Apply selects ----

  function Selected(pending: seq<Migration>, target: int): Option<seq<Migration>> {
    if pending == [] then Some([])
    else match Selected(pending[..|pending| - 1], target)
      case None => None
      case Some(selected) =>
        var m := pending[|pending| - 1];
        var version := ParseInt64(m.version);
        if version.None? then None else if version.value <= target then Some(selected + [m]) else Some(selected)
  }

  predicate TargetExists(pending: seq<Migration>, target: int) { exists m | m in pending :: ParseInt64(m.version) == Some(target) }

  method SelectUpTo(pending: seq<Migration>, target: int) returns (selected: Option<seq<Migration>>, exists_: bool)
    ensures selected == Selected(pending, target)
    ensures selected.Some? ==> (exists_ <==> TargetExists(pending, target))
  {
    hide ParseInt64, Selected, TargetExists;
    var list: seq<Migration> := [];
    exists_ := false;
    NoneSelected(target);
    assert pending[..0] == [];
    for i := 0 to |pending|
      invariant Selected(pending[..i], target) == Some(list)
      invariant exists_ <==> TargetExists(pending[..i], target)
    {
      assert pending[..i + 1] == pending[..i] + [pending[i]];
      var version := ParseInt64(pending[i].version);
      if version.None? {
        UnreadableFails(pending, i, target);
        return None, exists_;
      }
      SelectedSnoc(pending[..i], pending[i], target, list);
      if version.value <= target {
        list := list + [pending[i]];
      }
      if version.value == target {
        exists_ := true;
      }
    }
    assert pending[..|pending|] == pending;
    selected := Some(list);
  }

  lemma NoneSelected(target: int)
    ensures Selected([], target) == Some([]) && !TargetExists([], target)
  {
  }

  lemma UnreadableFails(pending: seq<Migration>, i: nat, target: int)
    requires i < |pending| && ParseInt64(pending[i].version).None?
    ensures Selected(pending, target).None?
  {
    hide ParseInt64;
    assert pending[..i + 1][..i] == pending[..i];
    SelectedFails(pending, i + 1, target);
  }

  lemma {:induction false} SelectedFails(pending: seq<Migration>, n: nat, target: int)
    requires n <= |pending| && Selected(pending[..n], target).None?
    ensures Selected(pending, target).None?
    decreases |pending|
  {
    if n == |pending| {
      assert pending[..n] == pending;
    } else {
      assert pending[..|pending| - 1][..n] == pending[..n];
      SelectedFails(pending[..|pending| - 1], n, target);
    }
  }

  lemma SelectedSnoc(init: seq<Migration>, m: Migration, target: int, selected: seq<Migration>)
    requires Selected(init, target) == Some(selected) && ParseInt64(m.version).Some?
    ensures Selected(init + [m], target) == Some(if ParseInt64(m.version).value <= target then selected + [m] else selected)
    ensures TargetExists(init + [m], target) <==> TargetExists(init, target) || ParseInt64(m.version).value == target
  {
    hide ParseInt64;
    assert (init + [m])[..|init|] == init;
  }

  lemma AscendingInit(part: seq<File>)
    requires Ascending(part) && part != []
    ensures Ascending(part[..|part| - 1]) && part[|part| - 1].version < INT64_LIMIT
  {
  }

  lemma NothingSelected(low: int, target: int)
    ensures Selected(Reported([]), target) == Some(Reported(Between([], low, target)))
  {
  }

  /** Selection by version and difference of pending lists name the same migrations. */
  lemma {:induction false} SelectedIsBetween(part: seq<File>, low: int, target: int)
    requires Ascending(part) && forall f | f in part :: low < f.version
    ensures Selected(Reported(part), target) == Some(Reported(Between(part, low, target)))
  {
    hide *;
    if part == [] {
      NothingSelected(low, target);
    } else {
      var init, f := part[..|part| - 1], part[|part| - 1];
      assert part == init + [f] && f in part && forall g | g in init :: g in part;
      AscendingInit(part);
      var between := Between(init, low, target);
      SelectedIsBetween(init, low, target);
      VersionRead(f.version);
      OneVersion(f);
      SelectedSnoc(Reported(init), One(f), target, Reported(between));
      ReportedSnoc(init, f);
      ReportedSnoc(between, f);
      BetweenSnoc(init, f, low, target);
      assert between + [] == between;
    }
  }

  lemma TargetIsFile(part: seq<File>, target: int)
    requires Ascending(part)
    ensures TargetExists(Reported(part), target) <==> exists f | f in part :: f.version == target
  {
    hide PaddedText, ParseInt64;
    var r := Reported(part);
    forall i | 0 <= i < |part| ensures ParseInt64(r[i].version) == Some(part[i].version as int) {
      VersionRead(part[i].version);
    }
    if f :| f in part && f.version == target {
      var i :| 0 <= i < |part| && part[i] == f;
      assert r[i] in r;
    }
    if m :| m in r && ParseInt64(m.version) == Some(target) {
      var i :| 0 <= i < |part| && r[i] == m;
      assert part[i] in part;
    }
  }
}
