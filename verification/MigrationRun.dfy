/** `Service.Check` over an executor and a locker that may fail at any call. */
module MigrationRun {
  import opened Json
  import opened Decimal
  import opened Identity
  import opened Migration

  /** The goose operations on one database. `faults` says which call fails; all patterns are possible. */
  class Executor {
    const files: seq<File>
    const faults: nat -> bool
    var clock: nat
    var current: nat

    ghost predicate Valid()
      reads this
    {
      Ascending(files) && current < INT64_LIMIT
    }

    constructor (files: seq<File>, faults: nat -> bool, current: nat)
      requires Ascending(files) && current < INT64_LIMIT
      ensures Valid() && this.files == files && this.current == current
    {
      this.files, this.faults, this.current := files, faults, current;
      clock := 0;
    }

    method Fault() returns (fault: bool)
      modifies this`clock
    {
      fault := faults(clock);
      clock := clock + 1;
    }

    method CurrentVersion() returns (version: Option<string>)
      modifies this`clock
      ensures version.Some? ==> version.value == IntText(current)
    {
      var fault := Fault();
      return if fault then None else Some(IntText(current));
    }

    method Pending() returns (pending: Option<seq<Migration>>)
      modifies this`clock
      ensures pending.Some? ==> pending.value == Reported(Above(files, current))
    {
      var version := Fault();
      if version {
        return None;
      }
      var collect := Fault();
      return if collect then None else Some(Reported(Above(files, current)));
    }

    /** Applies the files one by one; a failure leaves the earlier ones applied, possibly all of them. */
    method Up(selected: seq<File>) returns (ok: bool)
      requires Valid() && Ascending(selected) && (forall f | f in selected :: current < f.version)
      modifies this
      ensures Valid() && current >= old(current)
      ensures ok && selected != [] ==> current == selected[|selected| - 1].version
      ensures ok && selected == [] ==> current == old(current)
    {
      for i := 0 to |selected|
        invariant Valid() && current == if i == 0 then old(current) else selected[i - 1].version
      {
        assert selected[i] in selected;
        var fault := Fault();
        if fault {
          assert i > 0 ==> selected[i - 1] in selected;
          return false;
        }
        current := selected[i].version;
      }
      assert selected != [] ==> selected[|selected| - 1] in selected;
      var fault := Fault();
      ok := !fault;
    }

    /** `GooseExecutor.Apply`; it runs only while the migration lock is held. */
    method Apply(targetVersion: string, ghost lock: Locker) returns (applied: Option<seq<Migration>>)
      requires Valid() && lock.held
      modifies this
      ensures Valid() && current >= old(current)
      ensures applied.Some? ==> applied.value == Reported(Between(files, old(current), current))
      ensures applied.Some? ==> if Blank(targetVersion) then Above(files, current) == [] else ParseTarget(targetVersion) == Some(current as int)
    {
      hide ParseTarget, Blank, Reported, PaddedText, ParseInt64;
      var pending := Pending();
      if pending.None? {
        return None;
      }
      AboveAscending(files, current);
      InAbove(files, current);
      var todo := Above(files, current);
      if Blank(targetVersion) {
        if todo == [] {
          NothingAbove(files, current);
          return Some(Reported([]));
        }
        var ok := Up(todo);
        if !ok {
          return None;
        }
        LastIsLatest(files, old(current));
        return pending;
      }
      var currentText := CurrentVersion();
      if currentText.None? {
        return None;
      }
      VersionRead(current);
      var version := ParseInt64(currentText.value);
      if version.None? {
        return None;
      }
      var target := ParseTarget(targetVersion);
      if target.None? || target.value < version.value {
        return None;
      }
      if target.value == version.value {
        NothingBetween(files, current);
        return Some(Reported([]));
      }
      var selected, found := SelectUpTo(pending.value, target.value);
      SelectedIsBetween(todo, current, target.value);
      TargetIsFile(todo, target.value);
      if selected.None? || !found {
        return None;
      }
      BetweenOfAbove(files, current, target.value);
      BetweenEndsAt(files, current, target.value);
      var ok := Up(Between(files, current, target.value));
      if !ok {
        return None;
      }
      return selected;
    }
  }

  lemma {:induction false} InBetween(files: seq<File>, low: int, high: int)
    ensures forall f :: f in Between(files, low, high) <==> f in files && low < f.version <= high
  {
    if files != [] {
      InBetween(files[..|files| - 1], low, high);
      assert files == files[..|files| - 1] + [files[|files| - 1]];
    }
  }

  lemma FirstIn(files: seq<File>)
    ensures files == [] || files[0] in files
  {
  }

  lemma NothingBetween(files: seq<File>, at: int)
    ensures Between(files, at, at) == []
  {
    InBetween(files, at, at);
    FirstIn(Between(files, at, at));
  }

  lemma NothingAbove(files: seq<File>, at: int)
    requires Above(files, at) == []
    ensures Between(files, at, at) == []
  {
    NothingBetween(files, at);
  }

  lemma {:induction false} BetweenAscending(files: seq<File>, low: int, high: int)
    requires Ascending(files)
    ensures Ascending(Between(files, low, high))
  {
    if files != [] {
      var init, last := files[..|files| - 1], files[|files| - 1];
      assert files == init + [last];
      BetweenAscending(init, low, high);
      InBetween(init, low, high);
      LastGreatest(files);
      BetweenSnoc(init, last, low, high);
      hide Between;
      AscendingSnoc(Between(init, low, high), last);
    }
  }

  lemma LastGreatest(files: seq<File>)
    requires Ascending(files) && files != []
    ensures Ascending(files[..|files| - 1]) && 0 < files[|files| - 1].version < INT64_LIMIT
    ensures forall f | f in files[..|files| - 1] :: f.version < files[|files| - 1].version
  {
  }

  lemma AscendingSnoc(files: seq<File>, f: File)
    requires Ascending(files) && 0 < f.version < INT64_LIMIT && forall g | g in files :: g.version < f.version
    ensures Ascending(files + [f]) && Ascending(files + [])
  {
    assert files + [] == files;
  }

  /** When the target is a file above the current version, the selection ends with it. */
  lemma BetweenEndsAt(files: seq<File>, low: int, target: int)
    requires Ascending(files) && exists f | f in Above(files, low) :: f.version == target
    ensures var s := Between(files, low, target);
            Ascending(s) && s != [] && s[|s| - 1].version == target && forall f | f in s :: low < f.version
  {
    var s := Between(files, low, target);
    InAbove(files, low);
    InBetween(files, low, target);
    BetweenAscending(files, low, target);
    var f :| f in Above(files, low) && f.version == target;
    assert f in s;
    var i :| 0 <= i < |s| && s[i] == f;
    assert s[|s| - 1] in s;
  }

  /** After everything pending was applied, nothing is above, and all of it lies between. */
  lemma LastIsLatest(files: seq<File>, low: int)
    requires Ascending(files) && Above(files, low) != []
    ensures var last := Above(files, low)[|Above(files, low)| - 1].version;
            Above(files, last) == [] && Between(files, low, last) == Above(files, low)
  {
    var todo := Above(files, low);
    var last := todo[|todo| - 1].version;
    AboveAscending(files, low);
    InAbove(files, low);
    InAbove(files, last);
    assert todo[|todo| - 1] in todo;
    forall f | f in todo ensures f.version <= last {
      var i :| 0 <= i < |todo| && todo[i] == f;
    }
    FirstIn(Above(files, last));
    AllBetween(todo, low, last);
    BetweenOfAbove(files, low, last);
  }

  lemma {:induction false} AllBetween(part: seq<File>, low: int, high: int)
    requires forall f | f in part :: low < f.version <= high
    ensures Between(part, low, high) == part
  {
    if part != [] {
      assert part == part[..|part| - 1] + [part[|part| - 1]];
      AllBetween(part[..|part| - 1], low, high);
    }
  }

  predicate NothingLater(files: seq<File>, at: int) { forall f | f in files :: f.version <= at }

  /** Where a run should leave the database: on the target, or without a target behind every file. */
  predicate Landed(files: seq<File>, current: nat, targetVersion: string) {
    if Blank(targetVersion) then NothingLater(files, current) else ParseTarget(targetVersion) == Some(current as int)
  }

  lemma NothingAboveIff(files: seq<File>, at: int)
    ensures Reported(Above(files, at)) == [] <==> NothingLater(files, at)
  {
    InAbove(files, at);
    FirstIn(Above(files, at));
  }

  /** The lock as the service sees it: how often it was taken and given back. */
  class Locker {
    const faults: nat -> bool
    var clock: nat
    var held: bool
    var locks: nat
    var unlocks: nat

    constructor (faults: nat -> bool)
      ensures !held && locks == unlocks == 0
    {
      this.faults := faults;
      clock, held, locks, unlocks := 0, false, 0, 0;
    }

    method Lock() returns (ok: bool)
      requires !held
      modifies this
      ensures held == ok && locks == old(locks) + (if ok then 1 else 0) && unlocks == old(unlocks)
    {
      ok := !faults(clock);
      clock := clock + 1;
      if ok {
        held, locks := true, locks + 1;
      }
    }

    /** Giving the lock back may report an error; the service does not hold it afterwards either way. */
    method Unlock() returns (ok: bool)
      requires held
      modifies this
      ensures !held && locks == old(locks) && unlocks == old(unlocks) + 1
    {
      ok := !faults(clock);
      clock := clock + 1;
      held, unlocks := false, unlocks + 1;
    }
  }

  datatype Options = Options(autoApply: bool, targetVersion: string)

  datatype Report = Report(currentVersion: string, pending: seq<Migration>, applied: seq<Migration>, remaining: seq<Migration>)

  const EMPTY := Report("", [], [], [])

  class Service {
    const executor: Executor
    const locker: Locker

    constructor (executor: Executor, locker: Locker)
      ensures this.executor == executor && this.locker == locker
    {
      this.executor, this.locker := executor, locker;
    }

    method ReadState() returns (ok: bool, version: string, pending: seq<Migration>)
      requires executor.Valid()
      modifies executor`clock
      ensures executor.Valid()
      ensures ok ==> version == IntText(executor.current) && pending == Reported(Above(executor.files, executor.current))
    {
      var v := executor.CurrentVersion();
      if v.None? {
        return false, "", [];
      }
      var p := executor.Pending();
      if p.None? {
        return false, "", [];
      }
      return true, v.value, p.value;
    }

    method ValidateAppliedState(targetVersion: string, currentVersion: string, remaining: seq<Migration>) returns (ok: bool)
      ensures ok <==> if Blank(targetVersion) then remaining == []
                      else ParseTarget(targetVersion).Some? && ParseInt64(TrimSpace(currentVersion)) == ParseTarget(targetVersion)
      // On what a database reports, it says whether the database landed where it should.
      ensures forall files: seq<File>, v: nat | v < INT64_LIMIT && currentVersion == IntText(v) && remaining == Reported(Above(files, v)) ::
                ok <==> Landed(files, v, targetVersion)
    {
      forall files: seq<File>, v: nat | v < INT64_LIMIT && currentVersion == IntText(v) && remaining == Reported(Above(files, v))
        ensures ParseInt64(TrimSpace(currentVersion)) == Some(v as int)
        ensures remaining == [] <==> NothingLater(files, v)
      {
        VersionRead(v);
        NothingAboveIff(files, v);
      }
      hide ParseTarget, Blank, ParseInt64, TrimSpace, IntText, Reported, Above, NothingLater;
      if Blank(targetVersion) {
        return remaining == [];
      }
      var target := ParseTarget(targetVersion);
      if target.None? {
        return false;
      }
      var current := ParseInt64(TrimSpace(currentVersion));
      if current.None? {
        return false;
      }
      return current.value == target.value;
    }

    /** One run. Whatever fails, the lock is given back exactly once after it was taken, and never otherwise. */
    method Check(options: Options) returns (report: Report, ok: bool)
      requires executor.Valid() && !locker.held
      modifies executor, locker
      ensures executor.Valid() && executor.current >= old(executor.current)
      ensures !locker.held && locker.locks - old(locker.locks) == locker.unlocks - old(locker.unlocks)
      ensures locker.locks - old(locker.locks) == if options.autoApply && locker.locks != old(locker.locks) then 1 else 0
      ensures !options.autoApply || locker.locks == old(locker.locks) ==> executor.current == old(executor.current)
      ensures ok && options.autoApply ==> locker.locks == old(locker.locks) + 1
      // A successful run reports the state it leaves behind.
      ensures ok ==> report.currentVersion == IntText(executor.current)
      ensures ok ==> report.remaining == Reported(Above(executor.files, executor.current))
      ensures ok ==> report.pending == Reported(Above(executor.files, old(executor.current)))
      // It applied exactly what lies between the two versions; so does a failed run, as far as it reports anything.
      ensures ok ==> report.applied == Reported(Between(executor.files, old(executor.current), executor.current))
      ensures report.applied == [] || report.applied == Reported(Between(executor.files, old(executor.current), executor.current))
      // It lands on the target, or leaves nothing to do.
      ensures ok && options.autoApply ==>
                if Blank(options.targetVersion) then report.remaining == [] else ParseTarget(options.targetVersion) == Some(executor.current as int)
      ensures ok && options.autoApply ==> Landed(executor.files, executor.current, options.targetVersion)
    {
      NothingAboveIff(executor.files, executor.current);
      hide NothingLater, Blank, ParseTarget, ParseInt64, TrimSpace, Reported, Above, Between, IntText, Difference, Versions;
      ghost var files, low := executor.files, executor.current;
      NothingBetween(files, low);
      NothingReported();
      if !options.autoApply {
        var readOk, version, pending := ReadState();
        if !readOk {
          return EMPTY, false;
        }
        return Report(version, pending, [], pending), true;
      }
      var locked := locker.Lock();
      if !locked {
        return EMPTY, false;
      }
      var beforeOk, beforeVersion, beforePending := ReadState();
      if !beforeOk {
        var unlocked := locker.Unlock();
        return EMPTY, false;
      }
      report := Report(beforeVersion, beforePending, [], beforePending);
      if beforePending == [] && Blank(options.targetVersion) {
        ok := locker.Unlock();
        return;
      }
      var apply := executor.Apply(options.targetVersion, locker);
      var afterOk, afterVersion, afterPending := ReadState();
      var deriveOk, validOk := true, true;
      if afterOk {
        report := report.(currentVersion := afterVersion, remaining := afterPending);
        var applied;
        applied, deriveOk := AppliedDifference(beforePending, afterPending, afterVersion);
        AppliedIsBetween(files, low, executor.current);
        VersionRead(executor.current);
        report := report.(applied := applied);
        NothingAboveIff(files, executor.current);
      }
      if apply.Some? && afterOk {
        validOk := ValidateAppliedState(options.targetVersion, afterVersion, afterPending);
      }
      var unlockOk := locker.Unlock();
      ok := apply.Some? && afterOk && deriveOk && validOk && unlockOk;
    }
  }

  lemma NothingReported()
    ensures Reported([]) == []
  {
  }
}
