/** The process-local login budget of the user service: a fixed-window limiter. */
module LoginBudget {

  /** Clock readings in nanoseconds since Go's zero time. */
  const MINUTE := 60_000_000_000
  const LIMIT := 60

  datatype State = State(window: int, count: int)

  /** A budget no call has been made on: the window is the zero time. */
  const FRESH := State(0, 0)

  predicate Opens(s: State, now: int) { now - s.window >= MINUTE }

  function Current(s: State, now: int): State {
    if Opens(s, now) then State(now, 0) else s
  }

  predicate Admits(s: State, now: int) { Current(s, now).count < LIMIT }

  function Next(s: State, now: int): State {
    var c := Current(s, now);
    if Admits(s, now) then c.(count := c.count + 1) else c
  }

  class Budget {
    var window: int
    var count: int

    ghost function Abstract(): State
      reads this
    {
      State(window, count)
    }

    constructor ()
      ensures Abstract() == FRESH
    {
      window, count := 0, 0;
    }

    /** `allow`, with the clock reading as a parameter; the mutex makes calls atomic. */
    method Allow(now: int) returns (admitted: bool)
      modifies this
      ensures admitted == Admits(old(Abstract()), now)
      ensures Abstract() == Next(old(Abstract()), now)
    {
      if now - window >= MINUTE {
        window := now;
        count := 0;
      }
      if count >= 60 {
        return false;
      }
      count := count + 1;
      return true;
    }
  }

  // ---- traces of calls ----

  /** A non-decreasing clock, read no earlier than `from`. */
  predicate Clock(times: seq<int>, from: int) {
    && (forall i | 0 <= i < |times| :: from <= times[i])
    && (forall i, j | 0 <= i < j < |times| :: times[i] <= times[j])
  }

  /** How many calls are admitted at a time in `[lo, hi)`. */
  function Admitted(s: State, times: seq<int>, lo: int, hi: int): nat
    decreases |times|
  {
    if times == [] then 0
    else (if Admits(s, times[0]) && lo <= times[0] < hi then 1 else 0)
         + Admitted(Next(s, times[0]), times[1..], lo, hi)
  }

  function After(s: State, times: seq<int>): State
    decreases |times|
  {
    if times == [] then s else After(Next(s, times[0]), times[1..])
  }

  /** How many calls of the trace are admitted while the window of `s` lasts. */
  function AdmittedInWindow(s: State, times: seq<int>): nat
    decreases |times|
  {
    if times == [] || Opens(s, times[0]) then 0
    else (if Admits(s, times[0]) then 1 else 0) + AdmittedInWindow(Next(s, times[0]), times[1..])
  }

  lemma {:induction false} NothingLate(s: State, times: seq<int>, lo: int, hi: int)
    requires Clock(times, hi)
    ensures Admitted(s, times, lo, hi) == 0
    decreases |times|
  {
    if times != [] { NothingLate(Next(s, times[0]), times[1..], lo, hi); }
  }

  /** A window opened inside the interval admits the rest of its budget, and no later window reaches in. */
  lemma {:induction false} WindowInside(s: State, times: seq<int>, lo: int)
    requires lo <= s.window && 0 <= s.count <= LIMIT && Clock(times, s.window)
    ensures Admitted(s, times, lo, lo + MINUTE) <= LIMIT - s.count
    decreases |times|
  {
    if times != [] {
      if Opens(s, times[0]) {
        assert forall i | 0 <= i < |times| :: times[0] <= times[i];
        NothingLate(s, times, lo, lo + MINUTE);
      } else {
        WindowInside(Next(s, times[0]), times[1..], lo);
      }
    }
  }

  /** From `lo` on, an older window may still spend what is left of it, then one new window its budget. */
  lemma {:induction false} WindowBefore(s: State, times: seq<int>, lo: int)
    requires s.window < lo && 0 <= s.count <= LIMIT && Clock(times, lo)
    ensures Admitted(s, times, lo, lo + MINUTE) <= LIMIT - s.count + LIMIT
    decreases |times|
  {
    if times != [] {
      if Opens(s, times[0]) {
        WindowInside(Next(s, times[0]), times[1..], lo);
      } else {
        WindowBefore(Next(s, times[0]), times[1..], lo);
      }
    }
  }

  /** Any interval of one minute, seen from a state some call has left behind. */
  lemma {:induction false} IntervalFrom(s: State, times: seq<int>, lo: int)
    requires 1 <= s.count <= LIMIT && Clock(times, s.window)
    ensures Admitted(s, times, lo, lo + MINUTE) <= 2 * LIMIT - 1
    decreases |times|
  {
    if times == [] {
    } else if lo <= s.window {
      WindowInside(s, times, lo);
    } else if lo <= times[0] {
      assert Clock(times, lo);
      WindowBefore(s, times, lo);
    } else {
      IntervalFrom(Next(s, times[0]), times[1..], lo);
    }
  }

  /** For every trace of a fresh budget, every half-open minute admits at most 119 calls. */
  lemma IntervalBound(times: seq<int>, lo: int)
    requires Clock(times, 60_000_000_000)
    ensures Admitted(FRESH, times, lo, lo + 60_000_000_000) <= 119
  {
    if times != [] {
      var s := Next(FRESH, times[0]);
      assert s == State(times[0], 1);
      if lo <= times[0] {
        WindowInside(s, times[1..], lo);
      } else {
        IntervalFrom(s, times[1..], lo);
      }
    }
  }

  /** Every reachable state has spent at most the limit, in a window that is no older than the trace. */
  lemma {:induction false} ReachableState(s: State, times: seq<int>)
    requires 0 <= s.count <= LIMIT && Clock(times, s.window)
    ensures 0 <= After(s, times).count <= LIMIT && s.window <= After(s, times).window
    decreases |times|
  {
    if times != [] { ReachableState(Next(s, times[0]), times[1..]); }
  }

  /** While one window lasts, no more is admitted than it has left. */
  lemma {:induction false} WindowBound(s: State, times: seq<int>)
    requires 0 <= s.count <= LIMIT
    ensures AdmittedInWindow(s, times) <= LIMIT - s.count
    decreases |times|
  {
    if times != [] && !Opens(s, times[0]) { WindowBound(Next(s, times[0]), times[1..]); }
  }

  /** What the window left behind has counted was admitted since it opened. */
  lemma {:induction false} CountedSince(s: State, times: seq<int>, lo: int, hi: int)
    requires 0 <= s.count <= LIMIT && Clock(times, s.window) && lo <= After(s, times).window
    requires forall i | 0 <= i < |times| :: times[i] < hi
    ensures Admitted(s, times, lo, hi) + (if Windows(s, times) == [] then s.count else 0) >= After(s, times).count
    decreases |times|
  {
    if times != [] {
      var n, rest := Next(s, times[0]), times[1..];
      ReachableState(n, rest);
      WindowsApart(n, rest);
      CountedSince(n, rest, lo, hi);
      CountedStep(s, times, lo, hi);
      hide *;
    }
  }

  lemma CountedStep(s: State, times: seq<int>, lo: int, hi: int)
    requires times != [] && 0 <= s.count <= LIMIT && Clock(times, s.window) && times[0] < hi
    requires var n, rest := Next(s, times[0]), times[1..];
             && lo <= After(n, rest).window && (Windows(n, rest) == [] ==> After(n, rest).window == n.window)
             && Admitted(n, rest, lo, hi) + (if Windows(n, rest) == [] then n.count else 0) >= After(n, rest).count
    ensures Admitted(s, times, lo, hi) + (if Windows(s, times) == [] then s.count else 0) >= After(s, times).count
  {
  }

  /** Nobody is refused early: before a refused call 60 calls were admitted within less than a minute. */
  lemma RefusedAfterSixty(times: seq<int>, now: int)
    requires Clock(times + [now], 60_000_000_000) && !Admits(After(FRESH, times), now)
    ensures Admitted(FRESH, times, now - 59_999_999_999, now + 1) >= 60
  {
    var all := times + [now];
    assert forall i | 0 <= i < |times| :: all[i] == times[i] && all[|times|] == now;
    ReachableState(FRESH, times);
    CountedSince(FRESH, times, now - 59_999_999_999, now + 1);
  }

  /** The windows a trace opens, in order. */
  function Windows(s: State, times: seq<int>): seq<int>
    decreases |times|
  {
    if times == [] then []
    else (if Opens(s, times[0]) then [times[0]] else []) + Windows(Next(s, times[0]), times[1..])
  }

  /** In any trace consecutive windows start at least a minute apart, the first one a minute after the window of the
    state, and the last one is the window left behind. */
  lemma {:induction false} WindowsApart(s: State, times: seq<int>)
    ensures var w := Windows(s, times);
            && (forall i | 0 <= i < |w| - 1 :: w[i + 1] - w[i] >= MINUTE)
            && (w != [] ==> w[0] - s.window >= MINUTE)
            && After(s, times).window == if w == [] then s.window else w[|w| - 1]
    decreases |times|
  {
    if times != [] { WindowsApart(Next(s, times[0]), times[1..]); }
  }

  // ---- the bound is attained ----

  function Burst(t: int, n: nat): seq<int> { seq(n, _ => t) }

  lemma {:induction false} BurstAdmitted(s: State, t: int, n: nat, rest: seq<int>, lo: int)
    requires !Opens(s, t) && 0 <= s.count && s.count + n <= LIMIT && lo <= t < lo + MINUTE
    ensures Admitted(s, Burst(t, n) + rest, lo, lo + MINUTE)
            == n + Admitted(s.(count := s.count + n), rest, lo, lo + MINUTE)
    decreases n
  {
    if n == 0 {
      assert Burst(t, 0) + rest == rest;
    } else {
      assert (Burst(t, n) + rest)[0] == t && (Burst(t, n) + rest)[1..] == Burst(t, n - 1) + rest;
      BurstAdmitted(s.(count := s.count + 1), t, n - 1, rest, lo);
    }
  }

  /** One call opens a window, 59 more arrive at its end, and 60 right after it. */
  function Worst(): seq<int> {
    [MINUTE] + (Burst(2 * MINUTE - 1, 59) + ([2 * MINUTE] + (Burst(2 * MINUTE, 59) + [])))
  }

  lemma WorstIsClock()
    ensures Clock(Worst(), MINUTE)
  {
  }

  lemma BoundAttained()
    ensures Clock(Worst(), 60_000_000_000)
    ensures Admitted(FRESH, Worst(), 119_999_999_999, 179_999_999_999) == 119
  {
    var lo := 2 * MINUTE - 1;
    var late := [2 * MINUTE] + (Burst(2 * MINUTE, 59) + []);
    WorstIsClock();
    hide Burst;
    assert Worst()[1..] == Burst(lo, 59) + late;
    assert late[1..] == Burst(2 * MINUTE, 59) + [];
    BurstAdmitted(State(MINUTE, 1), lo, 59, late, lo);
    BurstAdmitted(State(2 * MINUTE, 1), 2 * MINUTE, 59, [], lo);
  }
}
