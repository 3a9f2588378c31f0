/** The PostgreSQL advisory locker: what becomes of every connection it opens. */
module AdvisoryLocker {
  import opened Json

  /** Where `database/sql` has a pinned connection: in use, done and dropped, or done and back in the pool. */
  datatype Pin = Live | Dropped | Returned

  /** `mayHold` says that the session may still hold the advisory lock. */
  datatype Connection = Connection(mayHold: bool, pin: Pin)

  datatype Call = Lock | Unlock | Close

  /** What a statement reports. A connection the driver calls bad is dropped at once by `database/sql`. */
  datatype Reply = Done | Failed | BadConnection

  predicate BackInPool(c: Connection) { c.pin == Returned }

  /** `Raw` with a function that answers `ErrBadConn`: a live connection is dropped, on a done one nothing happens. */
  function Discarded(c: Connection): Connection { if c.pin == Live then c.(pin := Dropped) else c }

  /** Closing a live connection gives it back to the pool, a done one stays what it is. */
  function Closed(c: Connection): Connection { if c.pin == Live then c.(pin := Returned) else c }

  /** Everything the locker ever opened, and which connection it owns now. */
  datatype State = State(conns: seq<Connection>, owned: Option<nat>)

  /** The owned connection is live and holds the lock. Every other one is done, and dropped when its session may hold the lock. */
  ghost predicate Safe(s: State) {
    && (s.owned.Some? ==> s.owned.value < |s.conns|)
    && forall i | 0 <= i < |s.conns| ::
         if s.owned == Some(i) then s.conns[i] == Connection(true, Live)
         else s.conns[i].pin != Live && (s.conns[i].mayHold ==> s.conns[i].pin == Dropped)
  }

  /** After a release that left `held` behind, closing alone keeps the pool safe exactly when the session gave the
    lock back; discarding first always does. */
  lemma CloseKeepsSafe(conns: seq<Connection>, i: nat, held: bool)
    requires Safe(State(conns, Some(i)))
    ensures var c := conns[i].(mayHold := held); Safe(State(conns[i := Closed(c)], None)) <==> !held
    ensures var c := conns[i].(mayHold := held); Safe(State(conns[i := Closed(Discarded(c))], None))
  {
    var closed := State(conns[i := Closed(conns[i].(mayHold := held))], None);
    assert closed.conns[i] == Connection(held, Returned);
  }

  /** `replies` is what the statements report, `faults` which other calls fail, `answers` what the server says to
    a release. */
  class Locker {
    const replies: nat -> Reply
    const faults: nat -> bool
    const answers: nat -> bool
    var clock: nat
    var conns: seq<Connection>
    var owned: Option<nat>

    ghost function Current(): State
      reads this
    {
      State(conns, owned)
    }

    constructor (replies: nat -> Reply, faults: nat -> bool, answers: nat -> bool)
      ensures Safe(Current()) && Current() == State([], None)
    {
      this.replies, this.faults, this.answers := replies, faults, answers;
      clock, conns, owned := 0, [], None;
    }

    method Fault() returns (fault: bool)
      modifies this`clock
    {
      fault := faults(clock);
      clock := clock + 1;
    }

    /** `ExecContext` or `QueryRowContext`: fails on a done connection, and a bad connection is dropped. */
    method Statement(i: nat) returns (ok: bool)
      requires i < |conns|
      modifies this`clock, this`conns
      ensures conns == old(conns) || conns == old(conns)[i := Discarded(old(conns)[i])]
      ensures ok ==> conns == old(conns) && conns[i].pin == Live
    {
      if conns[i].pin != Live {
        return false;
      }
      var reply := replies(clock);
      clock := clock + 1;
      if reply.BadConnection? {
        conns := conns[i := conns[i].(pin := Dropped)];
      }
      ok := reply.Done?;
    }

    /** `Discard`: it fails exactly on a connection that is already done. */
    method Discard(i: nat) returns (ok: bool)
      requires i < |conns|
      modifies this`conns
      ensures conns == old(conns)[i := Discarded(old(conns)[i])]
      ensures ok <==> old(conns)[i].pin == Live
    {
      if conns[i].pin != Live {
        return false;
      }
      conns := conns[i := conns[i].(pin := Dropped)];
      ok := true;
    }

    /** `Close` of the connection: what it reports is open, what it does is not. */
    method CloseConnection(i: nat) returns (ok: bool)
      requires i < |conns|
      modifies this`clock, this`conns
      ensures conns == old(conns)[i := Closed(old(conns)[i])]
    {
      var fault := Fault();
      if conns[i].pin == Live {
        conns := conns[i := conns[i].(pin := Returned)];
      }
      ok := !fault;
    }

    /** `discardAndCloseAdvisoryConnection`: a failing discard does not keep it from closing. */
    method DiscardAndClose(i: nat) returns (ok: bool)
      requires i < |conns|
      modifies this`clock, this`conns
      ensures conns == old(conns)[i := Discarded(old(conns)[i])]
      ensures ok ==> old(conns)[i].pin == Live
    {
      var discarded := Discard(i);
      var closed := CloseConnection(i);
      ok := discarded && closed;
    }

    method TakeLock() returns (ok: bool)
      requires Safe(Current())
      modifies this
      ensures Safe(Current())
      ensures ok ==> old(owned).None? && owned == Some(|old(conns)|) && conns == old(conns) + [Connection(true, Live)]
      ensures !ok ==> owned == old(owned) && (conns == old(conns) || conns == old(conns) + [Connection(true, Dropped)])
      ensures old(owned).Some? ==> !ok && Current() == old(Current())
    {
      if owned.Some? {
        return false;
      }
      var connectFailed := Fault();
      if connectFailed {
        return false;
      }
      // From here on the statement may have reached the server, whatever it reports.
      conns := conns + [Connection(true, Live)];
      var taken := Statement(|conns| - 1);
      if !taken {
        var cleaned := DiscardAndClose(|conns| - 1);
        return false;
      }
      owned := Some(|conns| - 1);
      return true;
    }

    method Release() returns (ok: bool)
      requires Safe(Current())
      modifies this
      ensures Safe(Current()) && owned.None? && |conns| == |old(conns)|
      ensures old(owned).None? ==> !ok && Current() == old(Current())
      ensures old(owned).Some? ==>
                forall i | 0 <= i < |conns| && old(owned) != Some(i) :: conns[i] == old(conns)[i]
      // The connection goes back to the pool exactly when its session gave the lock back, otherwise it is dropped.
      ensures old(owned).Some? ==> var c := conns[old(owned).value]; c == Connection(!BackInPool(c), c.pin) && c.pin != Live
      ensures ok ==> old(owned).Some? && BackInPool(conns[old(owned).value])
    {
      if owned.None? {
        return false;
      }
      var i := owned.value;
      assert conns[i] == Connection(true, Live);
      owned := None;
      var answered := Statement(i);
      if !answered {
        var cleaned := DiscardAndClose(i);
        return false;
      }
      var unlocked := answers(clock);
      if !unlocked {
        var cleaned := DiscardAndClose(i);
        return false;
      }
      conns := conns[i := conns[i].(mayHold := false)];
      ok := CloseConnection(i);
    }

    method Shutdown() returns (ok: bool)
      requires Safe(Current())
      modifies this
      ensures Safe(Current()) && owned.None?
      ensures old(owned).None? ==> ok && Current() == old(Current())
      ensures old(owned).Some? ==> conns == old(conns)[old(owned).value := old(conns)[old(owned).value].(pin := Dropped)]
    {
      if owned.None? {
        return true;
      }
      var i := owned.value;
      owned := None;
      ok := DiscardAndClose(i);
    }

    /** Any run of calls: no connection whose session may hold the lock is ever back in the pool. */
    method Serve(calls: seq<Call>)
      requires Safe(Current())
      modifies this
      ensures Safe(Current())
      ensures forall c | c in conns && BackInPool(c) :: !c.mayHold
    {
      for n := 0 to |calls|
        invariant Safe(Current())
      {
        match calls[n] {
          case Lock => var locked := TakeLock();
          case Unlock => var unlocked := Release();
          case Close => var closed := Shutdown();
        }
      }
      SafePool(Current());
    }
  }

  /** Safety in terms of the pool: what lives on holds no lock, and at most one session may hold it undropped. */
  lemma SafePool(s: State)
    requires Safe(s)
    ensures forall c | c in s.conns && BackInPool(c) :: !c.mayHold
    ensures forall i, j | 0 <= i < j < |s.conns| && s.conns[i].mayHold && s.conns[j].mayHold :: s.conns[i].pin == Dropped || s.conns[j].pin == Dropped
  {
    forall c | c in s.conns && BackInPool(c) ensures !c.mayHold {
      var i :| 0 <= i < |s.conns| && s.conns[i] == c;
    }
  }
}
