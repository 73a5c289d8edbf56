/**
 The two blocking operations of `Node`: `paste` without a callback and `stop`.
 In both, the calling thread sleeps on a condition variable until a callback,
 run by the DHT's thread, has set a flag under a mutex.

 Each thread is a program counter, and a run is any sequence of enabled actions of
 the two threads. A sleeping thread may wake up spuriously at any time.

 `paste` locks before it hands the callback over, and its callback notifies after
 unlocking. `stop` hands over first, and its callback notifies while it holds the lock.
 Before `stop` returns it joins the DHT's thread, still holding the mutex; the join waits
 until the callback has run to its end.
 */
module Handshakes {
  import opened Outcomes

  datatype Protocol = PasteWait | StopWait

  datatype Waiter =
    | Start
    | Locked      // holds the mutex, callback not handed over yet (paste)
    | Launched    // callback handed over, mutex not taken yet (stop)
    | Checking    // holds the mutex, about to evaluate the predicate
    | Sleeping    // in the condition variable's queue
    | Waking      // woken, wants the mutex back
    | Leaving     // holds the mutex, has seen the flag
    | Unlocking   // holds the mutex, has read the result or joined
    | Returned    // mutex and condition variable are gone

  datatype Callback =
    | Dormant     // not handed over
    | Armed       // handed over, not called yet
    | AtLock      // called; about to lock
    | InLock      // holds the mutex
    | FlagSet     // holds the mutex, flag is set
    | Last        // one step left: notify (paste) or unlock (stop)
    | Finished

  datatype Holder = Free | ByWaiter | ByCallback

  datatype Wake = NeverWoken | Notified | Spurious

  datatype State = State(
    waiter: Waiter,
    callback: Callback,
    mutex: Holder,
    done: bool,
    success: bool,            // what the callback was told; only paste has a variable for it
    reported: Option<bool>,   // what the DHT told the callback
    result: Option<bool>,     // what paste returns; for stop only that it is about to return
    lastWake: Wake)

  datatype Action =
    | WaiterLock
    | Launch
    | Check
    | WakeSpuriously
    | ReadResult      // paste
    | Join            // stop
    | WaiterUnlock
    | Fire(ok: bool)
    | CallbackLock
    | SetDone
    | CallbackUnlock
    | Notify

  /** `done` is what the memory of the flag holds at the start. */
  function Init(done: bool): State {
    State(Start, Dormant, Free, done, false, None, None, NeverWoken)
  }

  /** The effect of an action, or nothing where it is not enabled. */
  function Step(p: Protocol, s: State, a: Action): Option<State> {
    match a
    case WaiterLock =>
      if s.mutex != Free then None
      else if s.waiter == Start && p == PasteWait then Some(s.(waiter := Locked, mutex := ByWaiter))
      else if s.waiter == Launched || s.waiter == Waking then Some(s.(waiter := Checking, mutex := ByWaiter))
      else None
    case Launch =>
      if s.waiter == Locked then Some(s.(waiter := Checking, callback := Armed))
      else if s.waiter == Start && p == StopWait then Some(s.(waiter := Launched, callback := Armed))
      else None
    case Check =>
      if s.waiter != Checking then None
      else if s.done then Some(s.(waiter := Leaving))
      else Some(s.(waiter := Sleeping, mutex := Free))
    case WakeSpuriously =>
      if s.waiter == Sleeping then Some(s.(waiter := Waking, lastWake := Spurious)) else None
    case ReadResult =>
      if s.waiter == Leaving && p == PasteWait
      then Some(s.(waiter := Unlocking, result := Some(s.success)))
      else None
    case Join =>
      if s.waiter == Leaving && p == StopWait && s.callback == Finished
      then Some(s.(waiter := Unlocking, result := Some(s.success)))
      else None
    case WaiterUnlock =>
      if s.waiter == Unlocking then Some(s.(waiter := Returned, mutex := Free)) else None
    case Fire(ok) =>
      if s.callback == Armed
      then Some(s.(callback := AtLock, reported := Some(ok), success := s.success || ok))
      else None
    case CallbackLock =>
      if s.callback == AtLock && s.mutex == Free then Some(s.(callback := InLock, mutex := ByCallback)) else None
    case SetDone =>
      if s.callback == InLock then Some(s.(callback := FlagSet, done := true)) else None
    case CallbackUnlock =>
      if s.callback == UnlocksFrom(p) then Some(s.(callback := After(s.callback), mutex := Free)) else None
    case Notify =>
      if s.callback != NotifiesFrom(p) then None
      else if s.waiter == Sleeping
      then Some(s.(callback := After(s.callback), waiter := Waking, lastWake := Notified))
      else Some(s.(callback := After(s.callback)))
  }

  function UnlocksFrom(p: Protocol): Callback {
    if p == PasteWait then FlagSet else Last
  }

  function NotifiesFrom(p: Protocol): Callback {
    if p == PasteWait then Last else FlagSet
  }

  function After(c: Callback): Callback {
    if c == FlagSet then Last else Finished
  }

  /** The state after a run, if all its actions were enabled in turn. */
  function Exec(p: Protocol, s: State, run: seq<Action>): Option<State>
    decreases run
  {
    if run == [] then Some(s)
    else match Step(p, s, run[0])
      case None => None
      case Some(next) => Exec(p, next, run[1..])
  }

  // ---------------------------------------------------------------- the invariant

  predicate HasFired(c: Callback) {
    c != Dormant && c != Armed
  }

  predicate HasSet(c: Callback) {
    c == FlagSet || c == Last || c == Finished
  }

  /** The callback still owes a notification. */
  predicate NotifyPending(p: Protocol, c: Callback) {
    c != Finished && !(p == StopWait && c == Last)
  }

  predicate HoldsLock(w: Waiter) {
    w == Locked || w == Checking || w == Leaving || w == Unlocking
  }

  predicate CallbackHoldsLock(p: Protocol, c: Callback) {
    c == InLock || c == FlagSet || (p == StopWait && c == Last)
  }

  /** What holds in every state of every run that starts with the flag unset. */
  predicate Inv(p: Protocol, s: State) {
    && LockInv(p, s)
    && FlagInv(p, s)
    && WakeInv(p, s)
  }

  /** Mutual exclusion, and who can be where. */
  predicate LockInv(p: Protocol, s: State) {
    && (s.mutex == ByWaiter <==> HoldsLock(s.waiter))
    && (s.mutex == ByCallback <==> CallbackHoldsLock(p, s.callback))
    && (s.callback == Dormant <==> s.waiter == Start || s.waiter == Locked)
    && (s.waiter == Locked ==> p == PasteWait)
    && (s.waiter == Launched ==> p == StopWait)
  }

  predicate Passed(w: Waiter) {
    w == Leaving || w == Unlocking || w == Returned
  }

  /** The flag, the success variable and the result. */
  predicate FlagInv(p: Protocol, s: State) {
    && (s.done <==> HasSet(s.callback))
    && s.reported == (if HasFired(s.callback) then Some(s.success) else None)
    && (!HasFired(s.callback) ==> !s.success)
    && (Passed(s.waiter) ==> s.done)
    && s.result == (if s.waiter == Unlocking || s.waiter == Returned then s.reported else None)
  }

  /** Notifications: none is lost, and who got past the check was let past. */
  predicate WakeInv(p: Protocol, s: State) {
    && (s.waiter == Sleeping ==> NotifyPending(p, s.callback))
    && (s.lastWake == Notified ==> !NotifyPending(p, s.callback))
    && (p == PasteWait && s.lastWake == NeverWoken ==>
         s.waiter != Waking && !Passed(s.waiter) && (s.waiter == Checking ==> !s.done))
    && (p == StopWait && Passed(s.waiter) ==> s.callback == Finished)
    && (p == StopWait && s.waiter == Checking && s.done ==> s.callback == Finished)
  }

  lemma StepKeepsLocks(p: Protocol, s: State, a: Action)
    requires Inv(p, s) && Step(p, s, a).Some?
    ensures LockInv(p, Step(p, s, a).value)
  {
  }

  lemma StepKeepsFlags(p: Protocol, s: State, a: Action)
    requires Inv(p, s) && Step(p, s, a).Some?
    ensures FlagInv(p, Step(p, s, a).value)
  {
  }

  lemma StepKeepsWakes(p: Protocol, s: State, a: Action)
    requires Inv(p, s) && Step(p, s, a).Some?
    ensures WakeInv(p, Step(p, s, a).value)
  {
  }

  /** Every step of either thread keeps the invariant. */
  lemma StepKeepsInv(p: Protocol, s: State, a: Action)
    requires Inv(p, s) && Step(p, s, a).Some?
    ensures Inv(p, Step(p, s, a).value)
  {
    StepKeepsLocks(p, s, a);
    StepKeepsFlags(p, s, a);
    StepKeepsWakes(p, s, a);
  }

  lemma {:induction false} ExecKeepsInv(p: Protocol, s: State, run: seq<Action>)
    requires Inv(p, s) && Exec(p, s, run).Some?
    ensures Inv(p, Exec(p, s, run).value)
    decreases run
  {
    if run != [] {
      StepKeepsInv(p, s, run[0]);
      ExecKeepsInv(p, Step(p, s, run[0]).value, run[1..]);
    }
  }

  /** `s` is reached by a run that starts with `done` in the flag's memory. */
  ghost predicate Reachable(p: Protocol, done: bool, s: State) {
    exists run :: Exec(p, Init(done), run) == Some(s)
  }

  lemma ReachableInv(p: Protocol, s: State)
    requires Reachable(p, false, s)
    ensures Inv(p, s)
  {
    var run :| Exec(p, Init(false), run) == Some(s);
    ExecKeepsInv(p, Init(false), run);
  }

  lemma {:induction false} ExecSnoc(p: Protocol, s: State, run: seq<Action>, a: Action)
    requires Exec(p, s, run).Some?
    ensures Exec(p, s, run + [a]) == Step(p, Exec(p, s, run).value, a)
    decreases run
  {
    if run == [] {
      assert [a][1..] == [];
    } else {
      assert (run + [a])[1..] == run[1..] + [a];
      ExecSnoc(p, Step(p, s, run[0]).value, run[1..], a);
    }
  }

  lemma Advance(p: Protocol, done: bool, s: State, a: Action) returns (next: State)
    requires Reachable(p, done, s) && Step(p, s, a).Some?
    ensures next == Step(p, s, a).value && Reachable(p, done, next)
  {
    var run :| Exec(p, Init(done), run) == Some(s);
    ExecSnoc(p, Init(done), run, a);
    next := Step(p, s, a).value;
  }

  lemma AtStart(p: Protocol, done: bool) returns (s: State)
    ensures s == Init(done) && Reachable(p, done, s)
  {
    s := Init(done);
    assert Exec(p, s, []) == Some(s);
  }

  // ---------------------------------------------------------------- safety

  /** The operation returns only after the callback ran, and returns what it was told. */
  ghost predicate Truthful(s: State) {
    s.waiter == Returned ==> s.reported.Some? && s.result == s.reported
  }

  /** Both operations end truthfully in every run in which the flag starts unset. */
  lemma AlwaysTruthful(p: Protocol, s: State)
    requires Reachable(p, false, s)
    ensures Truthful(s)
  {
    ReachableInv(p, s);
  }

  /** What the DHT told the callback in a run, if it has called it. */
  function ToldIn(run: seq<Action>): Option<bool> {
    if run == [] then None
    else if run[|run| - 1].Fire? then Some(run[|run| - 1].ok)
    else ToldIn(run[..|run| - 1])
  }

  predicate Uncalled(s: State) {
    s.callback == Dormant || s.callback == Armed
  }

  lemma StepReports(p: Protocol, s: State, a: Action)
    requires Inv(p, s) && Step(p, s, a).Some?
    ensures Step(p, s, a).value.reported == if a.Fire? then Some(a.ok) else s.reported
    ensures a.Fire? ==> Uncalled(s) && !Uncalled(Step(p, s, a).value)
    ensures !a.Fire? ==> (Uncalled(s) <==> Uncalled(Step(p, s, a).value))
  {
  }

  /** No action of the run calls the callback. */
  predicate Silent(run: seq<Action>) {
    forall i :: 0 <= i < |run| ==> !run[i].Fire?
  }

  lemma {:induction false} ReportedIsTold(p: Protocol, run: seq<Action>)
    requires Exec(p, Init(false), run).Some?
    ensures Exec(p, Init(false), run).value.reported == ToldIn(run)
    ensures Uncalled(Exec(p, Init(false), run).value) <==> Silent(run)
    ensures forall i, j :: 0 <= i < j < |run| ==> !run[i].Fire? || !run[j].Fire?
    decreases |run|
  {
    if run != [] {
      var front, last := run[..|run| - 1], run[|run| - 1];
      assert run == front + [last];
      ExecPrefix(p, Init(false), front, last);
      ReportedIsTold(p, front);
      ExecSnoc(p, Init(false), front, last);
      ExecKeepsInv(p, Init(false), front);
      StepReports(p, Exec(p, Init(false), front).value, last);
      SilentSnoc(front, last);
    }
  }

  lemma SilentSnoc(front: seq<Action>, last: Action)
    ensures Silent(front + [last]) <==> Silent(front) && !last.Fire?
  {
    var run := front + [last];
    assert run[|front|] == last;
    assert forall i :: 0 <= i < |front| ==> run[i] == front[i];
  }

  lemma {:induction false} ExecPrefix(p: Protocol, s: State, run: seq<Action>, a: Action)
    requires Exec(p, s, run + [a]).Some?
    ensures Exec(p, s, run).Some?
    decreases run
  {
    if run != [] {
      assert (run + [a])[1..] == run[1..] + [a];
      assert (run + [a])[0] == run[0];
      ExecPrefix(p, Step(p, s, run[0]).value, run[1..], a);
    }
  }

  /** Where `paste` has returned, the callback was called once in the run, and its word is the result. */
  lemma PasteReturnsWhatWasTold(run: seq<Action>)
    requires Exec(PasteWait, Init(false), run).Some?
    requires Exec(PasteWait, Init(false), run).value.waiter == Returned
    ensures exists i, ok ::
      && 0 <= i < |run| && run[i] == Fire(ok)
      && Exec(PasteWait, Init(false), run).value.result == Some(ok)
      && (forall j :: 0 <= j < |run| && j != i ==> !run[j].Fire?)
  {
    var s := Exec(PasteWait, Init(false), run).value;
    ExecKeepsInv(PasteWait, Init(false), run);
    ReportedIsTold(PasteWait, run);
    var i := ToldAt(run);
    assert run[i] == Fire(ToldIn(run).value);
  }

  lemma {:induction false} ToldAt(run: seq<Action>) returns (i: nat)
    requires ToldIn(run).Some?
    ensures i < |run| && run[i] == Fire(ToldIn(run).value)
    decreases |run|
  {
    var n := |run| - 1;
    if run[n].Fire? {
      i := n;
    } else {
      i := ToldAt(run[..n]);
    }
  }

  /** `paste` ends truthfully in every run if its flag starts unset, and only then. */
  lemma TruthfulIffFlagUnset(done: bool)
    ensures (forall s :: Reachable(PasteWait, done, s) ==> Truthful(s)) <==> !done
  {
    if done {
      var s := ReturnsUncalled();
    } else {
      forall s | Reachable(PasteWait, false, s)
        ensures Truthful(s)
      {
        AlwaysTruthful(PasteWait, s);
      }
    }
  }

  /** With the flag set by chance at the start, `paste` returns failure before any call. */
  lemma ReturnsUncalled() returns (s: State)
    ensures Reachable(PasteWait, true, s)
    ensures s.waiter == Returned && s.reported == None && s.result == Some(false)
  {
    s := AtStart(PasteWait, true);
    s := Advance(PasteWait, true, s, WaiterLock);
    s := Advance(PasteWait, true, s, Launch);
    s := Advance(PasteWait, true, s, Check);
    s := Advance(PasteWait, true, s, ReadResult);
    s := Advance(PasteWait, true, s, WaiterUnlock);
  }

  /** The condition variable is not used any more once the waiter has returned. */
  predicate Ordered(p: Protocol, s: State) {
    s.waiter == Returned ==> !NotifyPending(p, s.callback)
  }

  /**
   In `stop` the callback is through as soon as the waiter is past the check, so that the join
   never waits for a callback that waits for the mutex.
   */
  lemma StopIsOrdered(s: State)
    requires Reachable(StopWait, false, s) && Passed(s.waiter)
    ensures s.callback == Finished && Ordered(StopWait, s)
    ensures s.waiter == Leaving ==> Step(StopWait, s, Join).Some?
  {
    ReachableInv(StopWait, s);
  }

  /** In `paste` the order is kept wherever the last wake-up was a notification. */
  lemma PasteIsOrderedUnlessSpurious(s: State)
    requires Reachable(PasteWait, false, s) && s.lastWake != Spurious
    ensures Ordered(PasteWait, s)
  {
    ReachableInv(PasteWait, s);
  }

  function SpuriousCount(run: seq<Action>): nat {
    if run == [] then 0 else (if run[0] == WakeSpuriously then 1 else 0) + SpuriousCount(run[1..])
  }

  lemma {:induction false} NotWokenSpuriously(p: Protocol, s: State, run: seq<Action>)
    requires Exec(p, s, run).Some? && SpuriousCount(run) == 0 && s.lastWake != Spurious
    ensures Exec(p, s, run).value.lastWake != Spurious
    decreases run
  {
    if run != [] {
      NotWokenSpuriously(p, Step(p, s, run[0]).value, run[1..]);
    }
  }

  /** `paste` keeps the order in all runs exactly where no spurious wake-ups are possible. */
  lemma PasteOrderedIffNoSpurious(possible: bool)
    ensures !possible <==>
      (forall run :: Exec(PasteWait, Init(false), run).Some? && (possible || SpuriousCount(run) == 0) ==>
         Ordered(PasteWait, Exec(PasteWait, Init(false), run).value))
  {
    if possible {
      var s := PasteCanBeUnordered();
      var run :| Exec(PasteWait, Init(false), run) == Some(s);
      assert !Ordered(PasteWait, Exec(PasteWait, Init(false), run).value);
    } else {
      forall run | Exec(PasteWait, Init(false), run).Some? && SpuriousCount(run) == 0
        ensures Ordered(PasteWait, Exec(PasteWait, Init(false), run).value)
      {
        NotWokenSpuriously(PasteWait, Init(false), run);
        PasteIsOrderedUnlessSpurious(Exec(PasteWait, Init(false), run).value);
      }
    }
  }

  /** The callback may have unlocked while the waiter still sleeps. */
  lemma SetWhileAsleep() returns (s: State)
    ensures Reachable(PasteWait, false, s)
    ensures s.waiter == Sleeping && s.callback == Last && s.done && s.mutex == Free
  {
    s := AtStart(PasteWait, false);
    s := Advance(PasteWait, false, s, WaiterLock);
    s := Advance(PasteWait, false, s, Launch);
    s := Advance(PasteWait, false, s, Check);
    s := Advance(PasteWait, false, s, Fire(true));
    s := Advance(PasteWait, false, s, CallbackLock);
    s := Advance(PasteWait, false, s, SetDone);
    s := Advance(PasteWait, false, s, CallbackUnlock);
  }

  /** A spurious wake-up at that point lets the waiter return before the notification. */
  lemma PasteCanBeUnordered() returns (s: State)
    ensures Reachable(PasteWait, false, s)
    ensures !Ordered(PasteWait, s)
  {
    s := SetWhileAsleep();
    s := Advance(PasteWait, false, s, WakeSpuriously);
    s := Advance(PasteWait, false, s, WaiterLock);
    s := Advance(PasteWait, false, s, Check);
    s := Advance(PasteWait, false, s, ReadResult);
    s := Advance(PasteWait, false, s, WaiterUnlock);
  }

  // ---------------------------------------------------------------- progress

  /** Whoever sleeps is still owed a notification, so none is lost. */
  lemma NoLostWakeup(p: Protocol, s: State)
    requires Reachable(p, false, s) && s.waiter == Sleeping
    ensures NotifyPending(p, s.callback)
  {
    ReachableInv(p, s);
  }

  predicate Over(s: State) {
    s.waiter == Returned && s.callback == Finished
  }

  /** Something that can happen next without a spurious wake-up. */
  function NextAction(p: Protocol, s: State): Action {
    match s.waiter
    case Locked => Launch
    case Checking => Check
    case Leaving => if p == PasteWait then ReadResult else Join
    case Unlocking => WaiterUnlock
    case _ =>
      match s.callback
      case Dormant => if p == PasteWait then WaiterLock else Launch
      case Armed => Fire(true)
      case AtLock => CallbackLock
      case InLock => SetDone
      case FlagSet => if p == PasteWait then CallbackUnlock else Notify
      case Last => if p == PasteWait then Notify else CallbackUnlock
      case Finished => WaiterLock
  }

  lemma NeverStuck(p: Protocol, s: State)
    requires Inv(p, s) && !Over(s)
    ensures Step(p, s, NextAction(p, s)).Some? && NextAction(p, s) != WakeSpuriously
  {
  }

  /** Some thread can go on without a spurious wake-up, or both have come to their end. */
  ghost predicate Live(p: Protocol, s: State) {
    Over(s) || exists a :: a != WakeSpuriously && Step(p, s, a).Some?
  }

  /**
   That `stop` initialises its flag is what keeps the join from deadlock: it is live in every
   reachable state exactly where the flag starts unset.
   */
  lemma StopLiveIffFlagUnset(done: bool)
    ensures (forall s :: Reachable(StopWait, done, s) ==> Live(StopWait, s)) <==> !done
  {
    if done {
      var s := StopDeadlocks();
    } else {
      forall s | Reachable(StopWait, false, s)
        ensures Live(StopWait, s)
      {
        ReachableInv(StopWait, s);
        if !Over(s) {
          NeverStuck(StopWait, s);
        }
      }
    }
  }

  /** With the flag set, the waiter could join a callback that waits for its mutex. */
  lemma StopDeadlocks() returns (s: State)
    ensures Reachable(StopWait, true, s) && !Live(StopWait, s)
  {
    s := AtStart(StopWait, true);
    s := Advance(StopWait, true, s, Launch);
    s := Advance(StopWait, true, s, Fire(true));
    s := Advance(StopWait, true, s, WaiterLock);
    s := Advance(StopWait, true, s, Check);
  }

  /** How far the two threads still have to go. */
  function Rank(s: State): nat {
    (match s.waiter
     case Start => 8 case Locked => 7 case Launched => 7 case Waking => 6 case Checking => 5
     case Leaving => 3 case Unlocking => 2 case Sleeping => 1 case Returned => 0)
    + 10 * (match s.callback
     case Dormant => 6 case Armed => 5 case AtLock => 4 case InLock => 3
     case FlagSet => 2 case Last => 1 case Finished => 0)
  }

  lemma StepRank(p: Protocol, s: State, a: Action)
    requires Inv(p, s) && Step(p, s, a).Some?
    ensures a != WakeSpuriously ==> Rank(Step(p, s, a).value) < Rank(s)
    ensures a == WakeSpuriously ==> Rank(Step(p, s, a).value) == Rank(s) + 5
  {
  }

  /** No run goes on for ever, unless it wakes up spuriously for ever. */
  lemma {:induction false} RunsAreShort(p: Protocol, s: State, run: seq<Action>)
    requires Inv(p, s) && Exec(p, s, run).Some?
    ensures |run| <= Rank(s) + 6 * SpuriousCount(run)
    decreases run
  {
    if run != [] {
      StepRank(p, s, run[0]);
      StepKeepsInv(p, s, run[0]);
      RunsAreShort(p, Step(p, s, run[0]).value, run[1..]);
    }
  }

  /**
   Termination: a run with `n` spurious wake-ups has at most 68 + 6n actions, and where
   it cannot be continued by a non-spurious action, the operation has returned and the
   callback is through.
   */
  lemma EveryRunReturns(p: Protocol, run: seq<Action>)
    requires Exec(p, Init(false), run).Some?
    requires forall a :: a != WakeSpuriously ==> Step(p, Exec(p, Init(false), run).value, a).None?
    ensures |run| <= 68 + 6 * SpuriousCount(run)
    ensures Over(Exec(p, Init(false), run).value)
  {
    RunsAreShort(p, Init(false), run);
    ExecKeepsInv(p, Init(false), run);
    var s := Exec(p, Init(false), run).value;
    if !Over(s) {
      NeverStuck(p, s);
    }
  }

  /** From every reachable state the operation can be driven to its end. */
  lemma {:induction false} CanAlwaysReturn(p: Protocol, s: State) returns (run: seq<Action>)
    requires Inv(p, s)
    ensures Exec(p, s, run).Some? && Over(Exec(p, s, run).value) && SpuriousCount(run) == 0
    decreases Rank(s)
  {
    if Over(s) {
      run := [];
    } else {
      var a := NextAction(p, s);
      NeverStuck(p, s);
      StepRank(p, s, a);
      StepKeepsInv(p, s, a);
      var rest := CanAlwaysReturn(p, Step(p, s, a).value);
      run := [a] + rest;
      assert run[1..] == rest;
    }
  }
}
