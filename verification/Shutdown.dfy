/** The shutdown protocol (include/forger/shutdown.hpp, src/shutdown.cpp): requesters and waiters that share a
    flag, a reason, a mutex and a condition variable, interleaved in any order. */
module Shutdown {
  import opened Wrappers

  datatype Reason = NotRequested | Signal | Internal

  // ---- one caller at a time ----

  /** The object as a single caller sees it. */
  class ShutdownState {
    var state: bool
    var reason: Reason

    constructor ()
      ensures !state && reason == NotRequested
    {
      state, reason := false, NotRequested;
    }

    predicate StopRequested()
      reads this
    {
      state
    }

    method Request(r: Reason)
      modifies this
      ensures state && reason == if old(state) then old(reason) else r
    {
      var was := state;
      state := true;
      if !was { reason := r; }
    }
  }

  // ---- all interleavings ----

  /** Where a thread stands. `won` records what the exchange of the flag returned; `expired` whether the
      timeout has passed. */
  datatype Thread =
    // a caller of request(r)
    | Calling(r: Reason)
    | Locked(r: Reason)
    | Exchanged(r: Reason, won: bool)
    | Stored(r: Reason)
    | Unlocked(r: Reason)
    | Notified(r: Reason)
    // a caller of wait_for_stop
    | Waiting
    | Checking(expired: bool)
    | Parking
    | Blocked
    | Woken(expired: bool)
    | Leaving(expired: bool)
    | Returned(expired: bool)
  {
    /** The thread holds the mutex. */
    predicate Holds() { Locked? || Exchanged? || Stored? || Checking? || Parking? || Leaving? }

    /** The thread has set the flag, or found it set, and has yet to reach `notify_all`. */
    predicate OwesNotify() { Exchanged? || Stored? || Unlocked? }

    predicate Requester() { Calling? || Locked? || Exchanged? || Stored? || Unlocked? || Notified? }
  }

  datatype System = System(flag: bool, reason: Reason, owner: Option<nat>, threads: seq<Thread>)

  /** Every requester brings a real reason; nobody has started. */
  predicate Start(s: System) {
    && !s.flag && s.reason == NotRequested && s.owner == None
    && forall i :: 0 <= i < |s.threads| ==>
         s.threads[i] == Waiting || (s.threads[i].Calling? && s.threads[i].r != NotRequested)
  }

  function At(s: System, i: nat, t: Thread): System
    requires i < |s.threads|
  {
    s.(threads := s.threads[i := t])
  }

  function Wake(t: Thread): Thread { if t.Blocked? then Woken(false) else t }

  function WakeAll(ts: seq<Thread>): seq<Thread> { seq(|ts|, i requires 0 <= i < |ts| => Wake(ts[i])) }

  /** The next step of thread `i`, if it can move. A blocked thread moves only when it is woken. */
  function Step(s: System, i: nat): Option<System>
    requires i < |s.threads|
  {
    match s.threads[i]
    case Calling(r) => if s.owner.None? then Some(At(s, i, Locked(r)).(owner := Some(i))) else None
    case Locked(r) => Some(At(s, i, Exchanged(r, !s.flag)).(flag := true))
    case Exchanged(r, won) => Some(At(s, i, Stored(r)).(reason := if won then r else s.reason))
    case Stored(r) => Some(At(s, i, Unlocked(r)).(owner := None))
    case Unlocked(r) => Some(s.(threads := WakeAll(s.threads[i := Notified(r)])))
    case Notified(_) => None
    case Waiting => if s.owner.None? then Some(At(s, i, Checking(false)).(owner := Some(i))) else None
    case Checking(expired) => Some(At(s, i, if s.flag || expired then Leaving(expired) else Parking))
    case Parking => Some(At(s, i, Blocked).(owner := None))
    case Blocked => None
    case Woken(expired) => if s.owner.None? then Some(At(s, i, Checking(expired)).(owner := Some(i))) else None
    case Leaving(expired) => Some(At(s, i, Returned(expired)).(owner := None))
    case Returned(_) => None
  }

  /** A blocked thread may wake by itself: by its timeout or for no reason. */
  function SelfWake(s: System, i: nat, expired: bool): Option<System>
    requires i < |s.threads|
  {
    if s.threads[i].Blocked? then Some(At(s, i, Woken(expired))) else None
  }

  /** Thread `i` takes the system from `s` to `t`. */
  predicate Moves(s: System, i: nat, t: System)
    requires i < |s.threads|
  {
    Step(s, i) == Some(t) || SelfWake(s, i, false) == Some(t) || SelfWake(s, i, true) == Some(t)
  }

  predicate Next(s: System, t: System) { exists i :: 0 <= i < |s.threads| && Moves(s, i, t) }

  // ---- the invariant ----

  predicate OwnerAgrees(s: System) {
    && (s.owner.Some? ==> s.owner.value < |s.threads|)
    && forall i :: 0 <= i < |s.threads| ==> (s.threads[i].Holds() <==> s.owner == Some(i))
  }

  /** The owner is between setting the flag and storing its reason. */
  predicate MidRequest(s: System) {
    s.owner.Some? && s.owner.value < |s.threads| && s.threads[s.owner.value].Exchanged? && s.threads[s.owner.value].won
  }

  predicate ReasonAgrees(s: System) {
    if MidRequest(s) then s.flag && s.reason == NotRequested
    else s.flag <==> s.reason != NotRequested
  }

  predicate RealReasons(s: System) {
    forall i :: 0 <= i < |s.threads| && s.threads[i].Requester() ==> s.threads[i].r != NotRequested
  }

  /** A thread about to block saw no flag, and there is none; a thread that left early saw one. */
  predicate WaitersTruthful(s: System) {
    forall i :: 0 <= i < |s.threads| ==>
      && (s.threads[i].Parking? ==> !s.flag)
      && (s.threads[i] == Leaving(false) || s.threads[i] == Returned(false) ==> s.flag)
      && (s.threads[i].OwesNotify() || s.threads[i].Notified? ==> s.flag)
  }

  predicate SomeOwesNotify(s: System) { exists i :: 0 <= i < |s.threads| && s.threads[i].OwesNotify() }

  predicate SomeBlocked(s: System) { exists i :: 0 <= i < |s.threads| && s.threads[i].Blocked? }

  predicate WakeupPending(s: System) { s.flag && SomeBlocked(s) ==> SomeOwesNotify(s) }

  ghost predicate Inv(s: System) {
    OwnerAgrees(s) && ReasonAgrees(s) && RealReasons(s) && WaitersTruthful(s) && WakeupPending(s)
  }

  lemma StartInv(s: System)
    requires Start(s)
    ensures Inv(s)
  {
  }

  lemma StepOwner(s: System, t: System, i: nat)
    requires i < |s.threads| && OwnerAgrees(s) && Step(s, i) == Some(t)
    ensures OwnerAgrees(t)
  {
  }

  lemma StepReason(s: System, t: System, i: nat)
    requires i < |s.threads| && Inv(s) && Step(s, i) == Some(t)
    ensures ReasonAgrees(t) && RealReasons(t)
    ensures s.reason != NotRequested ==> t.reason == s.reason
  {
  }

  lemma StepWaiters(s: System, t: System, i: nat)
    requires i < |s.threads| && Inv(s) && Step(s, i) == Some(t)
    ensures WaitersTruthful(t)
  {
  }

  lemma StepPending(s: System, t: System, i: nat)
    requires i < |s.threads| && Inv(s) && Step(s, i) == Some(t)
    ensures WakeupPending(t)
  {
    if t.flag && SomeBlocked(t) {
      var b :| 0 <= b < |t.threads| && t.threads[b].Blocked?;
      if s.threads[i].Locked? {
        assert t.threads[i].OwesNotify();
      } else if !s.threads[i].Unlocked? {
        assert b != i ==> s.threads[b].Blocked?;
        if b != i {
          var p :| 0 <= p < |s.threads| && s.threads[p].OwesNotify();
          assert t.threads[p].OwesNotify();
        }
      }
    }
  }

  lemma SelfWakeInv(s: System, t: System, i: nat, expired: bool)
    requires i < |s.threads| && Inv(s) && SelfWake(s, i, expired) == Some(t)
    ensures Inv(t) && t.reason == s.reason && t.flag == s.flag
  {
    assert forall k :: 0 <= k < |s.threads| && k != i ==> t.threads[k] == s.threads[k];
    if t.flag && SomeBlocked(t) {
      var p :| 0 <= p < |s.threads| && s.threads[p].OwesNotify();
      assert t.threads[p].OwesNotify();
    }
  }

  lemma NextInv(s: System, t: System)
    requires Inv(s) && Next(s, t)
    ensures Inv(t)
    ensures s.reason != NotRequested ==> t.reason == s.reason
    ensures s.flag ==> t.flag
  {
    hide OwnerAgrees, ReasonAgrees, RealReasons, WaitersTruthful, WakeupPending, SelfWake;
    var i :| 0 <= i < |s.threads| && Moves(s, i, t);
    if Step(s, i) == Some(t) {
      StepOwner(s, t, i);
      StepReason(s, t, i);
      StepWaiters(s, t, i);
      StepPending(s, t, i);
    } else {
      SelfWakeInv(s, t, i, SelfWake(s, i, true) == Some(t));
    }
  }

  // ---- whole runs ----

  predicate IsRun(run: seq<System>) {
    run != [] && Start(run[0]) && forall k :: 0 < k < |run| ==> Next(run[k - 1], run[k])
  }

  lemma {:induction false} RunInv(run: seq<System>, k: nat)
    requires IsRun(run) && k < |run|
    ensures Inv(run[k])
  {
    hide Inv, Next;
    if k == 0 {
      StartInv(run[0]);
    } else {
      RunInv(run, k - 1);
      NextInv(run[k - 1], run[k]);
    }
  }

  /** No wakeup is lost: if a waiter is blocked while the flag is set, some requester has yet to notify; and
      a waiter that returned before its timeout saw the flag. */
  lemma NoLostWakeup(run: seq<System>, k: nat)
    requires IsRun(run) && k < |run|
    ensures run[k].flag && SomeBlocked(run[k]) ==> SomeOwesNotify(run[k])
    ensures forall i :: 0 <= i < |run[k].threads| && run[k].threads[i] == Returned(false) ==> run[k].flag
  {
    RunInv(run, k);
  }

  /** When the mutex is free, the flag is set exactly if a real reason is recorded. */
  lemma FlagMeansReason(run: seq<System>, k: nat)
    requires IsRun(run) && k < |run| && run[k].owner.None?
    ensures run[k].flag <==> run[k].reason != NotRequested
  {
    RunInv(run, k);
  }

  /** The first reason wins: once recorded it never changes, and the flag is never cleared. */
  lemma {:induction false} FirstReasonWins(run: seq<System>, j: nat, k: nat)
    requires IsRun(run) && j <= k < |run|
    ensures run[j].reason != NotRequested ==> run[k].reason == run[j].reason
    ensures run[j].flag ==> run[k].flag
    decreases k
  {
    hide Inv, Next;
    if j < k {
      FirstReasonWins(run, j, k - 1);
      RunInv(run, k - 1);
      NextInv(run[k - 1], run[k]);
    }
  }

  // ---- progress once the flag is set ----

  predicate Finished(t: Thread) { t.Notified? || t.Returned? }

  /** No deadlock: while the flag is set, some thread can take its next step until all have finished. */
  lemma NoDeadlock(run: seq<System>, k: nat)
    requires IsRun(run) && k < |run| && run[k].flag
    ensures (exists i :: 0 <= i < |run[k].threads| && Step(run[k], i).Some?)
            || forall i :: 0 <= i < |run[k].threads| ==> Finished(run[k].threads[i])
  {
    RunInv(run, k);
    var s := run[k];
    if s.owner.Some? {
      assert s.threads[s.owner.value].Holds() && Step(s, s.owner.value).Some?;
    } else if SomeBlocked(s) {
      var p :| 0 <= p < |s.threads| && s.threads[p].OwesNotify();
      assert !s.threads[p].Holds() && Step(s, p).Some?;
    } else if i :| 0 <= i < |s.threads| && !Finished(s.threads[i]) {
      assert !s.threads[i].Holds() && Step(s, i).Some?;
    }
  }

  /** The steps a thread has left when the flag is set. */
  function StepsLeft(t: Thread): nat {
    match t
    case Calling(_) => 5
    case Locked(_) => 4
    case Exchanged(_, _) => 3
    case Stored(_) => 2
    case Unlocked(_) => 1
    case Parking => 5
    case Blocked => 4
    case Waiting => 3
    case Woken(_) => 3
    case Checking(_) => 2
    case Leaving(_) => 1
    case _ => 0
  }

  function WorkLeft(ts: seq<Thread>): nat {
    if ts == [] then 0 else WorkLeft(ts[..|ts| - 1]) + StepsLeft(ts[|ts| - 1])
  }

  lemma {:induction false} WorkDrops(before: seq<Thread>, after: seq<Thread>, i: nat)
    requires |before| == |after|
    requires forall k :: 0 <= k < |before| ==> StepsLeft(after[k]) <= StepsLeft(before[k])
    ensures WorkLeft(after) <= WorkLeft(before)
    ensures i < |before| && StepsLeft(after[i]) < StepsLeft(before[i]) ==> WorkLeft(after) < WorkLeft(before)
  {
    if before != [] { WorkDrops(before[..|before| - 1], after[..|after| - 1], i); }
  }

  lemma {:induction false} WorkBound(ts: seq<Thread>)
    ensures WorkLeft(ts) <= 5 * |ts|
  {
    if ts != [] { WorkBound(ts[..|ts| - 1]); }
  }

  lemma MoveDrops(s: System, t: System, i: nat)
    requires i < |s.threads| && Moves(s, i, t) && s.flag && !s.threads[i].Parking?
    ensures |t.threads| == |s.threads| && StepsLeft(t.threads[i]) < StepsLeft(s.threads[i])
    ensures forall k :: 0 <= k < |s.threads| ==> StepsLeft(t.threads[k]) <= StepsLeft(s.threads[k])
  {
  }

  lemma NextDrops(s: System, t: System)
    requires Inv(s) && s.flag && Next(s, t)
    ensures WorkLeft(t.threads) < WorkLeft(s.threads) && |t.threads| == |s.threads|
  {
    hide WorkLeft, StepsLeft, Moves, OwnerAgrees, ReasonAgrees, RealReasons, WakeupPending;
    var i :| 0 <= i < |s.threads| && Moves(s, i, t);
    MoveDrops(s, t, i);
    WorkDrops(s.threads, t.threads, i);
  }

  /** A stop reaches every thread: once the flag is set, at most five steps a thread remain in any run, and
      with `NoDeadlock` a run that cannot go on has every requester and every waiter finished. */
  lemma {:induction false} StopIsPrompt(run: seq<System>, j: nat, k: nat)
    requires IsRun(run) && j <= k < |run| && run[j].flag
    ensures k - j + WorkLeft(run[k].threads) <= WorkLeft(run[j].threads) <= 5 * |run[j].threads|
    decreases k
  {
    hide Inv, Next, WorkLeft;
    WorkBound(run[j].threads);
    if j < k {
      StopIsPrompt(run, j, k - 1);
      FirstReasonWins(run, j, k - 1);
      RunInv(run, k - 1);
      NextDrops(run[k - 1], run[k]);
    }
  }

  // ---- time-outs, whether or not the flag is set ----

  /** The wait has timed out. */
  predicate Expired(t: Thread) {
    (t.Woken? || t.Checking? || t.Leaving? || t.Returned?) && t.expired
  }

  /** The steps such a waiter has left. */
  function WaitLeft(t: Thread): nat { if t.Woken? then 3 else if t.Checking? then 2 else if t.Leaving? then 1 else 0 }

  /** A blocked waiter can time out at any moment. */
  lemma CanExpire(s: System, i: nat)
    requires i < |s.threads| && s.threads[i].Blocked?
    ensures exists t :: Next(s, t) && |t.threads| == |s.threads| && t.threads[i] == Woken(true)
  {
    var t := At(s, i, Woken(true));
    assert SelfWake(s, i, true) == Some(t) && Moves(s, i, t);
    assert Next(s, t);
  }

  /** A waiter that has timed out only ever moves on towards its return, and nobody else moves it. */
  lemma MoveExpired(s: System, t: System, m: nat, i: nat)
    requires m < |s.threads| && i < |s.threads| && Moves(s, m, t) && Expired(s.threads[i])
    ensures |t.threads| == |s.threads| && Expired(t.threads[i])
    ensures t.threads[i] == s.threads[i] || WaitLeft(t.threads[i]) + 1 == WaitLeft(s.threads[i])
  {
  }

  /** How many of the steps from `j` to `k` moved thread `i`. */
  function MovesOf(run: seq<System>, j: nat, k: nat, i: nat): nat
    requires j <= k < |run| && forall x :: j <= x <= k ==> i < |run[x].threads|
  {
    if j == k then 0
    else MovesOf(run, j, k - 1, i) + if run[k].threads[i] != run[k - 1].threads[i] then 1 else 0
  }

  lemma {:induction false} SameThreads(run: seq<System>, j: nat, k: nat)
    requires IsRun(run) && j <= k < |run|
    ensures |run[k].threads| == |run[j].threads|
    decreases k
  {
    if j < k {
      SameThreads(run, j, k - 1);
      NextThreads(run[k - 1], run[k]);
    }
  }

  lemma NextThreads(s: System, t: System)
    requires Next(s, t)
    ensures |t.threads| == |s.threads|
  {
  }

  /** In every run a waiter that has timed out never blocks again, and takes at most three steps more, whatever
      the flag and the other threads do. */
  lemma {:induction false} TimeoutEnds(run: seq<System>, j: nat, k: nat, i: nat)
    requires IsRun(run) && j <= k < |run| && i < |run[j].threads| && Expired(run[j].threads[i])
    ensures forall x :: j <= x <= k ==> i < |run[x].threads|
    ensures Expired(run[k].threads[i])
    ensures WaitLeft(run[k].threads[i]) + MovesOf(run, j, k, i) == WaitLeft(run[j].threads[i]) <= 3
    decreases k
  {
    hide Next, Start, Expired;
    forall x | j <= x <= k ensures i < |run[x].threads| { SameThreads(run, j, x); }
    if j < k {
      TimeoutEnds(run, j, k - 1, i);
      NextExpired(run[k - 1], run[k], i);
    }
  }

  lemma NextExpired(s: System, t: System, i: nat)
    requires Next(s, t) && i < |s.threads| && Expired(s.threads[i])
    ensures |t.threads| == |s.threads| && Expired(t.threads[i])
    ensures t.threads[i] == s.threads[i] || WaitLeft(t.threads[i]) + 1 == WaitLeft(s.threads[i])
  {
    hide Moves, Expired;
    var m :| 0 <= m < |s.threads| && Moves(s, m, t);
    MoveExpired(s, t, m, i);
  }

  /** With the mutex free its next three steps bring it back. */
  lemma ExpiredReturns(s: System, i: nat)
    requires i < |s.threads| && s.threads[i] == Woken(true) && s.owner.None?
    ensures exists t1, t2, t3 ::
      && Step(s, i) == Some(t1) && |t1.threads| == |s.threads| && Step(t1, i) == Some(t2)
      && |t2.threads| == |s.threads| && Step(t2, i) == Some(t3)
      && t3 == At(s, i, Returned(true))
  {
    var t1 := Step(s, i).value;
    var t2 := Step(t1, i).value;
    var t3 := Step(t2, i).value;
    assert t3.threads == s.threads[i := Returned(true)];
  }

  /** Nothing but its time-out makes a wait time out. */
  lemma OnlyTimeExpires(s: System, t: System, m: nat, i: nat)
    requires m < |s.threads| && i < |s.threads| && Moves(s, m, t) && !Expired(s.threads[i])
    requires |t.threads| == |s.threads| && Expired(t.threads[i])
    ensures m == i && s.threads[i].Blocked? && SelfWake(s, i, true) == Some(t)
  {
  }

  /** A waiter leaves for no other reason than its time-out or the flag. */
  lemma LeavesForCause(s: System, t: System, i: nat)
    requires i < |s.threads| && s.threads[i].Checking? && Step(s, i) == Some(t)
    ensures |t.threads| == |s.threads|
    ensures if s.flag || Expired(s.threads[i]) then t.threads[i].Leaving? else t.threads[i].Parking?
  {
  }

  // ---- single steps ----

  /** After every notification no thread is left blocked. */
  lemma NotifyWakesAll(s: System, i: nat)
    requires i < |s.threads| && s.threads[i].Unlocked?
    ensures Step(s, i).Some? && !SomeBlocked(Step(s, i).value)
  {
  }

  /** A request that runs alone does what the single-caller object does. */
  lemma AloneRequest(s: System, i: nat)
    requires Inv(s) && i < |s.threads| && s.threads[i].Calling? && s.owner.None?
    ensures exists t1, t2, t3, t4, t5 ::
      && Step(s, i) == Some(t1) && |t1.threads| == |s.threads| && Step(t1, i) == Some(t2)
      && |t2.threads| == |s.threads| && Step(t2, i) == Some(t3)
      && |t3.threads| == |s.threads| && Step(t3, i) == Some(t4)
      && |t4.threads| == |s.threads| && Step(t4, i) == Some(t5)
      && t5.flag && t5.reason == (if s.flag then s.reason else s.threads[i].r)
      && t5.owner.None? && !SomeBlocked(t5)
  {
    var t1 := Step(s, i).value;
    var t2 := Step(t1, i).value;
    var t3 := Step(t2, i).value;
    var t4 := Step(t3, i).value;
    var t5 := Step(t4, i).value;
    NotifyWakesAll(t4, i);
    assert Step(t4, i) == Some(t5);
  }
}
