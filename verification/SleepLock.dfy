/**
 * Sleep locks on top of spin locks, `sleep` and `wakeup`, for any number of processes. Every acquisition, release and
 * test in `acquiresleep`, `releasesleep`, `holdingsleep`, `sleep` and `wakeup` is a step of its own, and steps of
 * different processes interleave freely. Two stores under one lock with no test between them are one step.
 */
module SleepLock {
  datatype Option<+T> = None | Some(value: T)

  /** Where a process is. The second column says which spin locks it holds there. */
  datatype Pc =
    | Idle                        //          not using the lock
    | EnterAcquire                //          acquiresleep: spinning for lk
    | Test                        // lk       about to test `locked`
    | EnterSleep                  // lk       sleep: spinning for ptable.lock
    | DropLk                      // lk, pt   about to release lk
    | MarkAsleep                  // pt       about to set chan and state
    | Switch                      // pt       about to switch to the scheduler
    | Suspended                   //          switched out
    | Resumed                     // pt       switched in again, about to clear chan and release ptable.lock
    | Reacquire                   //          spinning for lk again
    | SetLocked                   // lk       found unlocked, about to set locked and pid
    | LeaveAcquire                // lk       about to release lk
    | Holding                     //          holds the sleep lock
    | EnterRelease                //          releasesleep: spinning for lk
    | ClearLocked                 // lk       about to clear locked and pid
    | EnterWakeup                 // lk       wakeup: spinning for ptable.lock
    | WakeAll                     // lk, pt   about to run wakeup1
    | LeaveWakeup                 // lk, pt   about to release ptable.lock
    | LeaveRelease                // lk       about to release lk
    | EnterQuery(holds: bool)     //          holdingsleep: spinning for lk
    | Query(holds: bool)          // lk       about to read locked and pid
    | LeaveQuery(holds: bool, answer: bool) // lk  about to release lk
    | InTable                     // pt       some other use of the process table, such as kill

  datatype PState = Running | Sleeping | Runnable

  datatype Proc = Proc(pc: Pc, state: PState, chan: bool)

  datatype State = State(
    lk: Option<nat>,       // who holds the inner spin lock
    pt: Option<nat>,       // who holds ptable.lock
    locked: bool,
    pid: Option<nat>,
    procs: map<nat, Proc>)

  predicate HoldsLk(pc: Pc) {
    pc.Test? || pc.EnterSleep? || pc.DropLk? || pc.SetLocked? || pc.LeaveAcquire? || pc.ClearLocked?
    || pc.EnterWakeup? || pc.WakeAll? || pc.LeaveWakeup? || pc.LeaveRelease? || pc.Query? || pc.LeaveQuery?
  }

  predicate HoldsPt(pc: Pc) {
    pc.DropLk? || pc.MarkAsleep? || pc.Switch? || pc.Resumed? || pc.WakeAll? || pc.LeaveWakeup? || pc.InTable?
  }

  /** The process owns the sleep lock, from setting `locked` to clearing it. */
  predicate Owns(pc: Pc) {
    || pc.LeaveAcquire? || pc.Holding? || pc.EnterRelease? || pc.ClearLocked?
    || (pc.EnterQuery? && pc.holds) || (pc.Query? && pc.holds) || (pc.LeaveQuery? && pc.holds)
  }

  /** The process has found the lock taken and is on its way to sleep, or asleep. */
  predicate GoesToSleep(q: Proc) {
    q.pc.EnterSleep? || q.pc.DropLk? || q.pc.MarkAsleep? || q.pc.Switch? || (q.pc.Suspended? && q.state == Sleeping)
  }

  /** The process has cleared `locked` but not yet woken the sleepers. */
  predicate OwesWakeup(pc: Pc) {
    pc.EnterWakeup? || pc.WakeAll?
  }

  // ---- steps ----

  function Goto(s: State, p: nat, pc: Pc): State
    requires p in s.procs
  {
    s.(procs := s.procs[p := s.procs[p].(pc := pc)])
  }

  function Woken(q: Proc): Proc {
    if q.state == Sleeping then q.(state := Runnable) else q
  }

  /** wakeup1 on the lock's channel. */
  function WakeUp1(procs: map<nat, Proc>): map<nat, Proc> {
    map p | p in procs :: if procs[p].chan then Woken(procs[p]) else procs[p]
  }

  ghost predicate AcquireStep(s: State, s': State, p: nat) {
    p in s.procs &&
    match s.procs[p].pc
    case Idle => s' == Goto(s, p, EnterAcquire)
    case EnterAcquire => s.lk.None? && s' == Goto(s.(lk := Some(p)), p, Test)
    case Test => s' == Goto(s, p, if s.locked then EnterSleep else SetLocked)
    case SetLocked => s' == Goto(s.(locked := true, pid := Some(p)), p, LeaveAcquire)
    case LeaveAcquire => s' == Goto(s.(lk := None), p, Holding)
    case _ => false
  }

  ghost predicate SleepStep(s: State, s': State, p: nat) {
    p in s.procs &&
    match s.procs[p].pc
    case EnterSleep => s.pt.None? && s' == Goto(s.(pt := Some(p)), p, DropLk)
    case DropLk => s' == Goto(s.(lk := None), p, MarkAsleep)
    case MarkAsleep => s' == s.(procs := s.procs[p := Proc(Switch, Sleeping, true)])
    case Switch => s' == Goto(s.(pt := None), p, Suspended)
    case _ => false
  }

  ghost predicate ResumeStep(s: State, s': State, p: nat) {
    p in s.procs &&
    match s.procs[p].pc
    case Suspended =>
      s.procs[p].state == Runnable && s.pt.None?
      && s' == s.(pt := Some(p), procs := s.procs[p := s.procs[p].(pc := Resumed, state := Running)])
    case Resumed => s' == s.(pt := None, procs := s.procs[p := s.procs[p].(pc := Reacquire, chan := false)])
    case Reacquire => s.lk.None? && s' == Goto(s.(lk := Some(p)), p, Test)
    case _ => false
  }

  ghost predicate ReleaseStep(s: State, s': State, p: nat) {
    p in s.procs &&
    match s.procs[p].pc
    case Holding => s' == Goto(s, p, EnterRelease)
    case EnterRelease => s.lk.None? && s' == Goto(s.(lk := Some(p)), p, ClearLocked)
    case ClearLocked => s' == Goto(s.(locked := false, pid := None), p, EnterWakeup)
    case _ => false
  }

  ghost predicate WakeupStep(s: State, s': State, p: nat) {
    p in s.procs &&
    match s.procs[p].pc
    case EnterWakeup => s.pt.None? && s' == Goto(s.(pt := Some(p)), p, WakeAll)
    case WakeAll => s' == Goto(s.(procs := WakeUp1(s.procs)), p, LeaveWakeup)
    case LeaveWakeup => s' == Goto(s.(pt := None), p, LeaveRelease)
    case LeaveRelease => s' == Goto(s.(lk := None), p, Idle)
    case _ => false
  }

  ghost predicate QueryStep(s: State, s': State, p: nat) {
    p in s.procs &&
    match s.procs[p].pc
    case Idle => s' == Goto(s, p, EnterQuery(false))
    case Holding => s' == Goto(s, p, EnterQuery(true))
    case EnterQuery(h) => s.lk.None? && s' == Goto(s.(lk := Some(p)), p, Query(h))
    case Query(h) => s' == Goto(s, p, LeaveQuery(h, s.locked && s.pid == Some(p)))
    case LeaveQuery(h, _) => s' == Goto(s.(lk := None), p, if h then Holding else Idle)
    case _ => false
  }

  /** Any other use of the process table; kill wakes a sleeping process. */
  ghost predicate TableStep(s: State, s': State, p: nat, q: nat) {
    p in s.procs &&
    match s.procs[p].pc
    case Idle => s.pt.None? && s' == Goto(s.(pt := Some(p)), p, InTable)
    case InTable =>
      || s' == Goto(s.(pt := None), p, Idle)
      || (q in s.procs && s' == s.(procs := s.procs[q := Woken(s.procs[q])]))
    case _ => false
  }

  ghost predicate Step(s: State, s': State, p: nat, q: nat) {
    || AcquireStep(s, s', p) || SleepStep(s, s', p) || ResumeStep(s, s', p)
    || ReleaseStep(s, s', p) || WakeupStep(s, s', p) || QueryStep(s, s', p)
    || TableStep(s, s', p, q)
  }

  ghost predicate Next(s: State, s': State) {
    exists p, q :: Step(s, s', p, q)
  }

  ghost predicate Init(s: State) {
    && s.lk.None? && s.pt.None? && !s.locked && s.pid.None?
    && forall p | p in s.procs :: s.procs[p] == Proc(Idle, Running, false)
  }

  ghost predicate Follows(run: seq<State>, k: int) {
    0 <= k && k + 1 < |run| && Next(run[k], run[k + 1])
  }

  ghost predicate Run(run: seq<State>) {
    run != [] && Init(run[0]) && forall k | 0 <= k < |run| - 1 :: Follows(run, k)
  }

  // ---- the invariant ----

  ghost predicate LocksAt(s: State, p: nat)
    requires p in s.procs
  {
    && (HoldsLk(s.procs[p].pc) <==> s.lk == Some(p))
    && (HoldsPt(s.procs[p].pc) <==> s.pt == Some(p))
    && (Owns(s.procs[p].pc) <==> s.locked && s.pid == Some(p))
  }

  /** Each spin lock, and the sleep lock, is held by the process that its fields say, and by no other. */
  ghost predicate LocksInv(s: State) {
    && (forall p | p in s.procs :: LocksAt(s, p))
    && (s.locked ==> s.pid.Some? && s.pid.value in s.procs)
    && (s.lk.Some? ==> s.lk.value in s.procs)
  }

  ghost predicate SleepAt(s: State, p: nat)
    requires p in s.procs
  {
    var q := s.procs[p];
    && (q.state == Sleeping ==> q.chan && (q.pc.Switch? || q.pc.Suspended?))
    && (q.pc.Switch? ==> q.state == Sleeping)
    && (q.pc.Suspended? ==> q.state != Running)
    && (q.pc.EnterSleep? || q.pc.DropLk? || q.pc.SetLocked? ==> (s.locked <==> !q.pc.SetLocked?))
    && (GoesToSleep(q) ==> s.locked || OwesInv(s))
    && (q.pc.LeaveQuery? ==> q.pc.answer == q.pc.holds)
  }

  /** The process that holds lk has cleared `locked` and has yet to wake the sleepers. */
  ghost predicate OwesInv(s: State) {
    s.lk.Some? && s.lk.value in s.procs && OwesWakeup(s.procs[s.lk.value].pc)
  }

  ghost predicate SleepInv(s: State) {
    forall p | p in s.procs :: SleepAt(s, p)
  }

  // ---- every step keeps it ----

  /** A lock word that only process `p` may have taken or given up. */
  predicate TurnOf(before: Option<nat>, after: Option<nat>, p: nat) {
    before == after || ((before.None? || before == Some(p)) && (after.None? || after == Some(p)))
  }

  /**
   A step that moves process `p` alone, takes and gives up locks only for it, and leaves no sleeper without a waker.
   */
  ghost predicate Moves(s: State, s': State, p: nat) {
    && p in s.procs && p in s'.procs && s'.procs == s.procs[p := s'.procs[p]]
    && TurnOf(s.lk, s'.lk, p) && TurnOf(s.pt, s'.pt, p)
    && ((s'.locked == s.locked && s'.pid == s.pid)
        || (s.lk == s'.lk == Some(p) && (s.locked ==> s.pid == Some(p)) && (s'.locked ==> s'.pid == Some(p))))
    && (s.locked || OwesInv(s) ==> s'.locked || OwesInv(s'))
  }

  /** Then only process `p` itself has to be looked at. */
  lemma MovesKeep(s: State, s': State, p: nat)
    requires LocksInv(s) && SleepInv(s) && Moves(s, s', p) && LocksAt(s', p) && SleepAt(s', p)
    ensures LocksInv(s') && SleepInv(s')
  {
    forall q | q in s'.procs ensures LocksAt(s', q) && SleepAt(s', q) {
      assert q != p ==> LocksAt(s, q) && SleepAt(s, q) && LocksAt(s, p);
    }
  }

  lemma AcquireMoves(s: State, s': State, p: nat)
    requires p in s.procs && LocksAt(s, p) && SleepAt(s, p) && AcquireStep(s, s', p)
    ensures Moves(s, s', p) && LocksAt(s', p) && SleepAt(s', p)
  {
  }

  lemma QueryMoves(s: State, s': State, p: nat)
    requires p in s.procs && LocksAt(s, p) && SleepAt(s, p) && QueryStep(s, s', p)
    ensures Moves(s, s', p) && LocksAt(s', p) && SleepAt(s', p)
  {
  }

  lemma SleepMoves(s: State, s': State, p: nat)
    requires p in s.procs && LocksAt(s, p) && SleepAt(s, p) && SleepStep(s, s', p)
    ensures Moves(s, s', p) && LocksAt(s', p) && SleepAt(s', p)
  {
  }

  lemma ResumeMoves(s: State, s': State, p: nat)
    requires p in s.procs && LocksAt(s, p) && SleepAt(s, p) && ResumeStep(s, s', p)
    ensures Moves(s, s', p) && LocksAt(s', p) && SleepAt(s', p)
  {
  }

  lemma ReleaseMoves(s: State, s': State, p: nat)
    requires p in s.procs && LocksAt(s, p) && SleepAt(s, p) && ReleaseStep(s, s', p)
    ensures Moves(s, s', p) && LocksAt(s', p) && SleepAt(s', p)
  {
  }

  lemma WakeupMoves(s: State, s': State, p: nat)
    requires p in s.procs && LocksAt(s, p) && SleepAt(s, p) && WakeupStep(s, s', p) && !s.procs[p].pc.WakeAll?
    ensures Moves(s, s', p) && LocksAt(s', p) && SleepAt(s', p)
  {
  }

  /** `wakeup1` runs under both locks, so that nobody is between its test and its sleep. */
  lemma WakeAllKeeps(s: State, s': State, p: nat)
    requires LocksInv(s) && SleepInv(s) && WakeupStep(s, s', p) && s.procs[p].pc.WakeAll?
    ensures LocksInv(s') && SleepInv(s')
  {
    assert LocksAt(s, p);
    forall q | q in s'.procs ensures LocksAt(s', q) && SleepAt(s', q) {
      assert LocksAt(s, q) && SleepAt(s, q);
    }
  }

  lemma TableKeeps(s: State, s': State, p: nat, r: nat)
    requires LocksInv(s) && SleepInv(s) && TableStep(s, s', p, r)
    ensures LocksInv(s') && SleepInv(s')
  {
    assert LocksAt(s, p) && SleepAt(s, p);
    forall q | q in s'.procs ensures LocksAt(s', q) && SleepAt(s', q) {
      assert LocksAt(s, q) && SleepAt(s, q);
    }
  }

  lemma StepKeeps(s: State, s': State)
    requires LocksInv(s) && SleepInv(s) && Next(s, s')
    ensures LocksInv(s') && SleepInv(s')
  {
    var p, q :| Step(s, s', p, q);
    if TableStep(s, s', p, q) {
      TableKeeps(s, s', p, q);
    } else if WakeupStep(s, s', p) && s.procs[p].pc.WakeAll? {
      WakeAllKeeps(s, s', p);
    } else {
      assert Moves(s, s', p) && LocksAt(s', p) && SleepAt(s', p) by {
        assert LocksAt(s, p) && SleepAt(s, p);
        if AcquireStep(s, s', p) {
          AcquireMoves(s, s', p);
        } else if QueryStep(s, s', p) {
          QueryMoves(s, s', p);
        } else if SleepStep(s, s', p) {
          SleepMoves(s, s', p);
        } else if ResumeStep(s, s', p) {
          ResumeMoves(s, s', p);
        } else if ReleaseStep(s, s', p) {
          ReleaseMoves(s, s', p);
        } else {
          WakeupMoves(s, s', p);
        }
      }
      MovesKeep(s, s', p);
    }
  }

  lemma {:induction false} RunInv(run: seq<State>, k: nat)
    requires Run(run) && k < |run|
    ensures LocksInv(run[k]) && SleepInv(run[k])
    decreases k
  {
    if k > 0 {
      RunInv(run, k - 1);
      assert Follows(run, k - 1);
      StepKeeps(run[k - 1], run[k - 1 + 1]);
    }
  }

  // ---- the theorems, over every run ----

  /** At most one process holds the sleep lock, and `holdingsleep` answers yes to it and to no other. */
  lemma MutualExclusion(run: seq<State>, k: nat, p: nat, q: nat)
    requires Run(run) && k < |run| && p in run[k].procs && q in run[k].procs
    ensures Owns(run[k].procs[p].pc) && Owns(run[k].procs[q].pc) ==> p == q
    ensures run[k].procs[p].pc.LeaveQuery? ==> (run[k].procs[p].pc.answer <==> Owns(run[k].procs[p].pc))
  {
    RunInv(run, k);
    assert LocksAt(run[k], p) && LocksAt(run[k], q) && SleepAt(run[k], p);
  }

  /** No lost wakeup: with the inner lock free and `locked` clear, nobody sleeps on the lock or is about to. */
  lemma NoLostWakeup(run: seq<State>, k: nat, p: nat)
    requires Run(run) && k < |run| && p in run[k].procs
    requires run[k].lk.None? && !run[k].locked
    ensures !GoesToSleep(run[k].procs[p])
  {
    RunInv(run, k);
    assert SleepAt(run[k], p);
  }
}
