/**
 * The process table of `proc.c`, and every critical section on it as one step. Each section runs from taking
 * `ptable.lock` to giving it up, or to handing it over in a context switch.
 */
module ProcTable {
  datatype RunState = Unused | Embryo | Sleeping | Runnable | Running | Zombie

  /** A pointer to a table slot. */
  datatype Link = None | Slot(i: nat)

  /** What a process sleeps on: a process, which only `wait` and `waitx` do, or some other kernel object. */
  datatype Chan = NoChan | OfProc(i: nat) | Other(id: nat)

  datatype Proc = Proc(state: RunState, pid: nat, parent: Link, chan: Chan, killed: bool,
                       ctime: nat, etime: nat, rtime: nat, lastCheck: nat, priority: int)

  /** `forker` says, for a slot that `fork` is filling, which process is in that call of `fork`. */
  datatype Table = Table(proc: seq<Proc>, forker: seq<Link>, nextpid: nat, ticks: nat, init: nat)

  // ---- what the sections do to the table ----

  function Woken(p: Proc, c: Chan): Proc {
    if p.state.Sleeping? && p.chan == c then p.(state := Runnable) else p
  }

  /** `wakeup1`. */
  function WakeAll(ps: seq<Proc>, c: Chan): (r: seq<Proc>)
    ensures |r| == |ps|
  {
    seq(|ps|, i requires 0 <= i < |ps| => Woken(ps[i], c))
  }

  ghost predicate FirstWith(ps: seq<Proc>, ok: Proc -> bool, k: nat) {
    k < |ps| && ok(ps[k]) && forall i | 0 <= i < k :: !ok(ps[i])
  }

  function Born(p: Proc, pid: nat, t1: nat, t2: nat): Proc {
    p.(state := Embryo, pid := pid, ctime := t1, rtime := 0, lastCheck := t2, priority := 60)
  }

  predicate ZombieChild(p: Proc, parent: nat) {
    p.parent == Slot(parent) && p.state.Zombie?
  }

  ghost predicate HasZombie(ps: seq<Proc>, parent: nat) {
    exists k :: 0 <= k < |ps| && ZombieChild(ps[k], parent)
  }

  ghost predicate HasChild(ps: seq<Proc>, parent: nat) {
    exists k :: 0 <= k < |ps| && ps[k].parent == Slot(parent)
  }

  function ChanOf(l: Link): Chan {
    if l.Slot? then OfProc(l.i) else NoChan
  }

  /** A slot after `exit` of the process in slot `cur` woke the parent, gave the children to init, and woke init. */
  ghost function Left(ps: seq<Proc>, i: nat, cur: nat, init: nat): Proc
    requires i < |ps| && cur < |ps|
  {
    var p := Woken(ps[i], ChanOf(ps[cur].parent));
    var q := if p.parent == Slot(cur) then p.(parent := Slot(init)) else p;
    if HasZombie(ps, cur) then Woken(q, OfProc(init)) else q
  }

  ghost function Exited(ps: seq<Proc>, cur: nat, init: nat, now: nat): (r: seq<Proc>)
    requires cur < |ps|
    ensures |r| == |ps|
  {
    seq(|ps|, i requires 0 <= i < |ps| =>
      if i == cur then Left(ps, i, cur, init).(state := Zombie, etime := now) else Left(ps, i, cur, init))
  }

  function Reaped(p: Proc, now: nat): Proc {
    p.(state := Unused, pid := 0, parent := None, killed := false, etime := now)
  }

  function Killed(p: Proc): Proc {
    p.(killed := true, state := if p.state.Sleeping? then Runnable else p.state)
  }

  /** The scheduler's accounting of one slot, with the two values that it reads from the clock. */
  function Accounted(p: Proc, t1: nat, t2: nat): Proc
    requires p.lastCheck <= t1
  {
    p.(rtime := if p.state.Running? then p.rtime + (t1 - p.lastCheck) else p.rtime, lastCheck := t2)
  }

  // ---- steps ----

  datatype Event =
    | Tick
    | Alloc(p: nat, c: nat, t1: nat, t2: nat)
    | ForkFail(p: nat, c: nat)
    | ForkParent(p: nat, c: nat)
    | ForkStart(p: nat, c: nat)
    | Exit(p: nat, now: nat)
    | Reap(p: nat, c: nat, now: nat)
    | WaitSleep(p: nat)
    | Sleep(p: nat, id: nat)
    | Wakeup(id: nat)
    | Tidy(p: nat)
    | Kill(c: nat, pid: nat)
    | Yield(p: nat)
    | Dispatch(p: nat)
    | SetPriority(p: nat, n: int)
    | Account(clock: seq<nat>)

  predicate IsRunning(t: Table, p: nat) {
    p < |t.proc| && t.proc[p].state.Running?
  }

  /** The process is not in the middle of a call of `fork`. */
  ghost predicate Unforking(t: Table, p: nat) {
    forall c | 0 <= c < |t.forker| :: t.forker[c] != Slot(p)
  }

  ghost predicate InFork(t: Table, p: nat, c: nat) {
    p < |t.proc| && c < |t.proc| && c < |t.forker| && t.forker[c] == Slot(p)
  }

  function SetProc(t: Table, i: nat, p: Proc): (r: Table)
    requires i < |t.proc|
    ensures |r.proc| == |t.proc|
  {
    t.(proc := t.proc[i := p])
  }

  /** The clock values that one pass of the accounting loop reads never go back. */
  ghost predicate Clock(clock: seq<nat>, n: nat, from: nat) {
    |clock| == 2 * n && n > 0 && from <= clock[0] && forall k, m | 0 <= k < m < |clock| :: clock[k] <= clock[m]
  }

  ghost predicate AccountedAt(p: Proc, q: Proc, clock: seq<nat>, i: nat)
    requires 2 * i + 1 < |clock|
  {
    p.lastCheck <= clock[2 * i] && q == Accounted(p, clock[2 * i], clock[2 * i + 1])
  }

  ghost predicate Next(a: Table, e: Event, b: Table)
    requires |a.proc| == |a.forker|
  {
    match e
    case Tick =>
      b == a.(ticks := a.ticks + 1)
    case Alloc(p, c, t1, t2) =>
      && IsRunning(a, p) && Unforking(a, p) && FirstWith(a.proc, (x: Proc) => x.state.Unused?, c) && a.ticks <= t1 <= t2
      && b == SetProc(a, c, Born(a.proc[c], a.nextpid, t1, t2)).(forker := a.forker[c := Slot(p)],
                                                                 nextpid := a.nextpid + 1, ticks := t2)
    case ForkFail(p, c) =>
      && InFork(a, p, c) && a.proc[c].parent.None?
      && b == SetProc(a, c, a.proc[c].(state := Unused)).(forker := a.forker[c := None])
    case ForkParent(p, c) =>
      && InFork(a, p, c)
      && b == SetProc(a, c, a.proc[c].(parent := Slot(p)))
    case ForkStart(p, c) =>
      && InFork(a, p, c) && a.proc[c].parent == Slot(p)
      && b == SetProc(a, c, a.proc[c].(state := Runnable)).(forker := a.forker[c := None])
    case Exit(p, now) =>
      && IsRunning(a, p) && Unforking(a, p) && p != a.init && a.ticks <= now
      && b == a.(proc := Exited(a.proc, p, a.init, now), ticks := now)
    case Reap(p, c, now) =>
      && IsRunning(a, p) && Unforking(a, p) && FirstWith(a.proc, (x: Proc) => ZombieChild(x, p), c) && a.ticks <= now
      && b == SetProc(a, c, Reaped(a.proc[c], now)).(ticks := now)
    case WaitSleep(p) =>
      && IsRunning(a, p) && Unforking(a, p) && !HasZombie(a.proc, p) && HasChild(a.proc, p) && !a.proc[p].killed
      && b == SetProc(a, p, a.proc[p].(state := Sleeping, chan := OfProc(p)))
    case Sleep(p, id) =>
      && IsRunning(a, p)
      && b == SetProc(a, p, a.proc[p].(state := Sleeping, chan := Other(id)))
    case Wakeup(id) =>
      b == a.(proc := WakeAll(a.proc, Other(id)))
    case Tidy(p) =>
      && IsRunning(a, p)
      && b == SetProc(a, p, a.proc[p].(chan := NoChan))
    case Kill(c, pid) =>
      && FirstWith(a.proc, (x: Proc) => x.pid == pid, c)
      && b == SetProc(a, c, Killed(a.proc[c]))
    case Yield(p) =>
      && IsRunning(a, p)
      && b == SetProc(a, p, a.proc[p].(state := Runnable))
    case Dispatch(p) =>
      && p < |a.proc| && a.proc[p].state.Runnable?
      && b == SetProc(a, p, a.proc[p].(state := Running))
    case SetPriority(p, n) =>
      && IsRunning(a, p)
      && b == if 0 <= n <= 100 then SetProc(a, p, a.proc[p].(priority := n)) else a
    case Account(clock) =>
      && Clock(clock, |a.proc|, a.ticks) && |b.proc| == |a.proc|
      && b == a.(proc := b.proc, ticks := clock[|clock| - 1])
      && forall i | 0 <= i < |a.proc| :: AccountedAt(a.proc[i], b.proc[i], clock, i)
  }

  // ---- the invariant ----

  predicate Live(s: RunState) {
    s.Sleeping? || s.Runnable? || s.Running?
  }

  predicate Started(s: RunState) {
    Live(s) || s.Zombie?
  }

  predicate TimesOk(p: Proc, ticks: nat) {
    p.ctime + p.rtime <= p.lastCheck <= ticks && 0 <= p.priority <= 100
  }

  predicate LiveSlot(t: Table, l: Link) {
    l.Slot? && l.i < |t.proc| && Live(t.proc[l.i].state)
  }

  /** A started process has a live parent; an embryo has a live forker, and no other parent; an unused slot has none. */
  predicate FamilyOk(t: Table, i: nat)
    requires i < |t.proc| == |t.forker|
  {
    var p := t.proc[i];
    && p.parent != Slot(i) && (i == t.init ==> Live(p.state) && p.parent.None?)
    && (p.state.Embryo? <==> t.forker[i].Slot?)
    && (p.state.Unused? ==> p.parent.None?)
    && (p.state.Embryo? ==> LiveSlot(t, t.forker[i]) && (p.parent.None? || p.parent == t.forker[i]))
    && (Started(p.state) && i != t.init ==> LiveSlot(t, p.parent))
  }

  /** Nobody sleeps in `wait` while one of its children is a zombie. */
  predicate Attended(t: Table, i: nat, c: nat)
    requires i < |t.proc| && c < |t.proc|
  {
    t.proc[i].state.Sleeping? && t.proc[i].chan == OfProc(i) ==> !ZombieChild(t.proc[c], i)
  }

  predicate PidOk(t: Table, i: nat)
    requires i < |t.proc|
  {
    t.proc[i].pid < t.nextpid && (!t.proc[i].state.Unused? ==> t.proc[i].pid > 0)
  }

  predicate PidsDiffer(t: Table, i: nat, j: nat)
    requires i < |t.proc| && j < |t.proc|
  {
    i != j && !t.proc[i].state.Unused? && !t.proc[j].state.Unused? ==> t.proc[i].pid != t.proc[j].pid
  }

  predicate SlotOk(t: Table, i: nat)
    requires i < |t.proc| == |t.forker|
  {
    FamilyOk(t, i) && TimesOk(t.proc[i], t.ticks) && PidOk(t, i)
  }

  predicate PairOk(t: Table, i: nat, j: nat)
    requires i < |t.proc| && j < |t.proc|
  {
    PidsDiffer(t, i, j) && Attended(t, i, j)
  }

  ghost predicate Inv(t: Table) {
    && |t.proc| == |t.forker| && t.init < |t.proc|
    && (forall i | 0 <= i < |t.proc| :: SlotOk(t, i))
    && (forall i, j | 0 <= i < |t.proc| && 0 <= j < |t.proc| :: PairOk(t, i, j))
  }

  // ---- every step keeps it ----

  /** A step that changes one slot, and neither its family nor whether it sleeps in `wait`. */
  ghost predicate Plainly(a: Table, b: Table, i: nat) {
    && i < |a.proc| == |b.proc| == |a.forker| && b == SetProc(a, i, b.proc[i])
    && b.proc[i].pid == a.proc[i].pid && b.proc[i].parent == a.proc[i].parent
    && (b.proc[i].state == a.proc[i].state || (Live(a.proc[i].state) && Live(b.proc[i].state)))
    && (b.proc[i].state.Sleeping? && b.proc[i].chan == OfProc(i) ==>
          b.proc[i].state == a.proc[i].state && b.proc[i].chan == a.proc[i].chan)
    && (TimesOk(a.proc[i], a.ticks) ==> TimesOk(b.proc[i], b.ticks))
  }

  lemma PlainKeeps(a: Table, b: Table, i: nat)
    requires Inv(a) && Plainly(a, b, i)
    ensures Inv(b)
  {
    assert SlotOk(a, i);
    forall k | 0 <= k < |b.proc| ensures SlotOk(b, k) {
      assert SlotOk(a, k);
    }
    forall k, m | 0 <= k < |b.proc| && 0 <= m < |b.proc| ensures PairOk(b, k, m) {
      assert PairOk(a, k, m);
    }
  }

  lemma WaitSleepKeeps(a: Table, b: Table, p: nat)
    requires Inv(a) && Next(a, WaitSleep(p), b)
    ensures Inv(b)
  {
    assert SlotOk(a, p);
    forall k | 0 <= k < |b.proc| ensures SlotOk(b, k) {
      assert SlotOk(a, k);
    }
    forall k, m | 0 <= k < |b.proc| && 0 <= m < |b.proc| ensures PairOk(b, k, m) {
      assert PairOk(a, k, m);
      assert !ZombieChild(a.proc[m], p);
    }
  }

  lemma AllocKeeps(a: Table, b: Table, p: nat, c: nat, t1: nat, t2: nat)
    requires Inv(a) && Next(a, Alloc(p, c, t1, t2), b)
    ensures Inv(b)
  {
    assert SlotOk(a, c) && SlotOk(a, p);
    forall k | 0 <= k < |b.proc| ensures SlotOk(b, k) {
      assert SlotOk(a, k);
    }
    forall k, m | 0 <= k < |b.proc| && 0 <= m < |b.proc| ensures PairOk(b, k, m) {
      assert PairOk(a, k, m);
      assert SlotOk(a, k) && SlotOk(a, m);
    }
  }

  lemma ForkKeeps(a: Table, e: Event, b: Table)
    requires Inv(a) && Next(a, e, b) && (e.ForkFail? || e.ForkParent? || e.ForkStart?)
    ensures Inv(b)
  {
    assert SlotOk(a, e.c) && SlotOk(a, e.p);
    forall k | 0 <= k < |b.proc| ensures SlotOk(b, k) {
      assert SlotOk(a, k);
    }
    forall k, m | 0 <= k < |b.proc| && 0 <= m < |b.proc| ensures PairOk(b, k, m) {
      assert PairOk(a, k, m);
    }
  }

  lemma ReapKeeps(a: Table, b: Table, p: nat, c: nat, now: nat)
    requires Inv(a) && Next(a, Reap(p, c, now), b)
    ensures Inv(b)
  {
    assert SlotOk(a, c) && SlotOk(a, p);
    forall k | 0 <= k < |b.proc| ensures SlotOk(b, k) {
      assert SlotOk(a, k);
    }
    forall k, m | 0 <= k < |b.proc| && 0 <= m < |b.proc| ensures PairOk(b, k, m) {
      assert PairOk(a, k, m);
    }
  }

  lemma WakeupKeeps(a: Table, b: Table, id: nat)
    requires Inv(a) && Next(a, Wakeup(id), b)
    ensures Inv(b)
  {
    forall k | 0 <= k < |b.proc| ensures SlotOk(b, k) {
      assert SlotOk(a, k);
    }
    forall k, m | 0 <= k < |b.proc| && 0 <= m < |b.proc| ensures PairOk(b, k, m) {
      assert PairOk(a, k, m);
    }
  }

  /** What `exit` of slot `p` does to slot `k`. */
  lemma LeftAt(a: Table, b: Table, p: nat, now: nat, k: nat)
    requires Inv(a) && Next(a, Exit(p, now), b) && k < |b.proc| == |a.proc|
    ensures var x, y := a.proc[k], b.proc[k];
            && y == x.(state := y.state, parent := y.parent, etime := y.etime)
            && y.parent == (if x.parent == Slot(p) then Slot(a.init) else x.parent)
            && (if k == p then y.state.Zombie? else y.state == x.state || (x.state.Sleeping? && y.state.Runnable?))
            && (y.state.Sleeping? ==>
                  x.chan != ChanOf(a.proc[p].parent) && (HasZombie(a.proc, p) ==> x.chan != OfProc(a.init)))
  {
  }

  lemma ExitSlot(a: Table, b: Table, p: nat, now: nat, k: nat)
    requires Inv(a) && Next(a, Exit(p, now), b) && k < |b.proc|
    ensures SlotOk(b, k)
  {
    assert SlotOk(a, k) && SlotOk(a, p) && SlotOk(a, a.init) && a.forker[k] != Slot(p);
    LeftAt(a, b, p, now, k);
    LeftAt(a, b, p, now, a.init);
    if LiveSlot(a, a.proc[k].parent) {
      LeftAt(a, b, p, now, a.proc[k].parent.i);
    }
    if LiveSlot(a, a.forker[k]) {
      LeftAt(a, b, p, now, a.forker[k].i);
    }
  }

  lemma ExitPair(a: Table, b: Table, p: nat, now: nat, k: nat, m: nat)
    requires Inv(a) && Next(a, Exit(p, now), b) && k < |b.proc| && m < |b.proc|
    ensures PairOk(b, k, m)
  {
    assert PairOk(a, k, m) && SlotOk(a, p);
    LeftAt(a, b, p, now, k);
    LeftAt(a, b, p, now, m);
    assert ZombieChild(a.proc[m], p) ==> HasZombie(a.proc, p);
  }

  lemma ExitKeeps(a: Table, b: Table, p: nat, now: nat)
    requires Inv(a) && Next(a, Exit(p, now), b)
    ensures Inv(b)
  {
    forall k | 0 <= k < |b.proc| ensures SlotOk(b, k) {
      ExitSlot(a, b, p, now, k);
    }
    forall k, m | 0 <= k < |b.proc| && 0 <= m < |b.proc| ensures PairOk(b, k, m) {
      ExitPair(a, b, p, now, k, m);
    }
  }

  lemma AccountSlot(a: Table, b: Table, clock: seq<nat>, k: nat)
    requires Inv(a) && Next(a, Account(clock), b) && k < |b.proc|
    ensures SlotOk(b, k)
  {
    assert SlotOk(a, k) && AccountedAt(a.proc[k], b.proc[k], clock, k);
    assert LiveSlot(a, a.proc[k].parent) ==>
             AccountedAt(a.proc[a.proc[k].parent.i], b.proc[a.proc[k].parent.i], clock, a.proc[k].parent.i);
    assert LiveSlot(a, a.forker[k]) ==> AccountedAt(a.proc[a.forker[k].i], b.proc[a.forker[k].i], clock, a.forker[k].i);
  }

  lemma AccountKeeps(a: Table, b: Table, clock: seq<nat>)
    requires Inv(a) && Next(a, Account(clock), b)
    ensures Inv(b)
  {
    forall k | 0 <= k < |b.proc| ensures SlotOk(b, k) {
      AccountSlot(a, b, clock, k);
    }
    forall k, m | 0 <= k < |b.proc| && 0 <= m < |b.proc| ensures PairOk(b, k, m) {
      assert PairOk(a, k, m) && AccountedAt(a.proc[k], b.proc[k], clock, k)
             && AccountedAt(a.proc[m], b.proc[m], clock, m);
    }
  }

  lemma TickKeeps(a: Table, b: Table)
    requires Inv(a) && b == a.(ticks := a.ticks + 1)
    ensures Inv(b)
  {
    forall k | 0 <= k < |b.proc| ensures SlotOk(b, k) {
      assert SlotOk(a, k);
    }
    forall k, m | 0 <= k < |b.proc| && 0 <= m < |b.proc| ensures PairOk(b, k, m) {
      assert PairOk(a, k, m);
    }
  }

  /** Every step keeps the invariant. */
  lemma NextKeeps(a: Table, e: Event, b: Table)
    requires Inv(a) && Next(a, e, b)
    ensures Inv(b)
  {
    match e {
      case Tick => TickKeeps(a, b);
      case Alloc(p, c, t1, t2) => AllocKeeps(a, b, p, c, t1, t2);
      case ForkFail(_, _) => ForkKeeps(a, e, b);
      case ForkParent(_, _) => ForkKeeps(a, e, b);
      case ForkStart(_, _) => ForkKeeps(a, e, b);
      case Exit(p, now) => ExitKeeps(a, b, p, now);
      case Reap(p, c, now) => ReapKeeps(a, b, p, c, now);
      case WaitSleep(p) => WaitSleepKeeps(a, b, p);
      case Wakeup(id) => WakeupKeeps(a, b, id);
      case Account(clock) => AccountKeeps(a, b, clock);
      case Kill(c, _) => PlainKeeps(a, b, c);
      case SetPriority(p, n) => if 0 <= n <= 100 { PlainKeeps(a, b, p); }
      case Sleep(p, _) => PlainKeeps(a, b, p);
      case Tidy(p) => PlainKeeps(a, b, p);
      case Yield(p) => PlainKeeps(a, b, p);
      case Dispatch(p) => PlainKeeps(a, b, p);
    }
  }

  // ---- runs ----

  /** The table when the first process may run: every other slot is unused. */
  ghost predicate Booted(t: Table) {
    && |t.proc| == |t.forker| && t.init < |t.proc| && t.proc[t.init].state.Runnable?
    && 0 < t.proc[t.init].pid < t.nextpid
    && TimesOk(t.proc[t.init], t.ticks)
    && forall i | 0 <= i < |t.proc| ::
         t.forker[i].None? && t.proc[i].parent.None? && (i != t.init ==> EmptySlot(t.proc[i]))
  }

  predicate EmptySlot(p: Proc) {
    p.state.Unused? && p.pid == 0 && p.ctime == 0 && p.rtime == 0 && p.lastCheck == 0 && p.priority == 0 && !p.killed
  }

  /** A run: the table before and after each of any number of interleaved steps. */
  ghost predicate Run(ts: seq<Table>, es: seq<Event>) {
    && |ts| == |es| + 1 && Booted(ts[0])
    && (forall k | 0 <= k < |ts| :: |ts[k].proc| == |ts[k].forker|)
    && forall k | 0 <= k < |es| :: StepAt(ts, es, k)
  }

  ghost predicate StepAt(ts: seq<Table>, es: seq<Event>, k: nat)
    requires |ts| == |es| + 1 && k < |es| && |ts[k].proc| == |ts[k].forker|
  {
    Next(ts[k], es[k], ts[k + 1])
  }

  lemma BootedInv(t: Table)
    requires Booted(t)
    ensures Inv(t)
  {
    forall i | 0 <= i < |t.proc| ensures SlotOk(t, i) {
      assert t.forker[i].None?;
    }
  }

  lemma {:induction false} RunInv(ts: seq<Table>, es: seq<Event>, k: nat)
    requires Run(ts, es) && k < |ts|
    ensures Inv(ts[k])
  {
    if k == 0 {
      BootedInv(ts[0]);
    } else {
      RunInv(ts, es, k - 1);
      assert StepAt(ts, es, k - 1);
      NextKeeps(ts[k - 1], es[k - 1], ts[k]);
    }
  }

  /** No missed exit: in every run, at every moment, no process sleeps in `wait` while a child of it is a zombie. */
  lemma NoMissedExit(ts: seq<Table>, es: seq<Event>, k: nat, i: nat, c: nat)
    requires Run(ts, es) && k < |ts| && i < |ts[k].proc| && c < |ts[k].proc|
    requires ts[k].proc[i].state.Sleeping? && ts[k].proc[i].chan == OfProc(i)
    ensures !(ts[k].proc[c].parent == Slot(i) && ts[k].proc[c].state.Zombie?)
  {
    RunInv(ts, es, k);
    assert PairOk(ts[k], i, c);
  }

  /** Every started or zombie process other than init has a parent that is alive, so somebody can still wait for it. */
  lemma LiveParents(ts: seq<Table>, es: seq<Event>, k: nat, i: nat)
    requires Run(ts, es) && k < |ts| && i < |ts[k].proc| && Started(ts[k].proc[i].state) && i != ts[k].init
    ensures LiveSlot(ts[k], ts[k].proc[i].parent) && ts[k].proc[i].parent != Slot(i)
  {
    RunInv(ts, es, k);
    assert SlotOk(ts[k], i);
  }

  lemma DistinctPids(ts: seq<Table>, es: seq<Event>, k: nat, i: nat, j: nat)
    requires Run(ts, es) && k < |ts| && i < |ts[k].proc| && j < |ts[k].proc| && i != j
    requires !ts[k].proc[i].state.Unused? && !ts[k].proc[j].state.Unused?
    ensures ts[k].proc[i].pid != ts[k].proc[j].pid
  {
    RunInv(ts, es, k);
    assert PairOk(ts[k], i, j);
  }

  /** `wait` counts a slot as a child only if it is in use: a slot that was reaped, or never started, has no parent. */
  lemma ChildrenAreReal(ts: seq<Table>, es: seq<Event>, k: nat, c: nat)
    requires Run(ts, es) && k < |ts| && c < |ts[k].proc| && ts[k].proc[c].parent.Slot?
    ensures !ts[k].proc[c].state.Unused?
  {
    RunInv(ts, es, k);
    assert SlotOk(ts[k], c);
  }

  /** The times that `waitx` and the scheduler compute never go below zero, on one snapshot of the table. */
  lemma Accounting(ts: seq<Table>, es: seq<Event>, k: nat, i: nat)
    requires Run(ts, es) && k < |ts| && i < |ts[k].proc|
    ensures var p := ts[k].proc[i];
            && p.ctime + p.rtime <= p.lastCheck <= ts[k].ticks && ts[k].ticks - p.ctime - p.rtime >= 0
            && 0 <= p.priority <= 100
  {
    RunInv(ts, es, k);
    assert SlotOk(ts[k], i);
  }

  // ---- building runs ----

  lemma Extend(ts: seq<Table>, es: seq<Event>, e: Event, t: Table) returns (ts2: seq<Table>, es2: seq<Event>)
    requires Run(ts, es) && Next(ts[|es|], e, t) && |t.proc| == |t.forker|
    ensures Run(ts2, es2) && ts2 == ts + [t] && es2 == es + [e]
  {
    ts2, es2 := ts + [t], es + [e];
    forall k | 0 <= k < |es2| ensures StepAt(ts2, es2, k) {
      assert k < |es| ==> StepAt(ts, es, k);
    }
  }

  /** The table after process `p` forked a child into slot `c`. */
  function Forked(a: Table, p: nat, c: nat): Table
    requires c < |a.proc|
  {
    var child := Born(a.proc[c], a.nextpid, a.ticks, a.ticks).(state := Runnable, parent := Slot(p));
    SetProc(a, c, child).(nextpid := a.nextpid + 1)
  }

  /** The three steps of a `fork` that succeeds. */
  lemma ForkRun(ts: seq<Table>, es: seq<Event>, p: nat, c: nat) returns (ts2: seq<Table>, es2: seq<Event>)
    requires Run(ts, es) && IsRunning(ts[|es|], p) && Unforking(ts[|es|], p)
    requires FirstWith(ts[|es|].proc, (x: Proc) => x.state.Unused?, c)
    ensures c < |ts[|es|].proc| && Run(ts2, es2) && ts2[|es2|] == Forked(ts[|es|], p, c)
  {
    RunInv(ts, es, |es|);
    var a := ts[|es|];
    assert SlotOk(a, c);
    var x := Born(a.proc[c], a.nextpid, a.ticks, a.ticks);
    var t := SetProc(a, c, x).(forker := a.forker[c := Slot(p)], nextpid := a.nextpid + 1);
    ts2, es2 := Extend(ts, es, Alloc(p, c, a.ticks, a.ticks), t);
    var t2 := SetProc(t, c, x.(parent := Slot(p)));
    ts2, es2 := Extend(ts2, es2, ForkParent(p, c), t2);
    var t3 := SetProc(t2, c, x.(parent := Slot(p), state := Runnable)).(forker := t2.forker[c := None]);
    ts2, es2 := Extend(ts2, es2, ForkStart(p, c), t3);
    assert t3.forker == a.forker;
  }

  // ---- kill, and slots that are not in use ----

  ghost predicate NoneMarked(t: Table) {
    forall i | 0 <= i < |t.proc| && t.proc[i].state.Unused? :: !t.proc[i].killed
  }

  /**
   * `allocproc` does not clear `killed`. From a table in which no unused slot is marked, the steps that mark one are
   * exactly a `kill` whose pid is found first in an unused slot, and a `fork` that gives up a child already killed.
   */
  lemma MarkedUnused(a: Table, e: Event, b: Table)
    requires Inv(a) && NoneMarked(a) && Next(a, e, b)
    ensures NoneMarked(b) <==> !((e.Kill? && a.proc[e.c].state.Unused?) || (e.ForkFail? && a.proc[e.c].killed))
  {
    match e {
      case Exit(p, now) =>
        forall k | 0 <= k < |b.proc| && b.proc[k].state.Unused? ensures !b.proc[k].killed {
          LeftAt(a, b, p, now, k);
        }
      case Account(clock) =>
        forall k | 0 <= k < |b.proc| && b.proc[k].state.Unused? ensures !b.proc[k].killed {
          assert AccountedAt(a.proc[k], b.proc[k], clock, k);
        }
      case Kill(c, _) =>
        assert b.proc[c].killed;
      case ForkFail(_, c) =>
        assert b.proc[c].killed == a.proc[c].killed && b.proc[c].state.Unused?;
      case _ =>
    }
  }

  /** `kill(0)` finds an unused slot, and the next child of init is born killed. */
  lemma BornKilled(t: Table) returns (ts: seq<Table>, es: seq<Event>, c: nat)
    requires Booted(t) && |t.proc| >= 2
    ensures Run(ts, es) && ts[0] == t && |es| == 3 && es[1] == Kill(c, 0)
    ensures c < |ts[3].proc| && ts[3].proc[c].state.Embryo? && ts[3].proc[c].killed
  {
    c := if t.init == 0 then 1 else 0;
    var t1 := SetProc(t, t.init, t.proc[t.init].(state := Running));
    var t2 := SetProc(t1, c, Killed(t1.proc[c]));
    var t3 := SetProc(t2, c, Born(t2.proc[c], t.nextpid, t.ticks, t.ticks))
              .(forker := t2.forker[c := Slot(t.init)], nextpid := t.nextpid + 1);
    ts, es := Extend([t], [], Dispatch(t.init), t1);
    ts, es := Extend(ts, es, Kill(c, 0), t2);
    ts, es := Extend(ts, es, Alloc(t.init, c, t.ticks, t.ticks), t3);
  }
}
