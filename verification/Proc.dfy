/** `proc.c` as it runs: the loops over the process table, each proved to be one of the table's steps. */
module Proc {
  import opened ProcTable

  datatype WaitResult = Got(pid: nat) | NoChildren | Slept

  // ---- the stages of a scheduler pass ----

  datatype Stage = Fcfs | ByPriority | RoundRobin

  /** The cases of the scheduler's `switch` have no `break`, so each strategy also runs the stages after its own. */
  function Stages(flag: char): seq<Stage> {
    if flag == 'F' then [Fcfs, ByPriority, RoundRobin]
    else if flag == 'P' then [ByPriority, RoundRobin]
    else if flag == 'M' || flag == 'R' then [RoundRobin]
    else []
  }

  predicate CanRun(t: Table, k: nat) {
    k < |t.proc| && t.proc[k].state.Runnable?
  }

  ghost predicate Oldest(t: Table, k: nat) {
    CanRun(t, k) && forall i | 0 <= i < |t.proc| && CanRun(t, i) :: t.proc[k].ctime <= t.proc[i].ctime
  }

  ghost predicate MostUrgent(t: Table, k: nat) {
    CanRun(t, k) && forall i | 0 <= i < |t.proc| && CanRun(t, i) :: t.proc[k].priority <= t.proc[i].priority
  }

  /** The processes that a stage may run next, of those that are runnable when it looks. */
  ghost predicate CanChoose(s: Stage, t: Table, k: nat) {
    match s
    case Fcfs => Oldest(t, k)
    case ByPriority => MostUrgent(t, k)
    case RoundRobin => CanRun(t, k)
  }

  class Ptable {
    const init: nat
    var proc: seq<Proc>
    ghost var forker: seq<Link>
    var nextpid: nat
    var ticks: nat

    ghost function View(): Table reads this {
      Table(proc, forker, nextpid, ticks, init)
    }

    method Wakeup1(c: Chan)
      modifies this`proc
      ensures proc == WakeAll(old(proc), c)
    {
      for i := 0 to |proc|
        invariant |proc| == |old(proc)|
        invariant forall k | 0 <= k < |proc| :: proc[k] == if k < i then Woken(old(proc)[k], c) else old(proc)[k]
      {
        if proc[i].state.Sleeping? && proc[i].chan == c {
          proc := proc[i := proc[i].(state := Runnable)];
        }
      }
    }

    /** The locked part of `allocproc`; `t1` and `t2` are what its two reads of the clock give. */
    method AllocProc(p: nat, t1: nat, t2: nat) returns (c: Link)
      requires Inv(View()) && IsRunning(View(), p) && Unforking(View(), p) && ticks <= t1 <= t2
      modifies this
      ensures c.None? ==> View() == old(View()) && forall k | 0 <= k < |proc| :: !proc[k].state.Unused?
      ensures c.Slot? ==> Next(old(View()), Alloc(p, c.i, t1, t2), View()) && Inv(View())
    {
      var i := 0;
      while i < |proc|
        invariant i <= |proc| && forall k | 0 <= k < i :: !proc[k].state.Unused?
      {
        if proc[i].state.Unused? {
          proc := proc[i := Born(proc[i], nextpid, t1, t2)];
          nextpid, ticks, forker := nextpid + 1, t2, forker[i := Slot(p)];
          NextKeeps(old(View()), Alloc(p, i, t1, t2), View());
          return Slot(i);
        }
        i := i + 1;
      }
      c := None;
    }

    /** `exit`, from taking the lock to entering the scheduler. */
    method Exit(cur: nat, now: nat)
      requires Inv(View()) && IsRunning(View(), cur) && Unforking(View(), cur) && cur != init && ticks <= now
      modifies this`proc, this`ticks
      ensures Next(old(View()), ProcTable.Exit(cur, now), View()) && Inv(View())
    {
      Wakeup1(ChanOf(proc[cur].parent));
      ghost var woken := proc;
      AdoptNone(woken, cur, init);
      for i := 0 to |proc|
        invariant |proc| == |woken| && ticks == old(ticks) && proc == Adopt(woken, i, cur, init)
      {
        AdoptStep(woken, i, cur, init);
        if proc[i].parent == Slot(cur) {
          proc := proc[i := proc[i].(parent := Slot(init))];
          if proc[i].state.Zombie? {
            Wakeup1(OfProc(init));
          }
        }
      }
      AdoptAll(old(proc), cur, init, now);
      proc := proc[cur := proc[cur].(state := Zombie, etime := now)];
      ticks := now;
      NextKeeps(old(View()), ProcTable.Exit(cur, now), View());
    }

    /** One turn of the loop of `wait` or `waitx`. */
    method Wait(cur: nat, now: nat) returns (r: WaitResult)
      requires Inv(View()) && IsRunning(View(), cur) && Unforking(View(), cur) && ticks <= now
      modifies this
      ensures Inv(View())
      ensures r.Got? <==> HasZombie(old(proc), cur)
      ensures r.Got? ==> exists c: nat :: Next(old(View()), Reap(cur, c, now), View()) && r.pid == old(proc)[c].pid
      ensures r.NoChildren? ==> View() == old(View()) && (!HasChild(proc, cur) || proc[cur].killed)
      ensures r.Slept? ==> Next(old(View()), WaitSleep(cur), View())
    {
      var havekids := false;
      var i := 0;
      while i < |proc|
        invariant i <= |proc| && havekids == exists k :: 0 <= k < i && proc[k].parent == Slot(cur)
        invariant forall k | 0 <= k < i :: !ZombieChild(proc[k], cur)
      {
        if proc[i].parent == Slot(cur) {
          havekids := true;
          if proc[i].state.Zombie? {
            r := Got(proc[i].pid);
            assert ZombieChild(proc[i], cur);
            proc, ticks := proc[i := Reaped(proc[i], now)], now;
            NextKeeps(old(View()), Reap(cur, i, now), View());
            return;
          }
        }
        i := i + 1;
      }
      if !havekids || proc[cur].killed {
        return NoChildren;
      }
      r := Slept;
      proc := proc[cur := proc[cur].(state := Sleeping, chan := OfProc(cur))];
      NextKeeps(old(View()), WaitSleep(cur), View());
    }

    method Kill(pid: nat) returns (ok: bool)
      requires Inv(View())
      modifies this
      ensures Inv(View())
      ensures ok ==> exists c: nat :: Next(old(View()), ProcTable.Kill(c, pid), View())
      ensures !ok ==> View() == old(View()) && forall k | 0 <= k < |proc| :: proc[k].pid != pid
    {
      var i := 0;
      while i < |proc|
        invariant i <= |proc| && forall k | 0 <= k < i :: proc[k].pid != pid
      {
        if proc[i].pid == pid {
          proc := proc[i := Killed(proc[i])];
          assert Next(old(View()), ProcTable.Kill(i, pid), View());
          NextKeeps(old(View()), ProcTable.Kill(i, pid), View());
          return true;
        }
        i := i + 1;
      }
      ok := false;
    }

    /** The accounting loop at the top of a scheduler pass. */
    method UpdateTimes(clock: seq<nat>)
      requires Inv(View()) && Clock(clock, |proc|, ticks)
      modifies this`proc, this`ticks
      ensures Next(old(View()), Account(clock), View()) && Inv(View())
    {
      ghost var was := proc;
      for i := 0 to |proc|
        invariant |proc| == |was| && ticks == old(ticks)
        invariant forall k | 0 <= k < i :: AccountedAt(was[k], proc[k], clock, k)
        invariant forall k | i <= k < |proc| :: proc[k] == was[k]
      {
        assert SlotOk(old(View()), i);
        var p := proc[i];
        if p.state.Running? {
          p := p.(rtime := p.rtime + (clock[2 * i] - p.lastCheck));
        }
        proc := proc[i := p.(lastCheck := clock[2 * i + 1])];
      }
      ticks := clock[|clock| - 1];
      NextKeeps(old(View()), Account(clock), View());
    }

    /** The first-come-first-served scan: a runnable process of least creation time, and the first of those. */
    method PickFcfs() returns (k: Link)
      requires Inv(View())
      ensures k.None? <==> forall i | 0 <= i < |proc| :: !CanRun(View(), i)
      ensures k.Slot? ==> CanChoose(Fcfs, View(), k.i) && forall i | 0 <= i < k.i :: !CanChoose(Fcfs, View(), i)
    {
      k := None;
      var least := ticks + 1000;
      for i := 0 to |proc|
        invariant k.Slot? ==> k.i < i && CanRun(View(), k.i) && proc[k.i].ctime == least
        invariant k.None? ==> least == ticks + 1000
        invariant forall j | 0 <= j < i && CanRun(View(), j) ::
                    k.Slot? && (least < proc[j].ctime || (least == proc[j].ctime && k.i <= j))
      {
        assert SlotOk(View(), i);
        if proc[i].state.Runnable? && proc[i].ctime < least {
          least, k := proc[i].ctime, Slot(i);
        }
      }
    }

    /**
     * The first loop of the priority stage: the least priority number of a runnable process, so that those of this
     * number are exactly the ones to choose; and 101 exactly when nothing is runnable.
     */
    method PickPriority() returns (chosen: int)
      requires Inv(View())
      ensures chosen == 101 <==> forall i | 0 <= i < |proc| :: !CanRun(View(), i)
      ensures chosen != 101 ==> exists i :: 0 <= i < |proc| && CanChoose(ByPriority, View(), i)
      ensures forall i | 0 <= i < |proc| :: CanChoose(ByPriority, View(), i) <==>
                CanRun(View(), i) && proc[i].priority == chosen
    {
      chosen := 101;
      ghost var at := 0;
      for i := 0 to |proc|
        invariant chosen <= 101
        invariant chosen != 101 ==> at < i && CanRun(View(), at) && proc[at].priority == chosen
        invariant forall j | 0 <= j < i && CanRun(View(), j) :: chosen <= proc[j].priority <= 100
      {
        assert SlotOk(View(), i);
        if proc[i].state.Runnable? && proc[i].priority < chosen {
          chosen, at := proc[i].priority, i;
        }
      }
      assert chosen != 101 ==> CanChoose(ByPriority, View(), at);
    }

    /** The second loop of the priority stage, up to the next process that it runs. */
    method NextOfPriority(chosen: int, from: nat) returns (k: nat)
      requires from <= |proc|
      ensures from <= k <= |proc| && (k < |proc| ==> CanRun(View(), k) && proc[k].priority == chosen)
      ensures forall i | from <= i < k :: !(CanRun(View(), i) && proc[i].priority == chosen)
    {
      k := from;
      while k < |proc| && !(proc[k].state.Runnable? && proc[k].priority == chosen)
        invariant from <= k <= |proc| && forall i | from <= i < k :: !(CanRun(View(), i) && proc[i].priority == chosen)
      {
        k := k + 1;
      }
    }
  }

  // ---- one pass of strategy F ----

  /**
   * Strategy F goes on to the priority stage. Whatever table that finds, it may only run a process that is oldest, as
   * the strategy promises, if and only if no runnable process of least priority number is younger than another that
   * can run.
   */
  lemma PriorityAfterFcfs(t: Table)
    ensures (forall k | 0 <= k < |t.proc| && CanChoose(ByPriority, t, k) :: CanChoose(Fcfs, t, k))
            <==> !exists i, j :: 0 <= i < |t.proc| && 0 <= j < |t.proc| && Overtakes(t, i, j)
  {
    if i, j :| 0 <= i < |t.proc| && 0 <= j < |t.proc| && Overtakes(t, i, j) {
      assert CanChoose(ByPriority, t, i) && !CanChoose(Fcfs, t, i);
    }
    forall k | 0 <= k < |t.proc| && CanChoose(ByPriority, t, k) && !CanChoose(Fcfs, t, k)
      ensures exists i, j :: 0 <= i < |t.proc| && 0 <= j < |t.proc| && Overtakes(t, i, j)
    {
      var j :| 0 <= j < |t.proc| && CanRun(t, j) && t.proc[k].ctime > t.proc[j].ctime;
      assert Overtakes(t, k, j);
    }
  }

  /** Runnable process `i` is more urgent than, or as urgent as, all others, and younger than runnable process `j`. */
  ghost predicate Overtakes(t: Table, i: nat, j: nat) {
    MostUrgent(t, i) && CanRun(t, j) && t.proc[j].ctime < t.proc[i].ctime
  }

  /** Init asleep in `wait`, a child of standard priority, and a younger child that set itself a more urgent one. */
  lemma TwoChildren() returns (ts: seq<Table>, es: seq<Event>)
    ensures Run(ts, es)
    ensures var t := ts[|es|];
            && |t.proc| == 3 && t.proc[0].state.Sleeping? && CanRun(t, 1) && CanRun(t, 2)
            && t.proc[1].ctime == 0 && t.proc[1].priority == 60 && t.proc[2].ctime == 1 && t.proc[2].priority == 10
  {
    ts, es := OneChild();
    ts, es := Extend(ts, es, Tick, ts[|es|].(ticks := 1));
    ts, es := ForkRun(ts, es, 0, 2);
    ts, es := MoreUrgent(ts, es, 2, 10);
    ts, es := Waits(ts, es, 0, 1);
  }

  /** A table of three slots; init runs, and has forked a child at time 0. */
  lemma OneChild() returns (ts: seq<Table>, es: seq<Event>)
    ensures Run(ts, es)
    ensures var t := ts[|es|];
            && |t.proc| == 3 && t.ticks == 0 && t.forker == [None, None, None]
            && t.proc[0].state.Running? && !t.proc[0].killed && t.proc[0].parent.None?
            && t.proc[1].state.Runnable? && t.proc[1].ctime == 0 && t.proc[1].priority == 60
            && t.proc[1].parent == Slot(0)
            && t.proc[2].state.Unused?
  {
    var unused := ProcTable.Proc(Unused, 0, None, NoChan, false, 0, 0, 0, 0, 0);
    var t0 := Table([unused.(state := Runnable, pid := 1), unused, unused], [None, None, None], 2, 0, 0);
    assert Booted(t0);
    ts, es := Extend([t0], [], Dispatch(0), SetProc(t0, 0, t0.proc[0].(state := Running)));
    ts, es := ForkRun(ts, es, 0, 1);
  }

  /** Process `p` is run, sets its priority, and yields, as `setpriority` does for a smaller number. */
  lemma MoreUrgent(ts: seq<Table>, es: seq<Event>, p: nat, n: nat) returns (ts2: seq<Table>, es2: seq<Event>)
    requires Run(ts, es) && CanRun(ts[|es|], p) && n < ts[|es|].proc[p].priority <= 100
    ensures Run(ts2, es2) && ts2[|es2|] == SetProc(ts[|es|], p, ts[|es|].proc[p].(priority := n))
  {
    var t := ts[|es|];
    var x := t.proc[p];
    ts2, es2 := Extend(ts, es, Dispatch(p), SetProc(t, p, x.(state := Running)));
    ts2, es2 := Extend(ts2, es2, SetPriority(p, n), SetProc(t, p, x.(state := Running, priority := n)));
    ts2, es2 := Extend(ts2, es2, Yield(p), SetProc(t, p, x.(priority := n)));
  }

  lemma Waits(ts: seq<Table>, es: seq<Event>, p: nat, c: nat) returns (ts2: seq<Table>, es2: seq<Event>)
    requires Run(ts, es) && IsRunning(ts[|es|], p) && Unforking(ts[|es|], p) && !ts[|es|].proc[p].killed
    requires !HasZombie(ts[|es|].proc, p) && c < |ts[|es|].proc| && ts[|es|].proc[c].parent == Slot(p)
    ensures Run(ts2, es2)
    ensures ts2[|es2|] == SetProc(ts[|es|], p, ts[|es|].proc[p].(state := Sleeping, chan := OfProc(p)))
  {
    assert HasChild(ts[|es|].proc, p);
    ts2, es2 := Extend(ts, es, WaitSleep(p),
                       SetProc(ts[|es|], p, ts[|es|].proc[p].(state := Sleeping, chan := OfProc(p))));
  }

  /**
   * A run in which one pass of strategy F breaks first-come-first-served order: its first stage runs `x`, which yields,
   * and then its second stage runs `y`, though `x` is older and can run.
   */
  lemma FallThrough() returns (ts: seq<Table>, es: seq<Event>, n: nat, x: nat, y: nat)
    ensures Stages('F')[..2] == [Fcfs, ByPriority] && Run(ts, es) && |es| == n + 3
    ensures es[n..] == [Dispatch(x), Yield(x), Dispatch(y)]
    ensures CanChoose(Fcfs, ts[n], x) && CanChoose(ByPriority, ts[n + 2], y) && Overtakes(ts[n + 2], y, x)
  {
    ts, es := TwoChildren();
    var t := ts[|es|];
    n, x, y := |es|, 1, 2;
    ts, es := Extend(ts, es, Dispatch(1), SetProc(t, 1, t.proc[1].(state := Running)));
    assert SetProc(SetProc(t, 1, t.proc[1].(state := Running)), 1, t.proc[1]) == t;
    ts, es := Extend(ts, es, Yield(1), t);
    ts, es := Extend(ts, es, Dispatch(2), SetProc(t, 2, t.proc[2].(state := Running)));
  }

  // ---- the loop of `exit` ----

  /** The table when `exit` has passed the children in the first `n` slots to init. */
  ghost function Adopt(ps: seq<ProcTable.Proc>, n: nat, cur: nat, init: nat): (r: seq<ProcTable.Proc>)
    requires n <= |ps|
    ensures |r| == |ps|
  {
    seq(|ps|, k requires 0 <= k < |ps| => Adopted(ps, k, n, cur, init))
  }

  ghost function Adopted(ps: seq<ProcTable.Proc>, k: nat, n: nat, cur: nat, init: nat): ProcTable.Proc
    requires k < |ps| && n <= |ps|
  {
    var p := if k < n && ps[k].parent == Slot(cur) then ps[k].(parent := Slot(init)) else ps[k];
    if ZombieBelow(ps, n, cur) then Woken(p, OfProc(init)) else p
  }

  ghost predicate ZombieBelow(ps: seq<ProcTable.Proc>, n: nat, cur: nat)
    requires n <= |ps|
  {
    exists k :: 0 <= k < n && ZombieChild(ps[k], cur)
  }

  lemma AdoptNone(ps: seq<ProcTable.Proc>, cur: nat, init: nat)
    ensures Adopt(ps, 0, cur, init) == ps
  {
  }

  lemma ZombieNext(ps: seq<ProcTable.Proc>, n: nat, cur: nat)
    requires n < |ps|
    ensures ZombieBelow(ps, n + 1, cur) <==> ZombieBelow(ps, n, cur) || ZombieChild(ps[n], cur)
  {
    if ZombieBelow(ps, n, cur) {
      var k :| 0 <= k < n && ZombieChild(ps[k], cur);
      assert 0 <= k < n + 1;
    }
  }

  lemma AdoptStep(ps: seq<ProcTable.Proc>, n: nat, cur: nat, init: nat)
    requires n < |ps| && cur != init
    ensures var a := Adopt(ps, n, cur, init);
            var b := if ps[n].parent == Slot(cur) then a[n := a[n].(parent := Slot(init))] else a;
            && a[n].parent == ps[n].parent && a[n].state.Zombie? == ps[n].state.Zombie?
            && Adopt(ps, n + 1, cur, init) == if ZombieChild(ps[n], cur) then WakeAll(b, OfProc(init)) else b
  {
    ZombieNext(ps, n, cur);
  }

  lemma AdoptAll(ps: seq<ProcTable.Proc>, cur: nat, init: nat, now: nat)
    requires cur < |ps| && cur != init && ps[cur].state.Running?
    ensures var w := Adopt(WakeAll(ps, ChanOf(ps[cur].parent)), |ps|, cur, init);
            w[cur := w[cur].(state := Zombie, etime := now)] == Exited(ps, cur, init, now)
  {
    var v := WakeAll(ps, ChanOf(ps[cur].parent));
    assert ZombieBelow(v, |ps|, cur) <==> HasZombie(ps, cur) by {
      if HasZombie(ps, cur) {
        var k :| 0 <= k < |ps| && ZombieChild(ps[k], cur);
        assert ZombieChild(v[k], cur);
      }
    }
  }
}
