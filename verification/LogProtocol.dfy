/**
 The log shared by concurrent file system operations: every interleaving of `begin_op`, `log_write`,
 `end_op`, the single block writes of a commit, and crashes followed by (interrupted) recovery.
 */
module LogProtocol {
  import opened LogDisk
  import opened Log

  /** The disk at the beginning, where its log starts, and the number of blocks in the log. */
  datatype Config = Config(init: Disk, start: nat, size: nat) {
    ghost predicate Ok() {
      start + LOGSIZE < |init| && Cleared(init, start)
    }
  }

  /** An operation between `begin_op` and `end_op`; `checked` if it is past the test in `log_write`. */
  datatype Op = Op(id: nat, blocks: set<nat>, checked: bool)

  /** One `log_write`: which operation stored what in which block. */
  datatype Entry = Entry(id: nat, bno: nat, data: Block)

  datatype State = State(
    disk: Disk,
    cache: map<nat, Block>,
    lh: seq<nat>,
    outstanding: int,
    committing: bool,
    panicked: bool,
    waiting: set<nat>,         // callers asleep in begin_op
    ops: seq<Op>,              // the active operations
    nextId: nat,
    before: Disk,              // the disk when the running commit started,
    plan: seq<Write>,          // the writes it makes,
    done: nat,                 // and how many of them have reached the disk
    hist: seq<Entry>,          // every log_write so far (those that survived the last crash)
    cut: nat,                  // how many of them are durable
    group: nat                 // operations from this id on are not durable yet
  )

  // ---- steps ----

  ghost predicate Init(c: Config, s: State) {
    && s.disk == c.init && s.cache == map[] && s.lh == []
    && s.outstanding == 0 && !s.committing && !s.panicked && s.waiting == {}
    && s.ops == [] && s.nextId == 0
    && s.hist == [] && s.cut == 0 && s.group == 0
  }

  ghost predicate Begin(c: Config, s: State, s': State) {
    && Admits(|s.lh|, s.outstanding, s.committing)
    && s' == s.(outstanding := s.outstanding + 1, ops := s.ops + [Op(s.nextId, {}, false)], nextId := s.nextId + 1)
  }

  ghost predicate BeginSleeps(c: Config, s: State, s': State, who: nat) {
    && !Admits(|s.lh|, s.outstanding, s.committing)
    && s' == s.(waiting := s.waiting + {who})
  }

  /** The unlocked test in `log_write`, made by an operation that has not used up its budget of blocks. */
  ghost predicate Check(c: Config, s: State, s': State, i: nat) {
    && i < |s.ops| && !s.ops[i].checked && |s.ops[i].blocks| < MAXOPBLOCKS
    && s' == if WriteAllowed(|s.lh|, s.outstanding, c.size)
             then s.(ops := s.ops[i := s.ops[i].(checked := true)])
             else s.(panicked := true)
  }

  /** The locked part of `log_write`. */
  ghost predicate Record(c: Config, s: State, s': State, i: nat, b: nat, data: Block) {
    && i < |s.ops| && s.ops[i].checked && Home(b, |c.init|, c.start)
    && s' == s.(lh := Absorb(s.lh, b),
                cache := s.cache[b := data],
                ops := s.ops[i := Op(s.ops[i].id, s.ops[i].blocks + {b}, false)],
                hist := s.hist + [Entry(s.ops[i].id, b, data)])
  }

  function Without(ops: seq<Op>, i: nat): seq<Op>
    requires i < |ops|
  {
    ops[i := ops[|ops| - 1]][..|ops| - 1]
  }

  ghost predicate End(c: Config, s: State, s': State, i: nat) {
    && i < |s.ops| && !s.ops[i].checked
    && c.start < |s.disk| && |s.lh| <= LOGSIZE && (forall k | 0 <= k < |s.lh| :: s.lh[k] in s.cache)
    && var t := s.(outstanding := s.outstanding - 1, ops := Without(s.ops, i));
       s' == if s.committing then t.(panicked := true)
             else if t.outstanding == 0 then
               t.(committing := true, before := s.disk, done := 0,
                  plan := if s.lh == [] then [] else CommitWrites(s.disk[c.start], c.start, s.lh, s.cache))
             else t.(waiting := {})
  }

  /** One block write of the running commit; the header write is the commit point. */
  ghost predicate CommitWrite(c: Config, s: State, s': State) {
    && s.committing && s.done < |s.plan|
    && var t := s.(disk := WriteBlock(s.disk, s.plan[s.done]), done := s.done + 1);
       s' == if s.done == |s.lh| then t.(cut := |s.hist|, group := s.nextId) else t
  }

  ghost predicate CommitDone(c: Config, s: State, s': State) {
    && s.committing && s.done == |s.plan|
    && s' == s.(committing := false, lh := [], cache := map[], waiting := {}, group := s.nextId)
  }

  /** Power is lost, and the machine boots and recovers, losing power during recovery any number of times. */
  ghost predicate Crash(c: Config, s: State, s': State, stops: seq<nat>) {
    && s.cut <= |s.hist|
    && s' == s.(disk := Recovered(s.disk, c.start, stops), cache := map[], lh := [],
                outstanding := 0, committing := false, waiting := {}, ops := [],
                hist := s.hist[..s.cut], group := s.nextId)
  }

  /** A panic halts the machine. */
  ghost predicate Next(c: Config, s: State, s': State) {
    !s.panicked && Step(c, s, s')
  }

  ghost predicate Step(c: Config, s: State, s': State) {
    || Begin(c, s, s')
    || (exists who :: BeginSleeps(c, s, s', who))
    || (exists i :: Check(c, s, s', i))
    || (exists i, b, data :: Record(c, s, s', i, b, data))
    || (exists i :: End(c, s, s', i))
    || CommitWrite(c, s, s')
    || CommitDone(c, s, s')
    || (exists stops :: Crash(c, s, s', stops))
  }

  ghost predicate Run(c: Config, run: seq<State>) {
    && run != []
    && Init(c, run[0])
    && forall k | 0 <= k < |run| - 1 :: Next(c, run[k], run[k + 1])
  }

  // ---- what a history means ----

  /** The disk image after the first stores of a history. */
  function Replay(init: Disk, hist: seq<Entry>): (d: Disk)
    ensures |d| == |init|
  {
    if hist == [] then init
    else
      var e := hist[|hist| - 1];
      WriteBlock(Replay(init, hist[..|hist| - 1]), Write(e.bno, e.data))
  }

  /** Log blocks that the active operations may still add. */
  function Reserved(ops: seq<Op>): int {
    if ops == [] then 0 else Reserved(ops[..|ops| - 1]) + MAXOPBLOCKS - |ops[|ops| - 1].blocks|
  }

  // ---- the invariant ----

  /** The list, its pinned contents and the reservation. */
  ghost predicate ListInv(c: Config, s: State) {
    && c.Ok() && |s.disk| == |c.init|
    && LogList(s.lh, |c.init|, c.start) && Caches(s.cache, s.lh) && |s.cache| == |s.lh|
    && s.outstanding == |s.ops|
    && |s.lh| + Reserved(s.ops) <= LOGSIZE
    && (s.lh == [] ==> s.cut == |s.hist|)
  }

  ghost predicate OpOk(s: State, op: Op) {
    && |op.blocks| <= MAXOPBLOCKS
    && (op.checked ==> |op.blocks| < MAXOPBLOCKS)
    && s.group <= op.id < s.nextId
    && forall b | b in op.blocks :: b in s.lh
  }

  ghost predicate OpsInv(c: Config, s: State) {
    && (forall i | 0 <= i < |s.ops| :: OpOk(s, s.ops[i]))
    && (forall i, j | 0 <= i < j < |s.ops| :: s.ops[i].id != s.ops[j].id)
  }

  /** Durable entries come from operations before `group`, all others from operations since. */
  ghost predicate HistInv(c: Config, s: State) {
    && s.cut <= |s.hist| && s.group <= s.nextId
    && (forall k | 0 <= k < s.cut :: s.hist[k].id < s.group)
    && (forall k | s.cut <= k < |s.hist| :: s.group <= s.hist[k].id < s.nextId)
  }

  ghost predicate DiskInv(c: Config, s: State) {
    && s.cut <= |s.hist|
    && var durable, all := Replay(c.init, s.hist[..s.cut]), Replay(c.init, s.hist);
       if !s.committing then
         && Cleared(s.disk, c.start)
         && SameHomes(s.disk, c.start, durable)
         && SameHomes(Overlay(s.disk, s.cache), c.start, all)
       else
         && s.ops == []
         && |s.before| == |c.init| && Cleared(s.before, c.start)
         && s.done <= |s.plan| && s.disk == Apply(s.before, s.plan[..s.done])
         && (s.lh == [] ==> s.plan == [])
         && (s.lh != [] ==> |s.lh| <= LOGSIZE && Caches(s.cache, s.lh)
                            && s.plan == CommitWrites(s.before[c.start], c.start, s.lh, s.cache))
         && (s.lh == [] || s.done <= |s.lh| ==> SameHomes(s.before, c.start, durable))
         && (s.lh != [] && s.done > |s.lh| ==> s.cut == |s.hist|)
         && SameHomes(Overlay(s.before, s.cache), c.start, all)
  }

  /** An idle log is empty, and a caller of `begin_op` sleeps only while it could not be let in. */
  ghost predicate WaitInv(c: Config, s: State) {
    && (s.ops == [] && !s.committing ==> s.lh == [])
    && (s.waiting != {} ==> !Admits(|s.lh|, s.outstanding, s.committing))
  }

  ghost predicate Inv(c: Config, s: State) {
    && ListInv(c, s) && OpsInv(c, s) && HistInv(c, s) && DiskInv(c, s) && WaitInv(c, s)
    && (c.size > LOGSIZE ==> !s.panicked)
  }

  // ---- the reservation ----

  lemma {:induction false} ReservedBounds(ops: seq<Op>)
    requires forall i | 0 <= i < |ops| :: |ops[i].blocks| <= MAXOPBLOCKS
    ensures 0 <= Reserved(ops) <= MAXOPBLOCKS * |ops|
  {
    if ops != [] {
      ReservedBounds(ops[..|ops| - 1]);
    }
  }

  lemma {:induction false} ReservedUpdate(ops: seq<Op>, i: nat, op: Op)
    requires i < |ops|
    ensures Reserved(ops[i := op]) == Reserved(ops) + |ops[i].blocks| - |op.blocks|
  {
    var ops' := ops[i := op];
    var front := ops[..|ops| - 1];
    if i == |ops| - 1 {
      assert ops'[..|ops| - 1] == front;
    } else {
      assert ops'[..|ops| - 1] == front[i := op];
      ReservedUpdate(front, i, op);
    }
  }

  lemma ReservedAppend(ops: seq<Op>, op: Op)
    ensures Reserved(ops + [op]) == Reserved(ops) + MAXOPBLOCKS - |op.blocks|
  {
    assert (ops + [op])[..|ops|] == ops;
  }

  lemma ReservedWithout(ops: seq<Op>, i: nat)
    requires i < |ops|
    ensures Reserved(Without(ops, i)) == Reserved(ops) + |ops[i].blocks| - MAXOPBLOCKS
  {
    var last := ops[|ops| - 1];
    ReservedUpdate(ops, i, last);
    var ops' := ops[i := last];
    assert ops'[|ops| - 1] == last;
  }

  /** An operation with budget left finds room in the list. */
  lemma RoomLeft(ops: seq<Op>, i: nat)
    requires i < |ops| && |ops[i].blocks| < MAXOPBLOCKS
    requires forall k | 0 <= k < |ops| :: |ops[k].blocks| <= MAXOPBLOCKS
    ensures Reserved(ops) >= 1
  {
    ReservedWithout(ops, i);
    ReservedBounds(Without(ops, i));
  }

  /** Recording a block costs at most as much list space as it uses up of the operation's budget. */
  lemma RecordKeepsReservation(lh: seq<nat>, ops: seq<Op>, i: nat, b: nat, op: Op)
    requires i < |ops| && op.blocks == ops[i].blocks + {b}
    requires forall x | x in ops[i].blocks :: x in lh
    ensures |Absorb(lh, b)| + Reserved(ops[i := op]) <= |lh| + Reserved(ops)
  {
    ReservedUpdate(ops, i, op);
    if b in lh {
      SubsetSize(ops[i].blocks, op.blocks);
    } else {
      assert b !in ops[i].blocks;
    }
  }

  lemma SubsetSize(a: set<nat>, b: set<nat>)
    requires a <= b
    ensures |a| <= |b|
  {
    assert b == a + (b - a);
  }

  // ---- the history ----

  lemma ReplayAppend(init: Disk, hist: seq<Entry>, e: Entry)
    ensures Replay(init, hist + [e]) == WriteBlock(Replay(init, hist), Write(e.bno, e.data))
  {
    assert (hist + [e])[..|hist|] == hist;
  }

  lemma OverlayRecord(d: Disk, start: nat, cache: map<nat, Block>, h: Disk, b: nat, data: Block)
    requires SameHomes(Overlay(d, cache), start, h) && Home(b, |d|, start)
    ensures SameHomes(Overlay(d, cache[b := data]), start, WriteBlock(h, Write(b, data)))
  {
    var o, o' := Overlay(d, cache), Overlay(d, cache[b := data]);
    forall x: nat | Home(x, |o'|, start) ensures o'[x] == h[b := data][x] {
      assert Home(x, |o|, start);
    }
  }

  // ---- every step keeps the invariant ----

  lemma BeginKeeps(c: Config, s: State, s': State)
    requires Inv(c, s) && Begin(c, s, s')
    ensures Inv(c, s')
  {
    ReservedAppend(s.ops, Op(s.nextId, {}, false));
    ReservedBounds(s.ops);
    forall i | 0 <= i < |s'.ops| ensures OpOk(s', s'.ops[i]) {
      assert i < |s.ops| ==> OpOk(s, s.ops[i]);
    }
  }

  lemma BeginSleepsKeeps(c: Config, s: State, s': State, who: nat)
    requires Inv(c, s) && BeginSleeps(c, s, s', who)
    ensures Inv(c, s')
  {
    forall i | 0 <= i < |s'.ops| ensures OpOk(s', s'.ops[i]) {
      assert OpOk(s, s.ops[i]);
    }
  }

  /** With more than LOGSIZE blocks in the log, the test in `log_write` never fails. */
  lemma CheckNeverPanics(c: Config, s: State, s': State, i: nat)
    requires Inv(c, s) && Check(c, s, s', i) && c.size > LOGSIZE && !s.panicked
    ensures !s'.panicked
  {
    forall k | 0 <= k < |s.ops| ensures |s.ops[k].blocks| <= MAXOPBLOCKS {
      assert OpOk(s, s.ops[k]);
    }
    RoomLeft(s.ops, i);
  }

  lemma CheckKeeps(c: Config, s: State, s': State, i: nat)
    requires Inv(c, s) && Check(c, s, s', i) && !s.panicked
    ensures Inv(c, s')
  {
    if c.size > LOGSIZE {
      CheckNeverPanics(c, s, s', i);
    }
    ReservedUpdate(s.ops, i, s.ops[i].(checked := true));
    CheckKeepsOps(c, s, s', i);
  }

  lemma CheckKeepsOps(c: Config, s: State, s': State, i: nat)
    requires OpsInv(c, s) && Check(c, s, s', i)
    ensures OpsInv(c, s')
  {
    forall k | 0 <= k < |s'.ops| ensures OpOk(s', s'.ops[k]) {
      assert OpOk(s, s.ops[k]);
    }
  }

  lemma RecordKeepsOps(c: Config, s: State, s': State, i: nat, b: nat, data: Block)
    requires OpsInv(c, s) && Record(c, s, s', i, b, data)
    ensures OpsInv(c, s')
  {
    assert |s.ops[i].blocks + {b}| <= |s.ops[i].blocks| + 1;
    forall k | 0 <= k < |s'.ops| ensures OpOk(s', s'.ops[k]) {
      assert OpOk(s, s.ops[k]);
    }
  }

  lemma RecordKeepsList(c: Config, s: State, s': State, i: nat, b: nat, data: Block)
    requires ListInv(c, s) && OpsInv(c, s) && OpsInv(c, s') && Record(c, s, s', i, b, data)
    ensures ListInv(c, s')
  {
    assert OpOk(s, s.ops[i]);
    RecordKeepsReservation(s.lh, s.ops, i, b, Op(s.ops[i].id, s.ops[i].blocks + {b}, false));
    forall k | 0 <= k < |s'.ops| ensures |s'.ops[k].blocks| <= MAXOPBLOCKS {
      assert OpOk(s', s'.ops[k]);
    }
    ReservedBounds(s'.ops);
    assert forall k | 0 <= k < |s'.lh| :: s'.lh[k] in s.lh || s'.lh[k] == b;
  }

  lemma RecordKeepsHist(c: Config, s: State, s': State, i: nat, b: nat, data: Block)
    requires OpsInv(c, s) && HistInv(c, s) && Record(c, s, s', i, b, data)
    ensures HistInv(c, s')
  {
    assert OpOk(s, s.ops[i]);
  }

  lemma RecordKeepsDisk(c: Config, s: State, s': State, i: nat, b: nat, data: Block)
    requires |s.disk| == |c.init| && DiskInv(c, s) && Record(c, s, s', i, b, data)
    ensures DiskInv(c, s')
  {
    ReplayAppend(c.init, s.hist, Entry(s.ops[i].id, b, data));
    assert s'.hist[..s.cut] == s.hist[..s.cut];
    OverlayRecord(s.disk, c.start, s.cache, Replay(c.init, s.hist), b, data);
  }

  lemma RecordKeeps(c: Config, s: State, s': State, i: nat, b: nat, data: Block)
    requires Inv(c, s) && Record(c, s, s', i, b, data)
    ensures Inv(c, s')
  {
    RecordKeepsOps(c, s, s', i, b, data);
    RecordKeepsList(c, s, s', i, b, data);
    RecordKeepsHist(c, s, s', i, b, data);
    RecordKeepsDisk(c, s, s', i, b, data);
  }

  lemma EndKeepsList(c: Config, s: State, s': State, i: nat)
    requires ListInv(c, s) && OpsInv(c, s) && End(c, s, s', i)
    ensures ListInv(c, s')
  {
    assert OpOk(s, s.ops[i]);
    ReservedWithout(s.ops, i);
  }

  lemma EndKeepsOps(c: Config, s: State, s': State, i: nat)
    requires OpsInv(c, s) && End(c, s, s', i)
    ensures OpsInv(c, s')
  {
    forall k | 0 <= k < |s'.ops| ensures OpOk(s', s'.ops[k]) {
      assert OpOk(s, s.ops[k]) && OpOk(s, s.ops[|s.ops| - 1]);
    }
  }

  lemma EndKeeps(c: Config, s: State, s': State, i: nat)
    requires Inv(c, s) && End(c, s, s', i)
    ensures Inv(c, s')
  {
    EndKeepsList(c, s, s', i);
    EndKeepsOps(c, s, s', i);
  }

  lemma CommitWriteKeepsDisk(c: Config, s: State, s': State)
    requires DiskInv(c, s) && CommitWrite(c, s, s')
    ensures DiskInv(c, s') && s.lh != []
  {
    assert s'.disk == Apply(s.before, s.plan[..s'.done]) by { ApplyPrefix(s.before, s.plan, s.done); }
    assert s.done == |s.lh| ==> s'.hist[..s'.cut] == s.hist;
  }

  lemma CommitWriteKeeps(c: Config, s: State, s': State)
    requires Inv(c, s) && CommitWrite(c, s, s')
    ensures Inv(c, s')
  {
    CommitWriteKeepsDisk(c, s, s');
  }

  lemma CommitDoneKeeps(c: Config, s: State, s': State)
    requires Inv(c, s) && CommitDone(c, s, s')
    ensures Inv(c, s')
  {
    assert s.plan[..s.done] == s.plan && s.hist[..|s.hist|] == s.hist;
    if s.lh != [] {
      CommitComplete(s.before, c.start, s.lh, s.cache);
    }
  }

  /**
   Crash consistency. In every state, wherever the disk is in a commit and however often recovery is
   interrupted, the home blocks come back holding exactly the durable entries of the history.
   */
  lemma RecoversDurable(c: Config, s: State, stops: seq<nat>)
    requires Inv(c, s)
    ensures var r := Recovered(s.disk, c.start, stops);
            Cleared(r, c.start) && SameHomes(r, c.start, Replay(c.init, s.hist[..s.cut]))
  {
    var durable := Replay(c.init, s.hist[..s.cut]);
    if !s.committing {
      RecoverCleared(s.disk, c.start, durable, stops);
    } else if s.lh == [] {
      RecoverCleared(s.before, c.start, durable, stops);
    } else {
      CrashAtomic(s.before, c.start, s.lh, s.cache, s.done, stops);
      if s.done > |s.lh| {
        assert s.hist[..s.cut] == s.hist;
      }
    }
  }

  lemma CrashKeeps(c: Config, s: State, s': State, stops: seq<nat>)
    requires Inv(c, s) && Crash(c, s, s', stops)
    ensures Inv(c, s')
  {
    RecoversDurable(c, s, stops);
    assert s'.hist[..s'.cut] == s'.hist;
  }

  lemma NextKeeps(c: Config, s: State, s': State)
    requires Inv(c, s) && Next(c, s, s')
    ensures Inv(c, s')
  {
    if Begin(c, s, s') {
      BeginKeeps(c, s, s');
    } else if who :| BeginSleeps(c, s, s', who) {
      BeginSleepsKeeps(c, s, s', who);
    } else if i :| Check(c, s, s', i) {
      CheckKeeps(c, s, s', i);
    } else if i, b, data :| Record(c, s, s', i, b, data) {
      RecordKeeps(c, s, s', i, b, data);
    } else if i :| End(c, s, s', i) {
      EndKeeps(c, s, s', i);
    } else if CommitWrite(c, s, s') {
      CommitWriteKeeps(c, s, s');
    } else if CommitDone(c, s, s') {
      CommitDoneKeeps(c, s, s');
    } else {
      var stops :| Crash(c, s, s', stops);
      CrashKeeps(c, s, s', stops);
    }
  }

  lemma InitInv(c: Config, s: State)
    requires c.Ok() && Init(c, s)
    ensures Inv(c, s)
  {
    assert s.hist[..s.cut] == s.hist;
  }

  lemma {:induction false} RunInv(c: Config, run: seq<State>, k: nat)
    requires c.Ok() && Run(c, run) && k < |run|
    ensures Inv(c, run[k])
    decreases k
  {
    if k == 0 {
      InitInv(c, run[0]);
    } else {
      RunInv(c, run, k - 1);
      NextKeeps(c, run[k - 1], run[k - 1 + 1]);
    }
  }

  // ---- the theorems, over every run ----

  /**
   At any point of any run, a crash and recovery bring back the home blocks with the stores of a set of
   whole operations: no operation is split by the cut, and no operation still active has a store kept.
   */
  lemma CrashConsistency(c: Config, run: seq<State>, k: nat, stops: seq<nat>)
    requires c.Ok() && Run(c, run) && k < |run|
    ensures var s := run[k];
            && s.cut <= |s.hist|
            && SameHomes(Recovered(s.disk, c.start, stops), c.start, Replay(c.init, s.hist[..s.cut]))
            && (forall a, b | 0 <= a < s.cut <= b < |s.hist| :: s.hist[a].id != s.hist[b].id)
            && (forall a, i | 0 <= a < s.cut && 0 <= i < |s.ops| :: s.hist[a].id != s.ops[i].id)
  {
    var s := run[k];
    RunInv(c, run, k);
    RecoversDurable(c, s, stops);
    forall a, i | 0 <= a < s.cut && 0 <= i < |s.ops| ensures s.hist[a].id != s.ops[i].id {
      assert OpOk(s, s.ops[i]);
    }
  }

  /** What readers of the cache see at any point is the whole history, durable or not. */
  lemma CacheSeesHistory(c: Config, run: seq<State>, k: nat)
    requires c.Ok() && Run(c, run) && k < |run| && !run[k].committing
    ensures var s := run[k]; SameHomes(Overlay(s.disk, s.cache), c.start, Replay(c.init, s.hist))
  {
    RunInv(c, run, k);
  }

  /**
   At any point of any run: the list and the unused budgets fit the log, no block is listed twice,
   no operation is active during a commit, nobody sleeps in `begin_op` while nothing else is going on,
   and, if the log has more than LOGSIZE blocks, no panic has been reached.
   */
  lemma Reservation(c: Config, run: seq<State>, k: nat)
    requires c.Ok() && Run(c, run) && k < |run|
    ensures var s := run[k];
            && |s.lh| + Reserved(s.ops) <= LOGSIZE && 0 <= Reserved(s.ops)
            && |s.lh| == |s.cache| && Caches(s.cache, s.lh)
            && s.outstanding == |s.ops|
            && (s.committing ==> s.ops == [])
            && (s.waiting != {} ==> s.committing || s.ops != [])
            && (c.size > LOGSIZE ==> !s.panicked)
  {
    var s := run[k];
    RunInv(c, run, k);
    forall i | 0 <= i < |s.ops| ensures |s.ops[i].blocks| <= MAXOPBLOCKS {
      assert OpOk(s, s.ops[i]);
    }
    ReservedBounds(s.ops);
  }

  /** The commit point makes durable exactly the operations begun so far, all of which have ended. */
  lemma CommitPoint(c: Config, run: seq<State>, k: nat)
    requires c.Ok() && Run(c, run) && k + 1 < |run|
    requires CommitWrite(c, run[k], run[k + 1]) && run[k].done == |run[k].lh|
    ensures var s, s' := run[k], run[k + 1];
            && s'.cut == |s'.hist| && s'.hist == s.hist && s'.ops == []
            && (forall a | 0 <= a < |s.hist| :: s.hist[a].id < s'.group)
            && s'.group == s'.nextId == s.nextId
  {
    RunInv(c, run, k);
  }

  // ---- a log of LOGSIZE blocks or fewer is too small ----

  lemma Extend(c: Config, run: seq<State>, s: State) returns (more: seq<State>)
    requires Run(c, run) && Next(c, run[|run| - 1], s)
    ensures Run(c, more) && |more| > 0 && more[|more| - 1] == s
  {
    more := run + [s];
    forall k | 0 <= k < |more| - 1 ensures Next(c, more[k], more[k + 1]) {
      if k < |run| - 1 {
        assert Next(c, run[k], run[k + 1]);
      }
    }
  }

  /** Three operations are active and have recorded `n` different blocks, ten each, in turn. */
  ghost predicate Filled(c: Config, s: State, base: nat, n: nat) {
    && n < LOGSIZE && !s.panicked && !s.committing
    && |s.ops| == 3 && s.outstanding == 3 && |s.lh| == n
    && (forall b | b in s.lh :: b < base + n)
    && (forall i | 0 <= i < 3 :: !s.ops[i].checked && (forall b | b in s.ops[i].blocks :: b < base + n))
    && |s.ops[n / MAXOPBLOCKS].blocks| == n % MAXOPBLOCKS
    && (forall i | n / MAXOPBLOCKS < i < 3 :: s.ops[i].blocks == {})
  }

  lemma FillNone(c: Config, base: nat) returns (run: seq<State>)
    requires c.Ok()
    ensures Run(c, run) && Filled(c, run[|run| - 1], base, 0)
  {
    var s := State(c.init, map[], [], 0, false, false, {}, [], 0, c.init, [], 0, [], 0, 0);
    var a, b, d := Op(0, {}, false), Op(1, {}, false), Op(2, {}, false);
    var s1 := s.(outstanding := 1, ops := [a], nextId := 1);
    var s2 := s.(outstanding := 2, ops := [a, b], nextId := 2);
    var s3 := s.(outstanding := 3, ops := [a, b, d], nextId := 3);
    assert Begin(c, s, s1) && Begin(c, s1, s2) && Begin(c, s2, s3);
    run := Extend(c, [s], s1);
    run := Extend(c, run, s2);
    run := Extend(c, run, s3);
  }

  lemma FillOne(c: Config, s: State, base: nat, n: nat) returns (t: State, s': State)
    requires Filled(c, s, base, n) && n + 1 < LOGSIZE && n < c.size - 1
    requires Home(base + n, |c.init|, c.start)
    ensures Next(c, s, t) && Next(c, t, s') && Filled(c, s', base, n + 1)
  {
    var i := n / MAXOPBLOCKS;
    var op := s.ops[i];
    t := s.(ops := s.ops[i := op.(checked := true)]);
    assert Check(c, s, t, i);
    var data := c.init[0];
    s' := t.(lh := Absorb(t.lh, base + n), cache := t.cache[base + n := data],
             ops := t.ops[i := Op(op.id, op.blocks + {base + n}, false)],
             hist := t.hist + [Entry(op.id, base + n, data)]);
    assert Record(c, t, s', i, base + n, data);
    assert |op.blocks + {base + n}| == |op.blocks| + 1;
  }

  lemma FillMore(c: Config, run: seq<State>, base: nat, n: nat) returns (more: seq<State>)
    requires Run(c, run) && Filled(c, run[|run| - 1], base, n) && n + 1 < LOGSIZE && n < c.size - 1
    requires Home(base + n, |c.init|, c.start)
    ensures Run(c, more) && Filled(c, more[|more| - 1], base, n + 1)
  {
    var t, s' := FillOne(c, run[|run| - 1], base, n);
    more := Extend(c, run, t);
    more := Extend(c, more, s');
  }

  lemma {:induction false} Fill(c: Config, base: nat, n: nat) returns (run: seq<State>)
    requires c.Ok() && n < LOGSIZE && (n == 0 || n <= c.size - 1)
    requires forall b: nat | base <= b < base + LOGSIZE :: Home(b, |c.init|, c.start)
    ensures Run(c, run) && Filled(c, run[|run| - 1], base, n)
    decreases n
  {
    if n == 0 {
      run := FillNone(c, base);
    } else {
      run := Fill(c, base, n - 1);
      run := FillMore(c, run, base, n - 1);
    }
  }

  /**
   The log size is tight: with LOGSIZE or fewer blocks in the log (mkfs makes exactly LOGSIZE) there is a run
   of operations that each keep to MAXOPBLOCKS, and that panics.
   */
  lemma SmallLogPanics(c: Config) returns (run: seq<State>)
    requires c.Ok() && c.size <= LOGSIZE
    requires c.start + 2 * LOGSIZE < |c.init|
    ensures Run(c, run) && run[|run| - 1].panicked
  {
    var base := c.start + LOGSIZE + 1;
    var n := if c.size == 0 then 0 else c.size - 1;
    run := Fill(c, base, n);
    var s := run[|run| - 1];
    var s' := s.(panicked := true);
    assert Check(c, s, s', n / MAXOPBLOCKS);
    run := Extend(c, run, s');
  }
}
