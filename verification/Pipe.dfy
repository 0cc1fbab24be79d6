/** `pipe.c`: the ring buffer with its wrapping counters, and readers and writers that share it. */
module PipeBuffer {
  const PIPESIZE: nat := 512
  const UINT: nat := 0x1_0000_0000

  type Byte = b: int | 0 <= b < 256

  /** How a pass through the critical section ends. */
  datatype Outcome = Done | Sleeps | Fails

  /** The outcome of a writer that has stored all it could: it finished, or it met a full pipe. */
  function WriteOutcome(finished: bool, readopen: bool, killed: bool): Outcome {
    if finished then Done else if !readopen || killed then Fails else Sleeps
  }

  /** The outcome of a reader that has just got the lock. */
  function ReadOutcome(empty: bool, writeopen: bool, killed: bool): Outcome {
    if !(empty && writeopen) then Done else if killed then Fails else Sleeps
  }

  function Min(a: int, b: int): int {
    if a < b then a else b
  }

  /** Unsigned 32-bit counters meet the full test exactly when the true counts differ by PIPESIZE. */
  lemma FullTest(w: nat, r: nat)
    requires r <= w <= r + PIPESIZE
    ensures w % UINT == (r % UINT + PIPESIZE) % UINT <==> w == r + PIPESIZE
    ensures w % UINT == r % UINT <==> w == r
  {
    var d := w - r;
    assert w % UINT == (r % UINT + d) % UINT;
    if r % UINT + PIPESIZE < UINT {
    } else if r % UINT + d >= UINT {
      assert (r % UINT + d) % UINT == r % UINT + d - UINT;
    }
  }

  /** A wrapped counter still indexes the same slot, because PIPESIZE divides 2^32. */
  lemma SlotOfCounter(w: nat)
    ensures w % UINT % PIPESIZE == w % PIPESIZE
    ensures (w % UINT + 1) % UINT == (w + 1) % UINT
  {
    var q := w / UINT;
    assert w == q * UINT + w % UINT;
    assert q * UINT == q * 0x80_0000 * PIPESIZE;
    assert (q * 0x80_0000 * PIPESIZE + w % UINT) % PIPESIZE == w % UINT % PIPESIZE;
  }

  lemma SlotsDiffer(k: nat, w: nat)
    requires k < w < k + PIPESIZE
    ensures k % PIPESIZE != w % PIPESIZE
  {
  }

  // ---- the ring as a value ----

  /** The fields of `struct pipe` that hold bytes: the slots, and the two counters as 32-bit numbers. */
  datatype Ring = Ring(data: seq<Byte>, nread: nat, nwrite: nat)

  predicate Full(r: Ring) {
    r.nwrite == (r.nread + PIPESIZE) % UINT
  }

  predicate Empty(r: Ring) {
    r.nread == r.nwrite
  }

  function Push(r: Ring, b: Byte): Ring
    requires |r.data| == PIPESIZE
  {
    r.(data := r.data[r.nwrite % PIPESIZE := b], nwrite := (r.nwrite + 1) % UINT)
  }

  function Oldest(r: Ring): Byte
    requires |r.data| == PIPESIZE
  {
    r.data[r.nread % PIPESIZE]
  }

  function Pull(r: Ring): Ring {
    r.(nread := (r.nread + 1) % UINT)
  }

  /**
   The loop of `pipewrite` from byte `i` on, until the buffer ends or the pipe is full: the ring, and how far it got.
   */
  function PutAll(r: Ring, addr: seq<Byte>, i: nat): (p: (Ring, nat))
    requires |r.data| == PIPESIZE && i <= |addr|
    ensures |p.0.data| == PIPESIZE && i <= p.1 <= |addr|
    decreases |addr| - i
  {
    if i == |addr| || Full(r) then (r, i) else PutAll(Push(r, addr[i]), addr, i + 1)
  }

  /** The loop of `piperead` for at most `n` bytes: the ring, and the bytes that came out of its slots. */
  function GetAll(r: Ring, n: nat): (Ring, seq<Byte>)
    requires |r.data| == PIPESIZE
    decreases n
  {
    if n == 0 || Empty(r) then (r, [])
    else
      var (r2, rest) := GetAll(Pull(r), n - 1);
      (r2, [Oldest(r)] + rest)
  }

  /**
   * The ring agrees with a history: of the bytes `accepted` so far all but the first `taken` are still in it, each at
   * its slot, and the counters are the two counts modulo 2^32.
   */
  ghost predicate Holds(r: Ring, accepted: seq<Byte>, taken: nat) {
    && |r.data| == PIPESIZE && taken <= |accepted| <= taken + PIPESIZE
    && r.nwrite == |accepted| % UINT && r.nread == taken % UINT
    && forall k | taken <= k < |accepted| :: InSlot(r.data, accepted, k)
  }

  ghost predicate InSlot(data: seq<Byte>, accepted: seq<Byte>, k: nat)
    requires |data| == PIPESIZE && k < |accepted|
  {
    data[k % PIPESIZE] == accepted[k]
  }

  lemma Tests(r: Ring, accepted: seq<Byte>, taken: nat)
    requires Holds(r, accepted, taken)
    ensures Full(r) <==> |accepted| == taken + PIPESIZE
    ensures Empty(r) <==> |accepted| == taken
  {
    FullTest(|accepted|, taken);
  }

  lemma PushHolds(r: Ring, accepted: seq<Byte>, taken: nat, b: Byte)
    requires Holds(r, accepted, taken) && !Full(r)
    ensures Holds(Push(r, b), accepted + [b], taken)
  {
    Tests(r, accepted, taken);
    var w := |accepted|;
    SlotOfCounter(w);
    forall k | taken <= k < w + 1 ensures InSlot(Push(r, b).data, accepted + [b], k) {
      if k < w {
        SlotsDiffer(k, w);
        assert InSlot(r.data, accepted, k);
      }
    }
  }

  lemma PullHolds(r: Ring, accepted: seq<Byte>, taken: nat)
    requires Holds(r, accepted, taken) && !Empty(r)
    ensures taken < |accepted| && Oldest(r) == accepted[taken] && Holds(Pull(r), accepted, taken + 1)
  {
    Tests(r, accepted, taken);
    SlotOfCounter(taken);
    assert InSlot(r.data, accepted, taken);
  }

  /** A pass of a writer stores as many bytes as there is room for, behind those that are there. */
  lemma {:induction false} PutAllHolds(r: Ring, accepted: seq<Byte>, taken: nat, addr: seq<Byte>, i: nat)
    requires Holds(r, accepted, taken) && i <= |addr|
    ensures var (r2, j) := PutAll(r, addr, i);
            && j == i + Min(|addr| - i, taken + PIPESIZE - |accepted|)
            && Holds(r2, accepted + addr[i..j], taken)
    decreases |addr| - i
  {
    Tests(r, accepted, taken);
    if i == |addr| || Full(r) {
      assert accepted + addr[i..i] == accepted;
    } else {
      PushHolds(r, accepted, taken, addr[i]);
      PutAllHolds(Push(r, addr[i]), accepted + [addr[i]], taken, addr, i + 1);
      var j := PutAll(r, addr, i).1;
      assert accepted + [addr[i]] + addr[i + 1..j] == accepted + addr[i..j];
    }
  }

  /** A pass of a reader takes the oldest bytes, in order, as many as are there and asked for. */
  lemma {:induction false} GetAllHolds(r: Ring, accepted: seq<Byte>, taken: nat, n: nat)
    requires Holds(r, accepted, taken)
    ensures var (r2, bytes) := GetAll(r, n);
            && |bytes| == Min(n, |accepted| - taken)
            && bytes == accepted[taken..taken + |bytes|]
            && Holds(r2, accepted, taken + |bytes|)
    decreases n
  {
    Tests(r, accepted, taken);
    if n > 0 && !Empty(r) {
      PullHolds(r, accepted, taken);
      GetAllHolds(Pull(r), accepted, taken + 1, n - 1);
      var rest := GetAll(Pull(r), n - 1).1;
      assert [accepted[taken]] + accepted[taken + 1..taken + 1 + |rest|] == accepted[taken..taken + 1 + |rest|];
    }
  }

  // ---- the code ----

  class Pipe {
    const data: array<Byte>
    var nread: nat
    var nwrite: nat
    var readopen: bool
    var writeopen: bool

    ghost predicate Valid()
      reads this
    {
      data.Length == PIPESIZE
    }

    ghost function View(): Ring
      reads this, data
    {
      Ring(data[..], nread, nwrite)
    }

    constructor ()
      ensures Valid() && Holds(View(), [], 0) && readopen && writeopen
    {
      data := new Byte[PIPESIZE](_ => 0);
      nread, nwrite, readopen, writeopen := 0, 0, true, true;
    }

    /**
     * One pass of `pipewrite` through its critical section: from the point where it holds the lock
     * with `from` bytes already stored, to the point where it gives the lock up.
     */
    method Write(addr: seq<Byte>, from: nat, killed: bool) returns (i: nat, outcome: Outcome)
      requires Valid() && from <= |addr|
      modifies this`nwrite, data
      ensures Valid()
      ensures (View(), i) == PutAll(old(View()), addr, from)
      ensures outcome == WriteOutcome(i == |addr|, readopen, killed)
    {
      i := from;
      while i < |addr|
        invariant Valid() && from <= i <= |addr|
        invariant PutAll(View(), addr, i) == PutAll(old(View()), addr, from)
      {
        if nwrite == (nread + PIPESIZE) % UINT {
          return i, if !readopen || killed then Fails else Sleeps;
        }
        ghost var r := View();
        data[nwrite % PIPESIZE] := addr[i];
        nwrite := (nwrite + 1) % UINT;
        assert View() == Push(r, addr[i]);
        i := i + 1;
      }
      return i, Done;
    }

    /** One pass of `piperead` through its critical section. */
    method Read(n: nat, killed: bool) returns (bytes: seq<Byte>, outcome: Outcome)
      requires Valid()
      modifies this`nread
      ensures Valid()
      ensures outcome == ReadOutcome(Empty(old(View())), writeopen, killed)
      ensures (View(), bytes) == if outcome == Done then GetAll(old(View()), n) else (old(View()), [])
    {
      bytes := [];
      if nread == nwrite && writeopen {
        return [], if killed then Fails else Sleeps;
      }
      ghost var all := GetAll(View(), n);
      assert bytes + all.1 == all.1;
      while |bytes| < n
        invariant Valid() && |bytes| <= n
        invariant var (r, rest) := GetAll(View(), n - |bytes|); (r, bytes + rest) == all
        decreases n - |bytes|
      {
        if nread == nwrite {
          assert bytes + [] == bytes;
          return bytes, Done;
        }
        ghost var r := View();
        ghost var rest := GetAll(Pull(r), n - |bytes| - 1).1;
        assert bytes + ([Oldest(r)] + rest) == bytes + [Oldest(r)] + rest;
        bytes := bytes + [data[nread % PIPESIZE]];
        nread := (nread + 1) % UINT;
        assert View() == Pull(r);
      }
      assert bytes + [] == bytes;
      return bytes, Done;
    }
  }
}

/** Any number of processes reading, writing, closing and being killed, in any interleaving. */
module PipeProtocol {
  import opened PipeBuffer

  /** What a process is doing with the pipe; `asleep` if it sleeps on the pipe's channel for that side. */
  datatype Activity =
    | Idle
    | Writing(addr: seq<Byte>, i: nat, asleep: bool)
    | Reading(n: nat, asleep: bool)

  /**
   * The state between critical sections, when nobody holds the pipe's lock. `accepted` is what writers have had stored,
   * from their own buffers, and `delivered` what readers have got, out of the ring.
   */
  datatype State = State(
    ring: Ring,
    accepted: seq<Byte>,
    delivered: seq<Byte>,
    readopen: bool,
    writeopen: bool,
    acts: map<nat, Activity>,
    killed: set<nat>)

  function Awake(a: Activity): Activity {
    match a
    case Idle => Idle
    case Writing(addr, i, _) => Writing(addr, i, false)
    case Reading(n, _) => Reading(n, false)
  }

  function WakeReaders(acts: map<nat, Activity>): map<nat, Activity> {
    map p | p in acts :: if acts[p].Reading? then Awake(acts[p]) else acts[p]
  }

  function WakeWriters(acts: map<nat, Activity>): map<nat, Activity> {
    map p | p in acts :: if acts[p].Writing? then Awake(acts[p]) else acts[p]
  }

  // ---- steps ----

  ghost predicate Init(s: State) {
    && |s.ring.data| == PIPESIZE && s.ring.nread == s.ring.nwrite == 0
    && s.accepted == [] && s.delivered == [] && s.readopen && s.writeopen && s.killed == {}
    && forall p | p in s.acts :: s.acts[p].Idle?
  }

  ghost predicate StartWrite(s: State, s': State, p: nat, addr: seq<Byte>) {
    && p in s.acts && s.acts[p].Idle? && s.writeopen
    && s' == s.(acts := s.acts[p := Writing(addr, 0, false)])
  }

  ghost predicate StartRead(s: State, s': State, p: nat, n: nat) {
    && p in s.acts && s.acts[p].Idle? && s.readopen
    && s' == s.(acts := s.acts[p := Reading(n, false)])
  }

  ghost predicate WritePass(s: State, s': State, p: nat) {
    && p in s.acts && s.acts[p].Writing? && !s.acts[p].asleep && |s.ring.data| == PIPESIZE
    && s.acts[p].i <= |s.acts[p].addr|
    && var a := s.acts[p];
       var (ring, i) := PutAll(s.ring, a.addr, a.i);
       s' == s.(ring := ring,
                accepted := s.accepted + a.addr[a.i..i],
                acts := match WriteOutcome(i == |a.addr|, s.readopen, p in s.killed)
                        case Done => WakeReaders(s.acts)[p := Idle]
                        case Sleeps => WakeReaders(s.acts)[p := Writing(a.addr, i, true)]
                        case Fails => s.acts[p := Idle])
  }

  ghost predicate ReadPass(s: State, s': State, p: nat) {
    && p in s.acts && s.acts[p].Reading? && !s.acts[p].asleep && |s.ring.data| == PIPESIZE
    && var outcome := ReadOutcome(Empty(s.ring), s.writeopen, p in s.killed);
       var (ring, bytes) := if outcome == Done then GetAll(s.ring, s.acts[p].n) else (s.ring, []);
       s' == s.(ring := ring,
                delivered := s.delivered + bytes,
                acts := match outcome
                        case Done => WakeWriters(s.acts)[p := Idle]
                        case Sleeps => s.acts[p := Reading(s.acts[p].n, true)]
                        case Fails => s.acts[p := Idle])
  }

  /** An end is closed with its last descriptor, so no process is still using it. */
  ghost predicate CloseWrite(s: State, s': State) {
    && s.writeopen && (forall p | p in s.acts :: !s.acts[p].Writing?)
    && s' == s.(writeopen := false, acts := WakeReaders(s.acts))
  }

  ghost predicate CloseRead(s: State, s': State) {
    && s.readopen && (forall p | p in s.acts :: !s.acts[p].Reading?)
    && s' == s.(readopen := false, acts := WakeWriters(s.acts))
  }

  ghost predicate Kill(s: State, s': State, p: nat) {
    && p in s.acts
    && s' == s.(killed := s.killed + {p}, acts := s.acts[p := Awake(s.acts[p])])
  }

  ghost predicate Next(s: State, s': State) {
    || (exists p, addr :: StartWrite(s, s', p, addr))
    || (exists p, n :: StartRead(s, s', p, n))
    || (exists p :: WritePass(s, s', p))
    || (exists p :: ReadPass(s, s', p))
    || CloseWrite(s, s')
    || CloseRead(s, s')
    || (exists p :: Kill(s, s', p))
  }

  ghost predicate Follows(run: seq<State>, k: int) {
    0 <= k && k + 1 < |run| && Next(run[k], run[k + 1])
  }

  ghost predicate Run(run: seq<State>) {
    run != [] && Init(run[0]) && forall k | 0 <= k < |run| - 1 :: Follows(run, k)
  }

  // ---- invariants ----

  /** First in, first out: what readers got is a prefix of what writers stored, at most PIPESIZE behind. */
  ghost predicate Fifo(s: State) {
    s.delivered <= s.accepted && |s.accepted| <= |s.delivered| + PIPESIZE
  }

  ghost predicate InUse(s: State) {
    forall p | p in s.acts ::
      && (s.acts[p].Writing? ==> s.writeopen && s.acts[p].i <= |s.acts[p].addr|)
      && (s.acts[p].Reading? ==> s.readopen)
  }

  /** No reader sleeps with data or a closed write end; no writer sleeps with space or a closed read end. */
  ghost predicate NoneStranded(s: State) {
    forall p | p in s.acts ::
      && (s.acts[p].Reading? && s.acts[p].asleep ==> |s.accepted| == |s.delivered| && s.writeopen)
      && (s.acts[p].Writing? && s.acts[p].asleep ==> |s.accepted| == |s.delivered| + PIPESIZE && s.readopen)
  }

  /** The ring holds exactly the bytes accepted and not yet delivered. */
  ghost predicate Inv(s: State) {
    Fifo(s) && InUse(s) && Holds(s.ring, s.accepted, |s.delivered|)
  }

  lemma WritePassKeeps(s: State, s': State, p: nat)
    requires Inv(s) && WritePass(s, s', p)
    ensures Inv(s')
    ensures var a := s.acts[p];
            PutAll(s.ring, a.addr, a.i).1 == a.i + Min(|a.addr| - a.i, |s.delivered| + PIPESIZE - |s.accepted|)
  {
    PutAllHolds(s.ring, s.accepted, |s.delivered|, s.acts[p].addr, s.acts[p].i);
    assert s'.accepted[..|s.accepted|] == s.accepted;
  }

  /** The bytes that a reader takes out of the slots are the next ones that were stored. */
  lemma ReadPassKeeps(s: State, s': State, p: nat)
    requires Inv(s) && ReadPass(s, s', p)
    ensures Inv(s')
  {
    GetAllHolds(s.ring, s.accepted, |s.delivered|, s.acts[p].n);
    Tests(s.ring, s.accepted, |s.delivered|);
    var n := |s'.delivered|;
    assert s'.delivered == s.accepted[..n];
  }

  lemma NextKeeps(s: State, s': State)
    requires Inv(s) && Next(s, s')
    ensures Inv(s')
  {
    if p :| WritePass(s, s', p) {
      WritePassKeeps(s, s', p);
    } else if p :| ReadPass(s, s', p) {
      ReadPassKeeps(s, s', p);
    }
  }

  // ---- nobody is left asleep ----

  /** Writer `p` is killed, finds room for some but not all of its bytes, and a reader sleeps. */
  ghost predicate Strands(s: State, s': State, p: nat) {
    && WritePass(s, s', p) && p in s.killed
    && s.acts[p].i < PutAll(s.ring, s.acts[p].addr, s.acts[p].i).1 < |s.acts[p].addr|
    && exists q :: q in s.acts && s.acts[q].Reading? && s.acts[q].asleep
  }

  ghost predicate Stranding(s: State, s': State) {
    exists p :: Strands(s, s', p)
  }

  lemma WritePassStrands(s: State, s': State, p: nat)
    requires Inv(s) && NoneStranded(s) && WritePass(s, s', p)
    ensures NoneStranded(s') <==> !Strands(s, s', p)
  {
    WritePassKeeps(s, s', p);
    var i := PutAll(s.ring, s.acts[p].addr, s.acts[p].i).1;
    if WriteOutcome(i == |s.acts[p].addr|, s.readopen, p in s.killed) == Fails && s.acts[p].i < i {
      if q :| q in s.acts && s.acts[q].Reading? && s.acts[q].asleep {
        assert q in s'.acts && s'.acts[q] == s.acts[q] && |s'.accepted| > |s'.delivered|;
      }
    }
  }

  lemma ReadPassStrandsNobody(s: State, s': State, p: nat)
    requires Inv(s) && NoneStranded(s) && ReadPass(s, s', p)
    ensures NoneStranded(s')
  {
    ReadPassKeeps(s, s', p);
    Tests(s.ring, s.accepted, |s.delivered|);
  }

  /** Of all steps, with or without kills, exactly that one leaves somebody asleep who should be awake. */
  lemma NextStrands(s: State, s': State)
    requires Inv(s) && NoneStranded(s) && Next(s, s')
    ensures NoneStranded(s') <==> !Stranding(s, s')
  {
    if p :| WritePass(s, s', p) {
      WritePassStrands(s, s', p);
      forall q | WritePass(s, s', q) ensures NoneStranded(s') <==> !Strands(s, s', q) {
        WritePassStrands(s, s', q);
      }
    } else if p :| ReadPass(s, s', p) {
      ReadPassStrandsNobody(s, s', p);
    }
  }

  // ---- over every run ----

  lemma {:induction false} RunInv(run: seq<State>, k: nat)
    requires Run(run) && k < |run|
    ensures Inv(run[k])
    decreases k
  {
    if k > 0 {
      RunInv(run, k - 1);
      assert Follows(run, k - 1);
      NextKeeps(run[k - 1], run[k - 1 + 1]);
    }
  }

  /** In every run the bytes that came out are the first of those that went in, and at most PIPESIZE are on the way. */
  lemma RunFifo(run: seq<State>, k: nat)
    requires Run(run) && k < |run|
    ensures run[k].delivered <= run[k].accepted && |run[k].accepted| <= |run[k].delivered| + PIPESIZE
  {
    RunInv(run, k);
  }

  /**
   In every run, kills included, nobody is left asleep up to a moment if and only if no step so far stranded anybody.
   */
  lemma {:induction false} RunStranded(run: seq<State>, k: nat)
    requires Run(run) && k < |run|
    ensures (forall m | 0 <= m <= k :: NoneStranded(run[m])) <==> (forall m | 0 <= m < k :: !StrandsAt(run, m))
    decreases k
  {
    if k > 0 {
      RunStranded(run, k - 1);
      RunInv(run, k - 1);
      assert Follows(run, k - 1);
      if NoneStranded(run[k - 1]) {
        NextStrands(run[k - 1], run[k - 1 + 1]);
      }
      assert StrandsAt(run, k - 1) <==> Stranding(run[k - 1], run[k]);
    }
  }

  ghost predicate StrandsAt(run: seq<State>, m: int) {
    0 <= m && m + 1 < |run| && Stranding(run[m], run[m + 1])
  }

  /** On a run without kills nobody is ever left asleep next to data or space. */
  lemma RunNoneStranded(run: seq<State>, k: nat)
    requires Run(run) && k < |run| && forall m | 0 <= m < k :: run[m].killed == {}
    ensures NoneStranded(run[k])
  {
    RunStranded(run, k);
  }

  /** A killed writer of more than fits in an empty pipe leaves it full. */
  lemma FullPass(s: State, bytes: seq<Byte>) returns (s': State)
    requires Inv(s) && s.accepted == [] && |bytes| > PIPESIZE
    requires 1 in s.killed && 1 in s.acts && s.acts[1] == Writing(bytes, 0, false)
    ensures Next(s, s') && |s'.accepted| == PIPESIZE && s'.delivered == [] && s'.acts == s.acts[1 := Idle]
  {
    PutAllHolds(s.ring, [], 0, bytes, 0);
    assert [] + bytes[0..PIPESIZE] == bytes[0..PIPESIZE];
    s' := s.(ring := PutAll(s.ring, bytes, 0).0, accepted := bytes[0..PIPESIZE], acts := s.acts[1 := Idle]);
    assert WritePass(s, s', 1);
  }

  lemma Extend(run: seq<State>, s: State) returns (more: seq<State>)
    requires Run(run) && Next(run[|run| - 1], s)
    ensures Run(more) && more == run + [s]
  {
    more := run + [s];
    forall k | 0 <= k < |more| - 1 ensures Follows(more, k) {
      assert k < |run| - 1 ==> Follows(run, k);
    }
  }

  /** A new pipe, on which process 0 waits for a byte. */
  lemma ReaderWaits() returns (run: seq<State>)
    ensures Run(run)
    ensures var s := run[|run| - 1];
            && s.acts == map[0 := Reading(1, true), 1 := Idle] && s.killed == {} && s.accepted == s.delivered == []
            && s.writeopen
  {
    var s0 := State(Ring(seq(PIPESIZE, _ => 0), 0, 0), [], [], true, true, map[0 := Idle, 1 := Idle], {});
    var s1 := s0.(acts := map[0 := Reading(1, false), 1 := Idle]);
    var s2 := s0.(acts := map[0 := Reading(1, true), 1 := Idle]);
    assert Next(s0, s1) by { assert StartRead(s0, s1, 0, 1); }
    assert Next(s1, s2) by { assert ReadPass(s1, s2, 0); }
    run := Extend([s0], s1);
    run := Extend(run, s2);
  }

  /** With kills it can happen: a reader sleeps on, with PIPESIZE bytes waiting for it. */
  lemma KilledWriterStrandsReader() returns (run: seq<State>)
    ensures Run(run)
    ensures var s := run[|run| - 1];
            0 in s.acts && s.acts[0] == Reading(1, true) && |s.accepted| == |s.delivered| + PIPESIZE
  {
    run := ReaderWaits();
    RunInv(run, |run| - 1);
    var bytes: seq<Byte> := seq(PIPESIZE + 1, _ => 0);
    var s2 := run[|run| - 1];
    var s3 := s2.(acts := map[0 := Reading(1, true), 1 := Writing(bytes, 0, false)]);
    var s4 := s3.(killed := {1});
    assert Next(s2, s3) by { assert StartWrite(s2, s3, 1, bytes); }
    assert Next(s3, s4) by { assert Kill(s3, s4, 1); }
    var s5 := FullPass(s4, bytes);
    run := Extend(run, s3);
    run := Extend(run, s4);
    run := Extend(run, s5);
  }
}
