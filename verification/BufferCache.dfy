/**
 * The buffer cache of `bio.c` as a state machine for any number of processes: each step is a section under
 * `bcache.lock`, or the work of a process that holds the buffer's sleep lock.
 */
module BufferCache {
  type Data = seq<nat>

  datatype Key = Key(dev: nat, block: nat)

  /** A process that has got a buffer and not yet given it back, and the block that it asked for. */
  datatype User = User(process: nat, key: Key)

  datatype Holder = Nobody | Process(id: nat)

  /** `unsaved` marks data that the holder changed and has not yet passed to `bwrite` or `log_write`. */
  datatype Buf = Buf(key: Key, refcnt: nat, users: multiset<User>, holder: Holder,
                     valid: bool, dirty: bool, unsaved: bool, data: Data)

  /**
   `stamp` is when each buffer was last given back by its last user. `saved` is what was last stored for each block.
   */
  datatype Cache = Cache(buf: seq<Buf>, stamp: seq<nat>, clock: nat, disk: seq<Data>, saved: seq<Data>)

  datatype Event =
    | Hit(p: nat, key: Key, b: nat)
    | Recycle(p: nat, key: Key, b: nat)
    | Lock(p: nat, b: nat)
    | Read(p: nat, b: nat)
    | Modify(p: nat, b: nat, data: Data)
    | Bwrite(p: nat, b: nat)
    | LogWrite(p: nat, b: nat)
    | Unlock(p: nat, b: nat)
    | Drop(p: nat, b: nat)

  const EMPTY: Key := Key(0, 0)

  predicate OnDisk(s: Cache, k: Key) {
    k.dev == 1 && k.block < |s.disk|
  }

  predicate Holds(s: Cache, p: nat, b: nat) {
    b < |s.buf| && s.buf[b].holder == Process(p)
  }

  /** A buffer that `bget` may recycle. */
  predicate Idle(x: Buf) {
    x.refcnt == 0 && !x.dirty
  }

  ghost predicate Cached(s: Cache, k: Key) {
    exists b :: 0 <= b < |s.buf| && s.buf[b].key == k
  }

  function SetBuf(s: Cache, b: nat, x: Buf): (r: Cache)
    requires b < |s.buf|
    ensures |r.buf| == |s.buf|
  {
    s.(buf := s.buf[b := x])
  }

  function Store(ds: seq<Data>, k: nat, d: Data): (r: seq<Data>)
    ensures |r| == |ds|
  {
    if k < |ds| then ds[k := d] else ds
  }

  ghost predicate Next(a: Cache, e: Event, s: Cache)
    requires |a.buf| == |a.stamp|
  {
    match e
    case Hit(p, k, b) =>
      && OnDisk(a, k) && b < |a.buf| && a.buf[b].key == k
      && s == SetBuf(a, b, a.buf[b].(refcnt := a.buf[b].refcnt + 1, users := a.buf[b].users + multiset{User(p, k)}))
    case Recycle(p, k, b) =>
      && OnDisk(a, k) && !Cached(a, k) && b < |a.buf| && Idle(a.buf[b])
      && (forall c | 0 <= c < |a.buf| && Idle(a.buf[c]) :: a.stamp[b] <= a.stamp[c])
      && s == SetBuf(a, b,
                     a.buf[b].(key := k, refcnt := 1, users := multiset{User(p, k)}, valid := false, dirty := false))
    case Lock(p, b) =>
      && b < |a.buf| && a.buf[b].holder.Nobody? && User(p, a.buf[b].key) in a.buf[b].users
      && s == SetBuf(a, b, a.buf[b].(holder := Process(p)))
    case Read(p, b) =>
      && Holds(a, p, b) && !a.buf[b].valid && OnDisk(a, a.buf[b].key)
      && s == SetBuf(a, b, a.buf[b].(data := a.disk[a.buf[b].key.block], valid := true))
    case Modify(p, b, d) =>
      && Holds(a, p, b) && a.buf[b].valid
      && s == SetBuf(a, b, a.buf[b].(data := d, unsaved := true))
    case Bwrite(p, b) =>
      && Holds(a, p, b) && a.buf[b].valid
      && s == SetBuf(a, b, a.buf[b].(dirty := false, unsaved := false))
              .(disk := Store(a.disk, a.buf[b].key.block, a.buf[b].data),
                saved := Store(a.saved, a.buf[b].key.block, a.buf[b].data))
    case LogWrite(p, b) =>
      && Holds(a, p, b) && a.buf[b].valid
      && s == SetBuf(a, b, a.buf[b].(dirty := true, unsaved := false))
              .(saved := Store(a.saved, a.buf[b].key.block, a.buf[b].data))
    case Unlock(p, b) =>
      && Holds(a, p, b) && !a.buf[b].unsaved
      && s == SetBuf(a, b, a.buf[b].(holder := Nobody))
    case Drop(p, b) =>
      && b < |a.buf| && User(p, a.buf[b].key) in a.buf[b].users && a.buf[b].holder != Process(p) && a.buf[b].refcnt > 0
      && var x := a.buf[b].(refcnt := a.buf[b].refcnt - 1, users := a.buf[b].users - multiset{User(p, a.buf[b].key)});
         s == if x.refcnt == 0 then SetBuf(a, b, x).(stamp := a.stamp[b := a.clock], clock := a.clock + 1)
           else SetBuf(a, b, x)
  }

  // ---- the invariant ----

  ghost predicate BufOk(s: Cache, b: nat)
    requires b < |s.buf|
  {
    var x := s.buf[b];
    && x.refcnt == |x.users| && (forall u | u in x.users :: u.key == x.key)
    && (x.holder.Process? ==> User(x.holder.id, x.key) in x.users)
    && (x.unsaved ==> x.holder.Process?) && (x.dirty ==> x.valid)
    && (x.refcnt > 0 || x.valid ==> OnDisk(s, x.key))
    && (x.valid && !x.unsaved ==> OnDisk(s, x.key) && |s.saved| == |s.disk| && x.data == s.saved[x.key.block])
  }

  /** The disk holds what was last stored for a block, except where a dirty buffer does. */
  ghost predicate BlockOk(s: Cache, k: nat)
    requires k < |s.disk| == |s.saved|
  {
    s.disk[k] == s.saved[k] || exists b :: 0 <= b < |s.buf| && s.buf[b].key == Key(1, k) && s.buf[b].dirty
  }

  ghost predicate KeysDiffer(s: Cache, b: nat, c: nat)
    requires b < |s.buf| && c < |s.buf|
  {
    b != c && s.buf[b].key == s.buf[c].key ==> s.buf[b].key == EMPTY
  }

  ghost predicate Inv(s: Cache) {
    && |s.stamp| == |s.buf| && |s.saved| == |s.disk|
    && (forall b | 0 <= b < |s.buf| :: BufOk(s, b) && s.stamp[b] < s.clock)
    && (forall k | 0 <= k < |s.disk| :: BlockOk(s, k))
    && (forall b, c | 0 <= b < |s.buf| && 0 <= c < |s.buf| :: KeysDiffer(s, b, c))
  }

  // ---- every step keeps it ----

  /** A step that changes one buffer but neither its block, the disk, nor what is stored, and clears no dirty flag. */
  lemma OneBuffer(a: Cache, s: Cache, b: nat)
    requires Inv(a) && b < |a.buf| == |s.buf| && s == SetBuf(a, b, s.buf[b])
    requires s.buf[b].key == a.buf[b].key && (a.buf[b].dirty ==> s.buf[b].dirty) && BufOk(s, b)
    ensures Inv(s)
  {
    forall c | 0 <= c < |s.buf| ensures BufOk(s, c) && s.stamp[c] < s.clock {
      assert BufOk(a, c);
    }
    forall k | 0 <= k < |s.disk| ensures BlockOk(s, k) {
      assert BlockOk(a, k);
      if c :| 0 <= c < |a.buf| && a.buf[c].key == Key(1, k) && a.buf[c].dirty {
        assert s.buf[c].key == Key(1, k) && s.buf[c].dirty;
      }
    }
    forall c, d | 0 <= c < |s.buf| && 0 <= d < |s.buf| ensures KeysDiffer(s, c, d) {
      assert KeysDiffer(a, c, d);
    }
  }

  /** Recycling: the buffer is clean, so the disk holds what was stored for its old block. */
  lemma RecycleKeeps(a: Cache, s: Cache, p: nat, k: Key, b: nat)
    requires Inv(a) && Next(a, Recycle(p, k, b), s)
    ensures Inv(s)
  {
    assert BufOk(a, b);
    forall c | 0 <= c < |s.buf| ensures BufOk(s, c) && s.stamp[c] < s.clock {
      assert BufOk(a, c);
    }
    forall n | 0 <= n < |s.disk| ensures BlockOk(s, n) {
      assert BlockOk(a, n);
      if c :| 0 <= c < |a.buf| && a.buf[c].key == Key(1, n) && a.buf[c].dirty {
        assert s.buf[c].key == Key(1, n) && s.buf[c].dirty;
      }
    }
    forall c, d | 0 <= c < |s.buf| && 0 <= d < |s.buf| ensures KeysDiffer(s, c, d) {
      assert KeysDiffer(a, c, d);
      assert a.buf[c].key != k && a.buf[d].key != k;
    }
  }

  lemma SaveKeeps(a: Cache, e: Event, s: Cache)
    requires Inv(a) && Next(a, e, s) && (e.Bwrite? || e.LogWrite?)
    ensures Inv(s)
  {
    var b := e.b;
    var n := a.buf[b].key.block;
    assert BufOk(a, b);
    forall c | 0 <= c < |s.buf| ensures BufOk(s, c) && s.stamp[c] < s.clock {
      assert BufOk(a, c) && KeysDiffer(a, b, c);
      if a.buf[c].valid && a.buf[c].key.block == n {
        assert OnDisk(a, a.buf[c].key);
        assert a.buf[c].key == a.buf[b].key;
      }
    }
    forall k | 0 <= k < |s.disk| ensures BlockOk(s, k) {
      assert BlockOk(a, k);
      if k == n {
        assert s.buf[b].key == Key(1, k);
      } else if c :| 0 <= c < |a.buf| && a.buf[c].key == Key(1, k) && a.buf[c].dirty {
        assert s.buf[c].key == Key(1, k) && s.buf[c].dirty;
      }
    }
    forall c, d | 0 <= c < |s.buf| && 0 <= d < |s.buf| ensures KeysDiffer(s, c, d) {
      assert KeysDiffer(a, c, d);
    }
  }

  lemma DropKeeps(a: Cache, s: Cache, p: nat, b: nat)
    requires Inv(a) && Next(a, Drop(p, b), s)
    ensures Inv(s)
  {
    assert BufOk(a, b);
    var s1 := SetBuf(a, b, s.buf[b]);
    assert |s.buf[b].users| == |a.buf[b].users| - 1;
    OneBuffer(a, s1, b);
    forall c | 0 <= c < |s.buf| ensures BufOk(s, c) && s.stamp[c] < s.clock {
      assert BufOk(s1, c);
    }
    forall k | 0 <= k < |s.disk| ensures BlockOk(s, k) {
      assert BlockOk(s1, k);
    }
    forall c, d | 0 <= c < |s.buf| && 0 <= d < |s.buf| ensures KeysDiffer(s, c, d) {
      assert KeysDiffer(s1, c, d);
    }
  }

  lemma ReadIsLatest(a: Cache, b: nat)
    requires Inv(a) && b < |a.buf| && !a.buf[b].valid && OnDisk(a, a.buf[b].key)
    ensures a.disk[a.buf[b].key.block] == a.saved[a.buf[b].key.block]
  {
    var k := a.buf[b].key.block;
    assert BufOk(a, b) && BlockOk(a, k);
    forall c | 0 <= c < |a.buf| && a.buf[c].key == Key(1, k) ensures !a.buf[c].dirty {
      assert KeysDiffer(a, b, c);
    }
  }

  lemma NextKeeps(a: Cache, e: Event, s: Cache)
    requires Inv(a) && Next(a, e, s)
    ensures Inv(s)
  {
    assert BufOk(a, e.b);
    match e {
      case Recycle(p, k, b) => RecycleKeeps(a, s, p, k, b);
      case Drop(p, b) => DropKeeps(a, s, p, b);
      case Bwrite(_, _) => SaveKeeps(a, e, s);
      case LogWrite(_, _) => SaveKeeps(a, e, s);
      case Read(_, b) =>
        ReadIsLatest(a, b);
        OneBuffer(a, s, b);
      case Hit(_, _, b) => OneBuffer(a, s, b);
      case Lock(_, b) => OneBuffer(a, s, b);
      case Modify(_, b, _) => OneBuffer(a, s, b);
      case Unlock(_, b) => OneBuffer(a, s, b);
    }
  }

  // ---- runs ----

  /** After `binit`: no buffer is in use and all of them carry the block number that zeroed memory gives them. */
  ghost predicate Fresh(s: Cache) {
    && |s.stamp| == |s.buf| && s.saved == s.disk
    && (forall b | 0 <= b < |s.buf| :: s.stamp[b] < s.clock && FreshBuf(s.buf[b]))
  }

  predicate FreshBuf(x: Buf) {
    x.key == EMPTY && x.refcnt == 0 && x.users == multiset{} && x.holder.Nobody? && !x.valid && !x.dirty && !x.unsaved
  }

  ghost predicate StepAt(ts: seq<Cache>, es: seq<Event>, k: nat)
    requires |ts| == |es| + 1 && k < |es| && |ts[k].buf| == |ts[k].stamp|
  {
    Next(ts[k], es[k], ts[k + 1])
  }

  ghost predicate Run(ts: seq<Cache>, es: seq<Event>) {
    && |ts| == |es| + 1 && Fresh(ts[0])
    && (forall k | 0 <= k < |ts| :: |ts[k].buf| == |ts[k].stamp|)
    && forall k | 0 <= k < |es| :: StepAt(ts, es, k)
  }

  lemma {:induction false} RunInv(ts: seq<Cache>, es: seq<Event>, n: nat)
    requires Run(ts, es) && n < |ts|
    ensures Inv(ts[n]) && |ts[n].buf| == |ts[0].buf| && |ts[n].disk| == |ts[0].disk|
  {
    if n > 0 {
      RunInv(ts, es, n - 1);
      assert StepAt(ts, es, n - 1);
      NextKeeps(ts[n - 1], es[n - 1], ts[n]);
    }
  }

  /** At most one buffer for each block, apart from the block number that all buffers start with. */
  lemma OneBufferPerBlock(ts: seq<Cache>, es: seq<Event>, n: nat, b: nat, c: nat)
    requires Run(ts, es) && n < |ts| && b < |ts[n].buf| && c < |ts[n].buf|
    requires ts[n].buf[b].key == ts[n].buf[c].key != EMPTY
    ensures b == c
  {
    RunInv(ts, es, n);
    assert KeysDiffer(ts[n], b, c);
  }

  /**
   What was last passed to `bwrite` or `log_write` for block `k` before step `n`, or else what the disk began with.
   */
  ghost function LastStored(ts: seq<Cache>, es: seq<Event>, n: nat, k: nat): Data
    requires Run(ts, es) && n < |ts| && k < |ts[0].disk|
  {
    if n == 0 then ts[0].disk[k]
    else
      var e := es[n - 1];
      if (e.Bwrite? || e.LogWrite?) && e.b < |ts[n - 1].buf| && ts[n - 1].buf[e.b].key == Key(1, k) then
        ts[n - 1].buf[e.b].data
      else
        LastStored(ts, es, n - 1, k)
  }

  lemma {:induction false} SavedIsLast(ts: seq<Cache>, es: seq<Event>, n: nat, k: nat)
    requires Run(ts, es) && n < |ts| && k < |ts[0].disk|
    ensures k < |ts[n].saved| && ts[n].saved[k] == LastStored(ts, es, n, k)
  {
    RunInv(ts, es, n);
    if n > 0 {
      SavedIsLast(ts, es, n - 1, k);
      RunInv(ts, es, n - 1);
      assert StepAt(ts, es, n - 1);
      assert BufOk(ts[n - 1], es[n - 1].b);
    }
  }

  /** `bread` yields the data last stored: so reads every process that holds a valid buffer and has not changed it. */
  lemma BreadLatest(ts: seq<Cache>, es: seq<Event>, n: nat, p: nat, b: nat)
    requires Run(ts, es) && n < |ts| && Holds(ts[n], p, b) && ts[n].buf[b].valid && !ts[n].buf[b].unsaved
    ensures var k := ts[n].buf[b].key;
            && k.dev == 1 && k.block < |ts[0].disk|
            && ts[n].buf[b].data == LastStored(ts, es, n, k.block)
  {
    RunInv(ts, es, n);
    assert BufOk(ts[n], b);
    SavedIsLast(ts, es, n, ts[n].buf[b].key.block);
  }

  /** From `log_write` until the next `bwrite` of it, a buffer stays dirty and keeps its block: it is never recycled. */
  lemma {:induction false} DirtyStays(ts: seq<Cache>, es: seq<Event>, m: nat, n: nat, b: nat)
    requires Run(ts, es) && m <= n < |ts| && b < |ts[m].buf| && ts[m].buf[b].dirty
    requires forall k | m <= k < n :: !(es[k].Bwrite? && es[k].b == b)
    ensures b < |ts[n].buf| && ts[n].buf[b].dirty && ts[n].buf[b].key == ts[m].buf[b].key
  {
    if m < n {
      DirtyStays(ts, es, m, n - 1, b);
      assert StepAt(ts, es, n - 1);
    }
  }

  /** A process that got a buffer has the block it asked for in it until it gives the buffer back. */
  lemma UserKeepsBlock(ts: seq<Cache>, es: seq<Event>, n: nat, b: nat, u: User)
    requires Run(ts, es) && n < |ts| && b < |ts[n].buf| && u in ts[n].buf[b].users
    ensures ts[n].buf[b].key == u.key && ts[n].buf[b].refcnt > 0
  {
    RunInv(ts, es, n);
    assert BufOk(ts[n], b);
  }
}
