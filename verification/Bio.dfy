/** The doubly linked list of `bio.c`, and the functions that walk it and relink it. */
module BufferList {
  /** The links of all buffers, numbered from 0; the list head has the number after the last buffer. */
  datatype Links = Links(next: seq<nat>, prev: seq<nat>)

  /** The nodes in list order: the head, the buffers, and the head again. */
  function Node(order: seq<nat>, i: nat): nat
    requires i <= |order| + 1
  {
    if 1 <= i <= |order| then order[i - 1] else |order|
  }

  ghost predicate LinkAt(l: Links, order: seq<nat>, i: nat)
    requires i <= |order|
  {
    var a, b := Node(order, i), Node(order, i + 1);
    a < |l.next| && b < |l.prev| && l.next[a] == b && l.prev[b] == a
  }

  /** `order` lists every buffer once; `pos` is where. */
  ghost predicate Permutation(order: seq<nat>, pos: seq<nat>) {
    && |pos| == |order|
    && (forall i | 0 <= i < |order| :: order[i] < |order| && pos[order[i]] == i)
    && (forall b | 0 <= b < |order| :: pos[b] < |order| && order[pos[b]] == b)
  }

  /** The links form one circle through the head and, in the given order, all buffers. */
  ghost predicate Circle(l: Links, order: seq<nat>, pos: seq<nat>) {
    && Permutation(order, pos) && |l.next| == |order| + 1 && |l.prev| == |order| + 1
    && forall i | 0 <= i <= |order| :: LinkAt(l, order, i)
  }

  function Moved(order: seq<nat>, i: nat): (r: seq<nat>)
    requires i < |order|
    ensures |r| == |order|
  {
    seq(|order|, k requires 0 <= k < |order| => if k == 0 then order[i] else if k <= i then order[k - 1] else order[k])
  }

  function MovedPos(pos: seq<nat>, i: nat): (r: seq<nat>)
    ensures |r| == |pos|
  {
    seq(|pos|, b requires 0 <= b < |pos| => if pos[b] == i then 0 else if pos[b] < i then pos[b] + 1 else pos[b])
  }

  lemma MovedPermutation(order: seq<nat>, pos: seq<nat>, i: nat)
    requires Permutation(order, pos) && i < |order|
    ensures Permutation(Moved(order, i), MovedPos(pos, i))
  {
  }

  /** The six assignments of `brelse` that take a buffer out of the list and put it behind the head. */
  function ToFront(l: Links, b: nat): Links
    requires |l.next| == |l.prev| && 0 < |l.next| && b < |l.next|
    requires l.next[b] < |l.next| && l.prev[b] < |l.next|
  {
    var head := |l.next| - 1;
    var prev := l.prev[l.next[b] := l.prev[b]];
    var next := l.next[prev[b] := l.next[b]];
    var next2 := next[b := next[head]];
    var prev2 := prev[b := head];
    if next2[head] < |prev2| then Links(next2[head := b], prev2[next2[head] := b]) else l
  }

  lemma Linked(l: Links, order: seq<nat>, pos: seq<nat>, i: nat)
    requires Circle(l, order, pos) && i < |order|
    ensures var b := order[i]; b < |order| && l.prev[b] == Node(order, i) && l.next[b] == Node(order, i + 2)
  {
    assert LinkAt(l, order, i) && LinkAt(l, order, i + 1);
  }

  lemma ToFrontCircle(l: Links, order: seq<nat>, pos: seq<nat>, i: nat)
    requires Circle(l, order, pos) && i < |order|
    ensures order[i] < |l.next| == |l.prev| && l.next[order[i]] < |l.next| && l.prev[order[i]] < |l.next|
    ensures Circle(ToFront(l, order[i]), Moved(order, i), MovedPos(pos, i))
  {
    Linked(l, order, pos, i);
    MovedPermutation(order, pos, i);
    forall k | 0 <= k <= |order| ensures LinkAt(ToFront(l, order[i]), Moved(order, i), k) {
      ToFrontLink(l, order, pos, i, k);
    }
  }

  lemma ToFrontLink(l: Links, order: seq<nat>, pos: seq<nat>, i: nat, k: nat)
    requires Circle(l, order, pos) && i < |order| && k <= |order|
    requires order[i] < |l.next| == |l.prev| && l.next[order[i]] < |l.next| && l.prev[order[i]] < |l.next|
    ensures LinkAt(ToFront(l, order[i]), Moved(order, i), k)
  {
    Linked(l, order, pos, i);
    assert LinkAt(l, order, 0) && LinkAt(l, order, |order|) && LinkAt(l, order, k);
    if k > 0 {
      assert LinkAt(l, order, k - 1);
    }
  }
}

module Bio {
  import opened BufferCache
  import opened BufferList

  datatype Got = Buffer(b: nat) | NoBuffers

  /** The list holds the buffers from the most to the least recently released. */
  ghost predicate ByStamp(order: seq<nat>, stamp: seq<nat>) {
    forall i, j | 0 <= i < j < |order| :: Newer(order, stamp, i, j)
  }

  ghost predicate Newer(order: seq<nat>, stamp: seq<nat>, i: nat, j: nat)
    requires i < |order| && j < |order|
  {
    order[i] < |stamp| && order[j] < |stamp| && stamp[order[i]] > stamp[order[j]]
  }

  lemma MovedByStamp(order: seq<nat>, pos: seq<nat>, stamp: seq<nat>, clock: nat, i: nat)
    requires Permutation(order, pos) && ByStamp(order, stamp) && |stamp| == |order| && i < |order|
    requires forall b | 0 <= b < |stamp| :: stamp[b] < clock
    ensures ByStamp(Moved(order, i), stamp[order[i] := clock])
  {
    var order2, stamp2 := Moved(order, i), stamp[order[i] := clock];
    forall x, y | 0 <= x < y < |order2| ensures Newer(order2, stamp2, x, y) {
      var y0 := if y <= i then y - 1 else y;
      assert order2[y] == order[y0];
      if x > 0 {
        var x0 := if x <= i then x - 1 else x;
        assert Newer(order, stamp, x0, y0);
      }
    }
  }

  class Bcache {
    var buf: seq<Buf>
    var links: Links
    var disk: seq<Data>
    ghost var order: seq<nat>
    ghost var pos: seq<nat>
    ghost var stamp: seq<nat>
    ghost var clock: nat
    ghost var saved: seq<Data>

    ghost function View(): Cache reads this {
      Cache(buf, stamp, clock, disk, saved)
    }

    ghost predicate Valid() reads this {
      Inv(View()) && |order| == |buf| && Circle(links, order, pos) && ByStamp(order, stamp)
    }

    /** `binit`: each buffer in turn goes behind the head. */
    constructor (n: nat, disk: seq<Data>)
      ensures Valid() && |buf| == n && this.disk == disk && Fresh(View())
    {
      var fresh0 := Buf(EMPTY, 0, multiset{}, Nobody, false, false, false, []);
      var next, prev := seq(n + 1, k => n), seq(n + 1, k => n);
      for b := 0 to n
        invariant |next| == n + 1 && |prev| == n + 1
        invariant next[n] == (if b == 0 then n else b - 1) && prev[n] == (if b == 0 then n else 0)
        invariant forall k | 0 <= k < b ::
                    next[k] == (if k == 0 then n else k - 1) && prev[k] == (if k == b - 1 then n else k + 1)
      {
        next := next[b := next[n]];
        prev := prev[b := n];
        prev := prev[next[n] := b];
        next := next[n := b];
      }
      this.disk, saved, clock := disk, disk, n;
      buf := seq(n, k => fresh0);
      links := Links(next, prev);
      order := seq(n, k requires 0 <= k < n => n - 1 - k);
      pos := seq(n, k requires 0 <= k < n => n - 1 - k);
      stamp := seq(n, k => k);
      new;
      forall i | 0 <= i <= n ensures LinkAt(links, order, i) {
      }
      forall i, j | 0 <= i < j < n ensures Newer(order, stamp, i, j) {
      }
    }

    /**
     A buffer for the block, with a reference to it: the one that caches it, or the least recently released idle one.
     */
    method Bget(p: nat, k: Key) returns (r: Got)
      requires Valid() && OnDisk(View(), k)
      modifies this
      ensures Valid()
      ensures r.Buffer? ==> r.b < |buf| && buf[r.b].key == k && User(p, k) in buf[r.b].users
      ensures r.Buffer? ==>
                Next(old(View()), if old(Cached(View(), k)) then Hit(p, k, r.b) else Recycle(p, k, r.b), View())
      ensures r.NoBuffers? <==> old(!Cached(View(), k) && forall c | 0 <= c < |buf| :: !BufferCache.Idle(buf[c]))
      ensures r.NoBuffers? ==> View() == old(View())
    {
      var found := Find(k);
      if found < |buf| {
        r := Buffer(found);
        buf := buf[found := buf[found].(refcnt := buf[found].refcnt + 1,
                                        users := buf[found].users + multiset{User(p, k)})];
        NextKeeps(old(View()), Hit(p, k, found), View());
        return;
      }
      var b := FindIdle();
      if b == |buf| {
        return NoBuffers;
      }
      r := Buffer(b);
      buf := buf[b := buf[b].(key := k, refcnt := 1, users := multiset{User(p, k)}, valid := false, dirty := false)];
      NextKeeps(old(View()), Recycle(p, k, b), View());
    }

    /** The first loop of `bget`, along the `next` links; the list head stands for "not cached". */
    method Find(k: Key) returns (b: nat)
      requires Valid()
      ensures b <= |buf| && (b < |buf| ==> buf[b].key == k)
      ensures b == |buf| <==> !Cached(View(), k)
    {
      var head := |buf|;
      assert LinkAt(links, order, 0);
      b := links.next[head];
      ghost var i := 0;
      while b != head
        invariant i <= |order| && b == Node(order, i + 1)
        invariant forall j | 0 <= j < i :: buf[order[j]].key != k
        decreases |order| - i
      {
        if buf[b].key == k {
          return;
        }
        assert LinkAt(links, order, i + 1);
        b, i := links.next[b], i + 1;
      }
      forall c | 0 <= c < |buf| ensures buf[c].key != k {
        assert order[pos[c]] == c;
      }
    }

    /** The second loop of `bget`, along the `prev` links. */
    method FindIdle() returns (b: nat)
      requires Valid()
      ensures b <= |buf| && (b < |buf| ==> BufferCache.Idle(buf[b]))
      ensures b < |buf| ==> forall c | 0 <= c < |buf| && BufferCache.Idle(buf[c]) :: stamp[b] <= stamp[c]
      ensures b == |buf| <==> forall c | 0 <= c < |buf| :: !BufferCache.Idle(buf[c])
    {
      var head := |buf|;
      assert LinkAt(links, order, |order|);
      b := links.prev[head];
      ghost var i := |order|;
      while b != head
        invariant 0 <= i <= |order| && b == Node(order, i)
        invariant forall j | i <= j < |order| :: !BufferCache.Idle(buf[order[j]])
        decreases i
      {
        if buf[b].refcnt == 0 && !buf[b].dirty {
          LeastStamp(i - 1);
          return;
        }
        assert LinkAt(links, order, i - 1);
        b, i := links.prev[b], i - 1;
      }
      forall c | 0 <= c < |buf| ensures !BufferCache.Idle(buf[c]) {
        assert order[pos[c]] == c;
      }
    }

    lemma LeastStamp(i: nat)
      requires Valid() && i < |order| && forall j | i < j < |order| :: !BufferCache.Idle(buf[order[j]])
      ensures forall c | 0 <= c < |buf| && BufferCache.Idle(buf[c]) :: stamp[order[i]] <= stamp[c]
    {
      forall c | 0 <= c < |buf| && BufferCache.Idle(buf[c]) ensures stamp[order[i]] <= stamp[c] {
        assert order[pos[c]] == c;
        if pos[c] != i {
          assert Newer(order, stamp, pos[c], i);
        }
      }
    }

    /** The transfer between a locked buffer and the disk. */
    method Iderw(p: nat, b: nat)
      requires b < |buf| && Holds(View(), p, b) && OnDisk(View(), buf[b].key) && !(buf[b].valid && !buf[b].dirty)
      modifies this`buf, this`disk
      ensures buf == old(buf)[b := old(buf[b]).(valid := true, dirty := false,
                                                data := if old(buf[b].dirty) then old(buf[b].data)
                                                  else old(disk)[old(buf[b].key.block)])]
      ensures disk == if old(buf[b].dirty) then old(disk)[old(buf[b].key.block) := old(buf[b].data)] else old(disk)
    {
      var x := buf[b];
      if x.dirty {
        disk := disk[x.key.block := x.data];
        buf := buf[b := x.(dirty := false, valid := true)];
      } else {
        buf := buf[b := x.(data := disk[x.key.block], valid := true)];
      }
    }

    /** The rest of `bread`, once the buffer's lock is held: the data are those last stored for the block. */
    method Bread(p: nat, b: nat)
      requires Valid() && Holds(View(), p, b) && !buf[b].unsaved
      modifies this
      ensures Valid() && Holds(View(), p, b) && buf[b].valid
      ensures OnDisk(View(), buf[b].key) && buf[b].data == saved[buf[b].key.block]
      ensures old(buf[b].valid) ==> View() == old(View())
      ensures !old(buf[b].valid) ==> Next(old(View()), Read(p, b), View())
    {
      assert BufOk(View(), b);
      if !buf[b].valid {
        Iderw(p, b);
        NextKeeps(old(View()), Read(p, b), View());
      }
      assert BufOk(View(), b);
    }

    method Bwrite(p: nat, b: nat)
      requires Valid() && Holds(View(), p, b) && buf[b].valid
      modifies this
      ensures Valid() && Next(old(View()), BufferCache.Bwrite(p, b), View())
    {
      assert BufOk(View(), b);
      buf := buf[b := buf[b].(dirty := true)];
      Iderw(p, b);
      buf := buf[b := buf[b].(unsaved := false)];
      saved := Store(old(saved), buf[b].key.block, buf[b].data);
      NextKeeps(old(View()), BufferCache.Bwrite(p, b), View());
    }

    /** The part of `brelse` under `bcache.lock`. */
    method Release(p: nat, b: nat)
      requires Valid() && b < |buf| && User(p, buf[b].key) in buf[b].users && buf[b].holder != Process(p)
      modifies this
      ensures Valid() && Next(old(View()), Drop(p, b), View())
      ensures buf[b].refcnt == 0 ==> order != [] && order[0] == b
      ensures buf[b].refcnt > 0 ==> order == old(order)
    {
      assert BufOk(View(), b);
      buf := buf[b := buf[b].(refcnt := buf[b].refcnt - 1, users := buf[b].users - multiset{User(p, buf[b].key)})];
      if buf[b].refcnt == 0 {
        MoveToFront(b);
      }
      NextKeeps(old(View()), Drop(p, b), View());
    }

    /** The buffer becomes the most recently released one. */
    method MoveToFront(b: nat)
      requires |stamp| == |order| && b < |order| && Circle(links, order, pos) && ByStamp(order, stamp)
      requires forall c | 0 <= c < |stamp| :: stamp[c] < clock
      modifies this`links, this`order, this`pos, this`stamp, this`clock
      ensures |order| == |old(order)| && Circle(links, order, pos) && ByStamp(order, stamp) && order[0] == b
      ensures stamp == old(stamp)[b := old(clock)] && clock == old(clock) + 1
    {
      ghost var i := pos[b];
      ToFrontCircle(links, order, pos, i);
      MovedByStamp(order, pos, stamp, clock, i);
      links := ToFront(links, b);
      order, pos := Moved(order, i), MovedPos(pos, i);
      stamp, clock := stamp[b := clock], clock + 1;
    }
  }
}
