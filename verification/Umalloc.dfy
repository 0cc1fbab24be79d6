/**
 The user heap of `umalloc.c`: a circular, address-ordered, coalescing free list.
 Addresses and sizes are counted in units of one header (8 bytes).
 */
module FreeList {

  /** The address of the static header `base`, which lies below every block of the heap. */
  const BASE: nat := 1

  /** `n` units starting with the header at address `a`. */
  datatype Blk = Blk(a: nat, n: nat)

  predicate Covers(b: Blk, u: int) {
    b.a <= u < b.a + b.n
  }

  predicate Apart(x: Blk, y: Blk) {
    x.a + x.n <= y.a || y.a + y.n <= x.a
  }

  /** Block `i` ends before block `i + 1` begins, and does not touch it. */
  ghost predicate Ascends(r: seq<Blk>, i: int) {
    0 <= i && i + 1 < |r| && r[i].a + r[i].n < r[i + 1].a
  }

  /** A free list in address order: the empty base first, no two blocks overlapping or adjacent. */
  ghost predicate Ring(r: seq<Blk>) {
    && |r| >= 1
    && r[0] == Blk(BASE, 0)
    && (forall i | 0 <= i < |r| - 1 :: Ascends(r, i))
    && (forall i | 1 <= i < |r| :: r[i].n >= 1)
  }

  ghost predicate FreeUnit(r: seq<Blk>, u: int) {
    exists i :: 0 <= i < |r| && Covers(r[i], u)
  }

  /** The block that `ptr` of block `i` points to. */
  function Next(r: seq<Blk>, i: nat): Blk
    requires i < |r|
  {
    if i + 1 < |r| then r[i + 1] else r[0]
  }

  function Succ(r: seq<Blk>, i: nat): (j: nat)
    requires i < |r|
    ensures j < |r|
  {
    if i + 1 < |r| then i + 1 else 0
  }

  function Insert(r: seq<Blk>, k: nat, b: Blk): seq<Blk>
    requires k <= |r|
  {
    seq(|r| + 1, i requires 0 <= i <= |r| => if i < k then r[i] else if i == k then b else r[i - 1])
  }

  function Remove(r: seq<Blk>, k: nat): seq<Blk>
    requires k < |r|
  {
    seq(|r| - 1, i requires 0 <= i < |r| - 1 => if i < k then r[i] else r[i + 1])
  }

  /** Block `b` lies in the gap after block `k`. */
  predicate Gap(r: seq<Blk>, k: nat, b: Blk) {
    && k < |r|
    && r[k].a + r[k].n <= b.a
    && (k + 1 < |r| ==> b.a + b.n <= r[k + 1].a)
  }

  predicate JoinsNext(r: seq<Blk>, k: nat, b: Blk) {
    k + 1 < |r| && b.a + b.n == r[k + 1].a
  }

  predicate JoinsPrev(r: seq<Blk>, k: nat, b: Blk) {
    k < |r| && r[k].a + r[k].n == b.a
  }

  /** The list after block `b` is freed into gap `k`, merged with the neighbours it touches. */
  function Release(r: seq<Blk>, k: nat, b: Blk): seq<Blk>
    requires k < |r|
  {
    if JoinsNext(r, k, b) && JoinsPrev(r, k, b) then
      Remove(r[k := Blk(r[k].a, r[k].n + (b.n + r[k + 1].n))], k + 1)
    else if JoinsNext(r, k, b) then r[k + 1 := Blk(b.a, b.n + r[k + 1].n)]
    else if JoinsPrev(r, k, b) then r[k := Blk(r[k].a, r[k].n + b.n)]
    else Insert(r, k + 1, b)
  }

  /** The last `n` units of block `i`. */
  function Tail(r: seq<Blk>, i: nat, n: nat): Blk
    requires i < |r| && n <= r[i].n
  {
    Blk(r[i].a + r[i].n - n, n)
  }

  /** The list after the last `n` units of block `i` are taken. */
  function Carve(r: seq<Blk>, i: nat, n: nat): seq<Blk>
    requires i < |r| && n <= r[i].n
  {
    if r[i].n == n then Remove(r, i) else r[i := Blk(r[i].a, r[i].n - n)]
  }

  // ---- order ----

  lemma {:induction false} RingOrder(r: seq<Blk>, i: nat, j: nat)
    requires Ring(r) && i < j < |r|
    ensures r[i].a + r[i].n < r[j].a
    decreases j
  {
    assert Ascends(r, j - 1);
    if i < j - 1 {
      RingOrder(r, i, j - 1);
    }
  }

  /** A block apart from all free blocks lies in exactly one gap. */
  lemma {:induction false} FindGap(r: seq<Blk>, b: Blk, m: nat) returns (k: nat)
    requires Ring(r) && b.a > BASE && b.n >= 1 && 1 <= m <= |r|
    requires forall i | 0 <= i < |r| :: Apart(r[i], b)
    requires m < |r| ==> b.a < r[m].a
    ensures Gap(r, k, b)
    decreases m
  {
    if r[m - 1].a < b.a {
      k := m - 1;
      assert Apart(r[m - 1], b);
      if m < |r| {
        assert Apart(r[m], b);
      }
    } else {
      assert m > 1 && Apart(r[m - 1], b);
      k := FindGap(r, b, m - 1);
    }
  }

  /** Only at the gap itself do the tests of the search loop in `free` stop. */
  lemma GapTest(r: seq<Blk>, k: nat, b: Blk, i: nat)
    requires Ring(r) && Gap(r, k, b) && b.n >= 1 && b.a > BASE && i < |r|
    ensures var p, q := r[i].a, Next(r, i).a;
            (b.a > p && b.a < q) || (p >= q && (b.a > p || b.a < q)) <==> i == k
  {
    if i + 1 < |r| {
      RingOrder(r, i, i + 1);
    }
    if 0 < i {
      RingOrder(r, 0, i);
    }
    if i < k {
      RingOrder(r, i, k);
      if i + 1 < k {
        RingOrder(r, i + 1, k);
      }
    } else if k < i {
      if k + 1 < i {
        RingOrder(r, k + 1, i);
      }
    }
  }

  // ---- releasing and carving keep the list well formed ----

  lemma ReleaseRing(r: seq<Blk>, k: nat, b: Blk)
    requires Ring(r) && Gap(r, k, b) && b.n >= 1 && b.a > BASE
    ensures Ring(Release(r, k, b))
  {
    var r' := Release(r, k, b);
    assert k + 1 < |r| ==> Ascends(r, k);
    forall i | 0 <= i < |r'| - 1 ensures Ascends(r', i) {
      assert 0 < i ==> Ascends(r, i - 1);
      assert i + 1 < |r| ==> Ascends(r, i);
      assert i + 2 < |r| ==> Ascends(r, i + 1);
    }
  }

  lemma CarveRing(r: seq<Blk>, i: nat, n: nat)
    requires Ring(r) && i < |r| && 1 <= n <= r[i].n
    ensures Ring(Carve(r, i, n))
  {
    var r' := Carve(r, i, n);
    forall j | 0 <= j < |r'| - 1 ensures Ascends(r', j) {
      RingOrder(r, j, j + 1);
      if j + 2 < |r| {
        RingOrder(r, j, j + 2);
        RingOrder(r, j + 1, j + 2);
      }
    }
  }

  // ---- no unit is lost or gained ----

  /** The new list covers the old free units and the units of `b`, and no others. */
  lemma ReleaseUnits(r: seq<Blk>, k: nat, b: Blk, u: int)
    requires k < |r|
    ensures FreeUnit(Release(r, k, b), u) <==> FreeUnit(r, u) || Covers(b, u)
  {
    var r' := Release(r, k, b);
    if FreeUnit(r', u) {
      var i :| 0 <= i < |r'| && Covers(r'[i], u);
      ReleasedFrom(r, k, b, u, i);
    }
    if Covers(b, u) {
      ReleasedNew(r, k, b, u);
    } else if FreeUnit(r, u) {
      var j :| 0 <= j < |r| && Covers(r[j], u);
      ReleasedOld(r, k, b, u, j);
    }
  }

  lemma ReleasedNew(r: seq<Blk>, k: nat, b: Blk, u: int)
    requires k < |r| && Covers(b, u)
    ensures FreeUnit(Release(r, k, b), u)
  {
    var i := if JoinsPrev(r, k, b) then k else k + 1;
    assert Covers(Release(r, k, b)[i], u);
  }

  lemma ReleasedOld(r: seq<Blk>, k: nat, b: Blk, u: int, j: nat)
    requires k < |r| && j < |r| && Covers(r[j], u)
    ensures FreeUnit(Release(r, k, b), u)
  {
    var next, prev := JoinsNext(r, k, b), JoinsPrev(r, k, b);
    var i := if j <= k || next != prev then j else if next then j - 1 else j + 1;
    assert Covers(Release(r, k, b)[i], u);
  }

  lemma ReleasedFrom(r: seq<Blk>, k: nat, b: Blk, u: int, i: nat)
    requires k < |r| && i < |Release(r, k, b)| && Covers(Release(r, k, b)[i], u)
    ensures FreeUnit(r, u) || Covers(b, u)
  {
    if !FreeUnit(r, u) {
      assert !Covers(r[k], u);
      assert k + 1 < |r| ==> !Covers(r[k + 1], u);
      assert i < |r| ==> !Covers(r[i], u);
      assert 0 < i ==> !Covers(r[i - 1], u);
      assert i + 1 < |r| ==> !Covers(r[i + 1], u);
    }
  }

  lemma CarveUnits(r: seq<Blk>, i: nat, n: nat, u: int)
    requires Ring(r) && i < |r| && 1 <= n <= r[i].n
    ensures FreeUnit(r, u) <==> FreeUnit(Carve(r, i, n), u) || Covers(Tail(r, i, n), u)
  {
    var r' := Carve(r, i, n);
    if FreeUnit(r, u) {
      var j :| 0 <= j < |r| && Covers(r[j], u);
      if !Covers(Tail(r, i, n), u) {
        assert Covers(r'[if j < i || r[i].n != n then j else j - 1], u);
      }
    }
    if FreeUnit(r', u) {
      var j :| 0 <= j < |r'| && Covers(r'[j], u);
      assert Covers(r[if j < i || r[i].n != n then j else j + 1], u);
    }
    if Covers(Tail(r, i, n), u) {
      assert Covers(r[i], u);
    }
  }

  // ---- blocks elsewhere stay apart ----

  lemma ReleaseApart(r: seq<Blk>, k: nat, b: Blk, c: Blk)
    requires k < |r| && c.n >= 1 && Apart(b, c) && forall i | 0 <= i < |r| :: Apart(r[i], c)
    ensures forall i | 0 <= i < |Release(r, k, b)| :: Apart(Release(r, k, b)[i], c)
  {
    var r' := Release(r, k, b);
    forall i | 0 <= i < |r'| ensures Apart(r'[i], c) {
      assert Apart(r[k], c);
      assert k + 1 < |r| ==> Apart(r[k + 1], c);
      assert i < |r| ==> Apart(r[i], c);
      assert 0 < i ==> Apart(r[i - 1], c);
      assert i + 1 < |r| ==> Apart(r[i + 1], c);
    }
  }

  lemma CarveApart(r: seq<Blk>, i: nat, n: nat, c: Blk)
    requires i < |r| && 1 <= n <= r[i].n && forall j | 0 <= j < |r| :: Apart(r[j], c)
    ensures forall j | 0 <= j < |Carve(r, i, n)| :: Apart(Carve(r, i, n)[j], c)
    ensures Apart(Tail(r, i, n), c)
  {
    var r' := Carve(r, i, n);
    assert Apart(r[i], c);
    forall j | 0 <= j < |r'| ensures Apart(r'[j], c) {
      assert Apart(r[j], c);
      assert j + 1 < |r| ==> Apart(r[j + 1], c);
    }
  }

  lemma CarveTailApart(r: seq<Blk>, i: nat, n: nat)
    requires Ring(r) && i < |r| && 1 <= n <= r[i].n
    ensures forall j | 0 <= j < |Carve(r, i, n)| :: Apart(Carve(r, i, n)[j], Tail(r, i, n))
  {
    var r' := Carve(r, i, n);
    forall j | 0 <= j < |r'| ensures Apart(r'[j], Tail(r, i, n)) {
      var m := if j < i || r[i].n != n then j else j + 1;
      if m < i {
        RingOrder(r, m, i);
      } else if i < m {
        RingOrder(r, i, m);
      }
    }
  }
}

module Umalloc {
  import opened FreeList

  const NULL: nat := 0
  const HEADER_BYTES: nat := 8
  const MIN_UNITS: nat := 4096
  const UINT: nat := 0x1_0000_0000
  const INT_LIMIT: nat := 0x8000_0000

  datatype Option<+T> = None | Some(value: T)

  // ---- sizes ----

  /** Units for a request of `nbytes` bytes, header included, in 32-bit unsigned arithmetic. */
  function Units(nbytes: nat): nat {
    (nbytes + HEADER_BYTES - 1) % UINT / HEADER_BYTES + 1
  }

  function CoreUnits(nu: nat): nat {
    if nu < MIN_UNITS then MIN_UNITS else nu
  }

  /** The argument that `sbrk`, which takes an int, receives for `nu` units. */
  function SbrkArg(nu: nat): int {
    var bytes := nu * HEADER_BYTES % UINT;
    if bytes < INT_LIMIT then bytes else bytes - UINT
  }

  const MAX_REQUEST: nat := 0x7FFF_FFF0

  /**
   Exactly the requests up to MAX_REQUEST bytes are computed without overflow: the units found hold the
   request, and if more core is needed `sbrk` is asked for as many bytes as the new block claims to have.
   */
  lemma RequestLimit(nbytes: nat)
    requires nbytes < UINT
    ensures && (Units(nbytes) - 1) * HEADER_BYTES >= nbytes
            && SbrkArg(CoreUnits(Units(nbytes))) == CoreUnits(Units(nbytes)) * HEADER_BYTES
            <==> nbytes <= MAX_REQUEST
  {
    if nbytes + HEADER_BYTES - 1 >= UINT {
      assert (nbytes + HEADER_BYTES - 1) % UINT == nbytes + HEADER_BYTES - 1 - UINT;
    }
  }

  // ---- the heap as values ----

  ghost predicate HeaderAt(ptr: map<nat, nat>, size: map<nat, nat>, a: nat, n: nat, q: nat) {
    a in ptr && a in size && size[a] == n && ptr[a] == q
  }

  /** Free block `i` has its header in memory, pointing to the next free block. */
  ghost predicate Node(ptr: map<nat, nat>, size: map<nat, nat>, r: seq<Blk>, i: int) {
    0 <= i < |r| && HeaderAt(ptr, size, r[i].a, r[i].n, Next(r, i).a)
  }

  /** The headers in memory spell out the free list `r`, closed into a circle. */
  ghost predicate Linked(ptr: map<nat, nat>, size: map<nat, nat>, r: seq<Blk>) {
    forall i | 0 <= i < |r| :: Node(ptr, size, r, i)
  }

  ghost predicate LiveOk(r: seq<Blk>, live: map<nat, nat>, size: map<nat, nat>, brk: nat, a: nat)
    requires a in live
  {
    && a > BASE && live[a] >= 1 && a + live[a] <= brk
    && a in size && size[a] == live[a]
    && forall i | 0 <= i < |r| :: Apart(r[i], Blk(a, live[a]))
  }

  /** Every allocated block is apart from every free block and from every other allocated block. */
  ghost predicate LiveInv(r: seq<Blk>, live: map<nat, nat>, size: map<nat, nat>, brk: nat) {
    && (forall a | a in live :: LiveOk(r, live, size, brk, a))
    && (forall a, b | a in live && b in live && a != b :: Apart(Blk(a, live[a]), Blk(b, live[b])))
  }

  ghost predicate Below(r: seq<Blk>, brk: nat) {
    forall i | 0 <= i < |r| :: r[i].a + r[i].n <= brk
  }

  ghost predicate LiveUnit(live: map<nat, nat>, u: int) {
    exists a :: a in live && Covers(Blk(a, live[a]), u)
  }

  /** The units obtained from sbrk are exactly the free and the allocated ones. */
  ghost predicate Accounts(r: seq<Blk>, live: map<nat, nat>, area: set<int>) {
    forall u :: u in area <==> FreeUnit(r, u) || LiveUnit(live, u)
  }

  ghost function UnitsOf(b: Blk): set<int> {
    set u | b.a <= u < b.a + b.n && Covers(b, u)
  }

  ghost predicate Fits(r: seq<Blk>, n: nat) {
    exists i :: 0 <= i < |r| && r[i].n >= n
  }

  // ---- what the assignments at the end of `free` do to the headers ----

  /** The headers after linking the freed block at `bp` in behind the block at `p`. */
  ghost predicate Spliced(ptr0: map<nat, nat>, size0: map<nat, nat>, ptr: map<nat, nat>, size: map<nat, nat>, p: nat,
                          bp: nat)
    requires p in ptr0 && ptr0[p] in ptr0 && p in size0 && bp in size0 && ptr0[p] in size0
  {
    var q := ptr0[p];
    var next := bp + size0[bp] == q;
    var sizeA := if next then size0[bp := size0[bp] + size0[q]] else size0;
    var ptrA := if next then ptr0[bp := ptr0[q]] else ptr0[bp := q];
    var prev := p + sizeA[p] == bp;
    && size == (if prev then sizeA[p := sizeA[p] + sizeA[bp]] else sizeA)
    && ptr == (if prev then ptrA[p := ptrA[bp]] else ptrA[p := bp])
  }

  lemma RingAddresses(r: seq<Blk>, i: nat, j: nat)
    requires Ring(r) && i < |r| && j < |r| && r[i].a == r[j].a
    ensures i == j
  {
    if i < j {
      RingOrder(r, i, j);
    } else if j < i {
      RingOrder(r, j, i);
    }
  }

  /** Block `b` has its header in place and is about to be linked in behind block `k`. */
  ghost predicate Placed(ptr: map<nat, nat>, size: map<nat, nat>, r: seq<Blk>, k: nat, b: Blk) {
    && Ring(r) && Linked(ptr, size, r)
    && Gap(r, k, b) && b.n >= 1 && b.a > BASE
    && b.a in size && size[b.a] == b.n
  }

  /** The free headers involved, and that no other free header shares an address with them. */
  lemma ReadyFacts(ptr: map<nat, nat>, size: map<nat, nat>, r: seq<Blk>, k: nat, b: Blk, j: nat)
    requires Placed(ptr, size, r, k, b) && j < |r|
    ensures HeaderAt(ptr, size, r[j].a, r[j].n, Next(r, j).a)
    ensures HeaderAt(ptr, size, r[k].a, r[k].n, Next(r, k).a)
    ensures HeaderAt(ptr, size, Next(r, k).a, Next(r, k).n, Next(r, Succ(r, k)).a)
    ensures r[j].a != b.a
    ensures j != k ==> r[j].a != r[k].a
    ensures JoinsNext(r, k, b) <==> b.a + b.n == Next(r, k).a
  {
    assert Node(ptr, size, r, j) && Node(ptr, size, r, k) && Node(ptr, size, r, Succ(r, k));
    if j < k {
      RingOrder(r, j, k);
    } else if k < j {
      RingOrder(r, k, j);
      if k + 1 < j {
        RingOrder(r, k + 1, j);
      }
    }
  }

  lemma LinkedInsert(ptr0: map<nat, nat>, size: map<nat, nat>, r: seq<Blk>, k: nat, b: Blk)
    requires Placed(ptr0, size, r, k, b)
    ensures Linked(ptr0[b.a := Next(r, k).a][r[k].a := b.a], size, Insert(r, k + 1, b))
  {
    var ptr, r' := ptr0[b.a := Next(r, k).a][r[k].a := b.a], Insert(r, k + 1, b);
    forall i | 0 <= i < |r'| ensures Node(ptr, size, r', i) {
      ReadyFacts(ptr0, size, r, k, b, if i <= k + 1 && i < |r| then i else i - 1);
    }
  }

  lemma LinkedJoinPrev(ptr0: map<nat, nat>, size0: map<nat, nat>, r: seq<Blk>, k: nat, b: Blk)
    requires Placed(ptr0, size0, r, k, b)
    ensures Linked(ptr0[b.a := Next(r, k).a][r[k].a := Next(r, k).a], size0[r[k].a := r[k].n + b.n],
                   r[k := Blk(r[k].a, r[k].n + b.n)])
  {
    var r' := r[k := Blk(r[k].a, r[k].n + b.n)];
    var ptr, size := ptr0[b.a := Next(r, k).a][r[k].a := Next(r, k).a], size0[r[k].a := r[k].n + b.n];
    forall i | 0 <= i < |r'| ensures Node(ptr, size, r', i) {
      ReadyFacts(ptr0, size0, r, k, b, i);
      assert Next(r', i).a == Next(r, i).a;
    }
  }

  lemma LinkedJoinNext(ptr0: map<nat, nat>, size0: map<nat, nat>, r: seq<Blk>, k: nat, b: Blk)
    requires Placed(ptr0, size0, r, k, b) && k + 1 < |r|
    ensures Linked(ptr0[b.a := Next(r, k + 1).a][r[k].a := b.a], size0[b.a := b.n + r[k + 1].n],
                   r[k + 1 := Blk(b.a, b.n + r[k + 1].n)])
  {
    var r' := r[k + 1 := Blk(b.a, b.n + r[k + 1].n)];
    var ptr, size := ptr0[b.a := Next(r, k + 1).a][r[k].a := b.a], size0[b.a := b.n + r[k + 1].n];
    forall i | 0 <= i < |r'| ensures Node(ptr, size, r', i) {
      ReadyFacts(ptr0, size0, r, k, b, i);
    }
  }

  lemma LinkedJoinBoth(ptr0: map<nat, nat>, size0: map<nat, nat>, r: seq<Blk>, k: nat, b: Blk)
    requires Placed(ptr0, size0, r, k, b) && k + 1 < |r|
    ensures var q := Next(r, k + 1).a; var n := b.n + r[k + 1].n;
            Linked(ptr0[b.a := q][r[k].a := q], size0[b.a := n][r[k].a := r[k].n + n],
                   Remove(r[k := Blk(r[k].a, r[k].n + n)], k + 1))
  {
    var q, n := Next(r, k + 1).a, b.n + r[k + 1].n;
    var r' := Remove(r[k := Blk(r[k].a, r[k].n + n)], k + 1);
    var ptr, size := ptr0[b.a := q][r[k].a := q], size0[b.a := n][r[k].a := r[k].n + n];
    forall i | 0 <= i < |r'| ensures Node(ptr, size, r', i) {
      ReadyFacts(ptr0, size0, r, k, b, if i <= k then i else i + 1);
    }
  }

  lemma ReleaseLinked(ptr0: map<nat, nat>, size0: map<nat, nat>, ptr: map<nat, nat>, size: map<nat, nat>, r: seq<Blk>,
                      k: nat, b: Blk)
    requires Placed(ptr0, size0, r, k, b)
    requires HeaderAt(ptr0, size0, r[k].a, r[k].n, Next(r, k).a) && Next(r, k).a in ptr0 && Next(r, k).a in size0
    requires Spliced(ptr0, size0, ptr, size, r[k].a, b.a)
    ensures Linked(ptr, size, Release(r, k, b))
  {
    ReadyFacts(ptr0, size0, r, k, b, k);
    if JoinsNext(r, k, b) && JoinsPrev(r, k, b) {
      LinkedJoinBoth(ptr0, size0, r, k, b);
    } else if JoinsNext(r, k, b) {
      LinkedJoinNext(ptr0, size0, r, k, b);
    } else if JoinsPrev(r, k, b) {
      LinkedJoinPrev(ptr0, size0, r, k, b);
    } else {
      LinkedInsert(ptr0, size0, r, k, b);
    }
  }

  lemma CarveLinkedExact(ptr: map<nat, nat>, size: map<nat, nat>, r: seq<Blk>, j: nat)
    requires Ring(r) && Linked(ptr, size, r) && j < |r| && Succ(r, j) != 0
    ensures var i := Succ(r, j); Linked(ptr[r[j].a := Next(r, i).a], size, Remove(r, i))
  {
    var i := Succ(r, j);
    var ptr', r' := ptr[r[j].a := Next(r, i).a], Remove(r, i);
    forall m | 0 <= m < |r'| ensures Node(ptr', size, r', m) {
      var o := if m < i then m else m + 1;
      assert Node(ptr, size, r, o);
      if r[o].a == r[j].a {
        RingAddresses(r, o, j);
      }
    }
  }

  lemma CarveLinkedTail(ptr: map<nat, nat>, size: map<nat, nat>, r: seq<Blk>, i: nat, n: nat)
    requires Ring(r) && Linked(ptr, size, r) && i < |r| && 1 <= n < r[i].n
    ensures var t := Tail(r, i, n);
            Linked(ptr, size[r[i].a := r[i].n - n][t.a := n], Carve(r, i, n))
  {
    var t, r' := Tail(r, i, n), Carve(r, i, n);
    var size' := size[r[i].a := r[i].n - n][t.a := n];
    forall m | 0 <= m < |r'| ensures Node(ptr, size', r', m) {
      assert Node(ptr, size, r, m);
      if m < i {
        RingOrder(r, m, i);
      } else if i < m {
        RingOrder(r, i, m);
      }
      assert Next(r', m).a == Next(r, m).a;
    }
  }

  // ---- the allocated blocks ----

  /** Freeing the block at `a` keeps the others apart; its own header and block `k`'s may change. */
  lemma ReleaseLive(r: seq<Blk>, k: nat, a: nat, live: map<nat, nat>, size: map<nat, nat>, size': map<nat, nat>,
                    brk: nat)
    requires LiveInv(r, live, size, brk) && a in live && k < |r|
    requires forall x | x in live && x != a && x in size && x != r[k].a :: x in size' && size'[x] == size[x]
    requires forall x | x in live :: x != r[k].a
    ensures LiveInv(Release(r, k, Blk(a, live[a])), live - {a}, size', brk)
  {
    var r', live' := Release(r, k, Blk(a, live[a])), live - {a};
    assert LiveOk(r, live, size, brk, a);
    forall x | x in live' ensures LiveOk(r', live', size', brk, x) {
      assert LiveOk(r, live, size, brk, x);
      ReleaseApart(r, k, Blk(a, live[a]), Blk(x, live[x]));
    }
  }

  lemma LiveNotFree(r: seq<Blk>, live: map<nat, nat>, size: map<nat, nat>, brk: nat, x: nat, i: nat)
    requires Ring(r) && LiveInv(r, live, size, brk) && x in live && i < |r|
    ensures x != r[i].a
  {
    assert LiveOk(r, live, size, brk, x);
    assert Apart(r[i], Blk(x, live[x]));
  }

  lemma ReleaseAccounts(r: seq<Blk>, k: nat, a: nat, live: map<nat, nat>, area: set<int>)
    requires Accounts(r, live, area) && a in live && k < |r|
    requires forall b | b in live && b != a :: Apart(Blk(a, live[a]), Blk(b, live[b]))
    ensures Accounts(Release(r, k, Blk(a, live[a])), live - {a}, area)
  {
    var r', live' := Release(r, k, Blk(a, live[a])), live - {a};
    forall u ensures u in area <==> FreeUnit(r', u) || LiveUnit(live', u) {
      ReleaseUnits(r, k, Blk(a, live[a]), u);
      if LiveUnit(live, u) && !Covers(Blk(a, live[a]), u) {
        var x :| x in live && Covers(Blk(x, live[x]), u);
        assert x in live' && Covers(Blk(x, live'[x]), u);
      }
      if LiveUnit(live', u) {
        var x :| x in live' && Covers(Blk(x, live'[x]), u);
        assert x in live && Covers(Blk(x, live[x]), u);
      }
    }
  }

  lemma ReleaseBelow(r: seq<Blk>, k: nat, b: Blk, brk: nat)
    requires Below(r, brk) && k < |r| && b.a + b.n <= brk
    ensures Below(Release(r, k, b), brk)
  {
    var r' := Release(r, k, b);
    forall i | 0 <= i < |r'| ensures r'[i].a + r'[i].n <= brk {
      assert k + 1 < |r| ==> r[k + 1].a + r[k + 1].n <= brk;
      assert i < |r| ==> r[i].a + r[i].n <= brk;
      assert 0 < i ==> r[i - 1].a + r[i - 1].n <= brk;
      assert i + 1 < |r| ==> r[i + 1].a + r[i + 1].n <= brk;
    }
  }

  /** Taking the last `n` units of block `i` makes them a new allocated block, apart from all others. */
  lemma CarveLive(r: seq<Blk>, i: nat, n: nat, live: map<nat, nat>, size: map<nat, nat>, size': map<nat, nat>, brk: nat)
    requires Ring(r) && LiveInv(r, live, size, brk) && Below(r, brk) && i < |r| && 1 <= n <= r[i].n
    requires var t := Tail(r, i, n).a; t in size' && size'[t] == n
    requires forall x | x in live && x in size && x != r[i].a && x != Tail(r, i, n).a ::
               x in size' && size'[x] == size[x]
    ensures Tail(r, i, n).a !in live
    ensures LiveInv(Carve(r, i, n), live[Tail(r, i, n).a := n], size', brk) && Below(Carve(r, i, n), brk)
  {
    var t := Tail(r, i, n);
    var r', live' := Carve(r, i, n), live[t.a := n];
    assert r[i].a + r[i].n <= brk && 0 < i;
    RingOrder(r, 0, i);
    forall x | x in live ensures Apart(t, Blk(x, live[x])) && x != t.a && x != r[i].a {
      assert LiveOk(r, live, size, brk, x);
      CarveApart(r, i, n, Blk(x, live[x]));
      assert Apart(r[i], Blk(x, live[x]));
    }
    forall x | x in live' ensures LiveOk(r', live', size', brk, x) {
      if x in live {
        assert LiveOk(r, live, size, brk, x);
        CarveApart(r, i, n, Blk(x, live[x]));
      } else {
        CarveTailApart(r, i, n);
      }
    }
    forall j | 0 <= j < |r'| ensures r'[j].a + r'[j].n <= brk {
      assert r[j].a + r[j].n <= brk;
      assert j + 1 < |r| ==> r[j + 1].a + r[j + 1].n <= brk;
    }
  }

  lemma CarveAccounts(r: seq<Blk>, i: nat, n: nat, live: map<nat, nat>, area: set<int>)
    requires Ring(r) && Accounts(r, live, area) && i < |r| && 1 <= n <= r[i].n
    requires Tail(r, i, n).a !in live
    ensures Accounts(Carve(r, i, n), live[Tail(r, i, n).a := n], area)
  {
    var t := Tail(r, i, n);
    var r', live' := Carve(r, i, n), live[t.a := n];
    forall u ensures u in area <==> FreeUnit(r', u) || LiveUnit(live', u) {
      CarveUnits(r, i, n, u);
      if LiveUnit(live, u) {
        var x :| x in live && Covers(Blk(x, live[x]), u);
        assert x in live' && Covers(Blk(x, live'[x]), u);
      }
      if Covers(t, u) {
        assert t.a in live' && Covers(Blk(t.a, live'[t.a]), u);
      }
      if LiveUnit(live', u) {
        var x :| x in live' && Covers(Blk(x, live'[x]), u);
        assert x != t.a ==> x in live && Covers(Blk(x, live[x]), u);
      }
    }
  }

  /** A region obtained from sbrk, above everything obtained before, enters as one allocated block. */
  lemma GrowLive(r: seq<Blk>, b: Blk, live: map<nat, nat>, size: map<nat, nat>, brk: nat)
    requires Ring(r) && LiveInv(r, live, size, brk) && Below(r, brk)
    requires b.a >= brk && b.a > BASE && b.n >= 1
    ensures b.a !in live
    ensures LiveInv(r, live[b.a := b.n], size[b.a := b.n], b.a + b.n) && Below(r, b.a + b.n)
  {
    var live', size' := live[b.a := b.n], size[b.a := b.n];
    forall x | x in live ensures x != b.a && Apart(Blk(x, live[x]), b) {
      assert LiveOk(r, live, size, brk, x);
    }
    forall x | x in live' ensures LiveOk(r, live', size', b.a + b.n, x) {
      if x != b.a {
        assert LiveOk(r, live, size, brk, x);
      } else {
        forall i | 0 <= i < |r| ensures Apart(r[i], b) {
          assert r[i].a + r[i].n <= brk;
        }
      }
    }
  }

  lemma GrowAccounts(r: seq<Blk>, b: Blk, live: map<nat, nat>, area: set<int>)
    requires Accounts(r, live, area) && b.a !in live
    ensures Accounts(r, live[b.a := b.n], area + UnitsOf(b))
  {
    var live' := live[b.a := b.n];
    forall u ensures u in area + UnitsOf(b) <==> FreeUnit(r, u) || LiveUnit(live', u) {
      if LiveUnit(live', u) {
        var x :| x in live' && Covers(Blk(x, live'[x]), u);
        assert x != b.a ==> x in live && Covers(Blk(x, live[x]), u);
      }
      if LiveUnit(live, u) {
        var x :| x in live && Covers(Blk(x, live[x]), u);
        assert x in live' && Covers(Blk(x, live'[x]), u);
      }
      if Covers(b, u) {
        assert b.a in live' && Covers(Blk(b.a, live'[b.a]), u);
      }
    }
  }

  lemma GrowLinked(ptr: map<nat, nat>, size: map<nat, nat>, r: seq<Blk>, brk: nat, b: Blk)
    requires Ring(r) && Linked(ptr, size, r) && Below(r, brk) && b.a >= brk && b.a > BASE
    ensures Linked(ptr, size[b.a := b.n], r)
  {
    var size' := size[b.a := b.n];
    forall i | 0 <= i < |r| ensures Node(ptr, size', r, i) {
      assert Node(ptr, size, r, i) && r[i].a + r[i].n <= brk;
    }
  }

  // ---- walking the circle ----

  /** The block `d` steps after block `f`. */
  function Wrap(f: nat, d: nat, len: nat): nat
    requires f < len && d <= len
  {
    if f + d < len then f + d else f + d - len
  }

  /** The first `d` blocks after block `f` are all too small. */
  ghost predicate TooSmall(r: seq<Blk>, f: nat, d: nat, n: nat) {
    f < |r| && d <= |r| && forall e | 1 <= e <= d :: r[Wrap(f, e, |r|)].n < n
  }

  lemma AllTooSmall(r: seq<Blk>, f: nat, n: nat)
    requires TooSmall(r, f, |r|, n)
    ensures !Fits(r, n)
  {
    forall i | 0 <= i < |r| ensures r[i].n < n {
      var e := if i > f then i - f else i + |r| - f;
      assert r[Wrap(f, e, |r|)].n < n;
    }
  }

  // ---- the allocator ----

  /** Everything the allocator keeps true, for the header fields, the free list and the allocated blocks. */
  ghost predicate HeapInv(ptr: map<nat, nat>, size: map<nat, nat>, freep: nat,
                          r: seq<Blk>, live: map<nat, nat>, area: set<int>, brk: nat)
  {
    && Ring(r) && Linked(ptr, size, r)
    && LiveInv(r, live, size, brk) && Below(r, brk)
    && Accounts(r, live, area)
    && exists i :: 0 <= i < |r| && r[i].a == freep
  }

  /** `r'` is `r` with `b` merged into the gap where it belongs. */
  ghost predicate Released(r: seq<Blk>, r': seq<Blk>, b: Blk) {
    exists k: nat :: Gap(r, k, b) && r' == Release(r, k, b)
  }

  lemma FreeKeeps(ptr: map<nat, nat>, size: map<nat, nat>, freep: nat, r: seq<Blk>, live: map<nat, nat>,
                  area: set<int>, brk: nat, k: nat, a: nat, ptr': map<nat, nat>, size': map<nat, nat>)
    requires HeapInv(ptr, size, freep, r, live, area, brk) && a in live
    requires Placed(ptr, size, r, k, Blk(a, live[a]))
    requires HeaderAt(ptr, size, r[k].a, r[k].n, Next(r, k).a) && Next(r, k).a in ptr && Next(r, k).a in size
    requires Spliced(ptr, size, ptr', size', r[k].a, a)
    ensures HeapInv(ptr', size', r[k].a, Release(r, k, Blk(a, live[a])), live - {a}, area, brk)
  {
    var b := Blk(a, live[a]);
    assert LiveOk(r, live, size, brk, a);
    ReleaseLinked(ptr, size, ptr', size', r, k, b);
    ReleaseRing(r, k, b);
    forall x | x in live ensures x != r[k].a {
      LiveNotFree(r, live, size, brk, x, k);
    }
    ReleaseLive(r, k, a, live, size, size', brk);
    ReleaseBelow(r, k, b, brk);
    ReleaseAccounts(r, k, a, live, area);
    assert Release(r, k, b)[k].a == r[k].a;
  }

  lemma GrowKeeps(ptr: map<nat, nat>, size: map<nat, nat>, freep: nat, r: seq<Blk>, live: map<nat, nat>,
                  area: set<int>, brk: nat, b: Blk)
    requires HeapInv(ptr, size, freep, r, live, area, brk)
    requires b.a >= brk && b.a > BASE && b.n >= 1
    ensures b.a !in live
    ensures HeapInv(ptr, size[b.a := b.n], freep, r, live[b.a := b.n], area + UnitsOf(b), b.a + b.n)
  {
    GrowLive(r, b, live, size, brk);
    GrowAccounts(r, b, live, area);
    GrowLinked(ptr, size, r, brk, b);
  }

  lemma TakeKeeps(ptr: map<nat, nat>, size: map<nat, nat>, freep: nat, r: seq<Blk>, live: map<nat, nat>,
                  area: set<int>, brk: nat, j: nat, n: nat, ptr': map<nat, nat>, size': map<nat, nat>)
    requires HeapInv(ptr, size, freep, r, live, area, brk)
    requires j < |r| && 1 <= n <= r[Succ(r, j)].n
    requires var i := Succ(r, j); var t := Tail(r, i, n);
             && Linked(ptr', size', Carve(r, i, n))
             && (r[i].n == n ==> size' == size && t.a in size && size[t.a] == n)
             && (r[i].n != n ==> size' == size[r[i].a := r[i].n - n][t.a := n])
    ensures var i := Succ(r, j); var t := Tail(r, i, n);
            && t.a > BASE && t.a !in live
            && HeapInv(ptr', size', r[j].a, Carve(r, i, n), live[t.a := n], area, brk)
  {
    var i := Succ(r, j);
    assert i != 0;
    RingOrder(r, 0, i);
    CarveLive(r, i, n, live, size, size', brk);
    CarveAccounts(r, i, n, live, area);
    CarveRing(r, i, n);
    assert Carve(r, i, n)[if j < i then j else j - 1].a == r[j].a;
  }

  class Heap {
    var freep: nat
    /** The two header fields, by the address of the header. */
    var ptr: map<nat, nat>
    var size: map<nat, nat>

    /** The free list in address order, the allocated blocks, the units obtained from sbrk and their end. */
    ghost var ring: seq<Blk>
    ghost var live: map<nat, nat>
    ghost var area: set<int>
    ghost var brk: nat

    ghost predicate Ready()
      reads this
    {
      HeapInv(ptr, size, freep, ring, live, area, brk)
    }

    /** Before the first `malloc`, nothing; afterwards, a well-formed heap. */
    ghost predicate Valid()
      reads this
    {
      if freep == NULL then ring == [] && live == map[] && area == {} else Ready()
    }

    constructor ()
      ensures Valid() && live == map[] && area == {}
    {
      freep, ptr, size := NULL, map[], map[];
      ring, live, area, brk := [], map[], {}, BASE + 1;
    }

    /** The search loop of `free`: it stops exactly at the gap that the block at `bp` belongs into. */
    method FindPlace(bp: nat, ghost b: Blk, ghost k: nat) returns (p: nat)
      requires Ready() && b.a == bp && Gap(ring, k, b) && b.n >= 1 && bp > BASE
      ensures p == ring[k].a
    {
      ghost var i :| 0 <= i < |ring| && ring[i].a == freep;
      p := freep;
      assert Node(ptr, size, ring, i);
      while !(bp > p && bp < ptr[p])
        invariant 0 <= i < |ring| && p == ring[i].a && Node(ptr, size, ring, i)
        decreases if i <= k then k - i else |ring| - i + k
      {
        GapTest(ring, k, b, i);
        if p >= ptr[p] && (bp > p || bp < ptr[p]) {
          break;
        }
        p := ptr[p];
        i := Succ(ring, i);
        assert Node(ptr, size, ring, i);
      }
      GapTest(ring, k, b, i);
    }

    /**
     * The assignments at the end of `free`: the headers then link the ring with the freed block in its place, joined
     * with its neighbours where they touch.
     */
    method Splice(p: nat, bp: nat, ghost b: Blk, ghost k: nat)
      requires Placed(ptr, size, ring, k, b) && p == ring[k].a && bp == b.a && bp in size
      requires HeaderAt(ptr, size, p, ring[k].n, Next(ring, k).a) && Next(ring, k).a in ptr && Next(ring, k).a in size
      modifies this`ptr, this`size
      ensures Linked(ptr, size, Release(ring, k, b)) && Spliced(old(ptr), old(size), ptr, size, p, bp)
    {
      if bp + size[bp] == ptr[p] {
        var q := ptr[p];
        size := size[bp := size[bp] + size[q]];
        ptr := ptr[bp := ptr[q]];
      } else {
        ptr := ptr[bp := ptr[p]];
      }
      if p + size[p] == bp {
        size := size[p := size[p] + size[bp]];
        ptr := ptr[p := ptr[bp]];
      } else {
        ptr := ptr[p := bp];
      }
      ReleaseLinked(old(ptr), old(size), ptr, size, ring, k, b);
    }

    /** Frees an allocated block: its units become free, and everything else stays as it was. */
    method Free(ap: nat)
      requires Ready() && ap > 0 && ap - 1 in live
      modifies this
      ensures Ready() && live == old(live) - {ap - 1} && area == old(area) && brk == old(brk)
      ensures Released(old(ring), ring, Blk(ap - 1, old(live)[ap - 1]))
    {
      var bp := ap - 1;
      ghost var b := Blk(bp, live[bp]);
      assert LiveOk(ring, live, size, brk, bp);
      ghost var k := FindGap(ring, b, |ring|);
      var p := FindPlace(bp, b, k);
      ghost var ptr0, size0 := ptr, size;
      ReadyFacts(ptr, size, ring, k, b, k);
      Splice(p, bp, b, k);
      FreeKeeps(ptr0, size0, freep, ring, live, area, brk, k, bp, ptr, size);
      ring := Release(ring, k, b);
      live := live - {bp};
      freep := p;
    }

    /** The region that sbrk gave, with its header, as one allocated block. */
    method AddCore(hp: nat, nu: nat)
      requires Ready() && nu >= 1 && hp >= brk && hp > BASE
      modifies this
      ensures Ready() && hp !in old(live) && live == old(live)[hp := nu] && ring == old(ring)
      ensures area == old(area) + UnitsOf(Blk(hp, nu))
    {
      GrowKeeps(ptr, size, freep, ring, live, area, brk, Blk(hp, nu));
      size := size[hp := nu];
      live, brk, area := live[hp := nu], hp + nu, area + UnitsOf(Blk(hp, nu));
    }

    /** `grant` is sbrk's answer: nothing, or a region above everything obtained before. */
    method Morecore(nunits: nat, grant: Option<nat>) returns (p: nat)
      requires Ready() && nunits >= 1
      requires grant.Some? ==> grant.value >= brk && grant.value > BASE
      modifies this
      ensures Ready() && live == old(live)
      ensures grant.None? ==> p == NULL && ring == old(ring) && freep == old(freep) && area == old(area)
      ensures grant.Some? ==>
                && p == freep && p != NULL && Fits(ring, nunits)
                && area == old(area) + UnitsOf(Blk(grant.value, CoreUnits(nunits)))
    {
      var nu := nunits;
      if nu < MIN_UNITS {
        nu := MIN_UNITS;
      }
      if grant.None? {
        return NULL;
      }
      var hp := grant.value;
      ghost var b, live0, ring0 := Blk(hp, nu), live, ring;
      AddCore(hp, nu);
      Free(hp + 1);
      assert live == live0;
      assert Fits(ring, nunits) by { ReleasedFits(ring0, ring, b, nunits); }
      RingPositive(ring, freep);
      return freep;
    }

    /** The allocation step of `malloc`: takes `nunits` from the block after the one at `prevp`. */
    method Take(prevp: nat, nunits: nat, ghost j: nat) returns (p: nat)
      requires Ready() && j < |ring| && ring[j].a == prevp
      requires 1 <= nunits <= ring[Succ(ring, j)].n
      modifies this
      ensures Ready() && area == old(area) && p > BASE
      ensures p - 1 !in old(live) && live == old(live)[p - 1 := nunits]
      ensures freep == prevp
    {
      ghost var i, t := Succ(ring, j), Tail(ring, Succ(ring, j), nunits);
      ghost var ptr0, size0 := ptr, size;
      var q := Cut(prevp, nunits, j);
      TakeKeeps(ptr0, size0, freep, ring, live, area, brk, j, nunits, ptr, size);
      live := live[t.a := nunits];
      ring := Carve(ring, i, nunits);
      freep := prevp;
      return q + 1;
    }

    /** The header writes of that step: a block that fits exactly is unlinked, and a larger one loses its tail. */
    method Cut(prevp: nat, nunits: nat, ghost j: nat) returns (q: nat)
      requires Ready() && j < |ring| && ring[j].a == prevp
      requires 1 <= nunits <= ring[Succ(ring, j)].n
      modifies this`ptr, this`size
      ensures var i := Succ(ring, j); var t := Tail(ring, i, nunits);
              && Linked(ptr, size, Carve(ring, i, nunits)) && q == t.a
              && (ring[i].n == nunits ==> size == old(size) && t.a in size && size[t.a] == nunits)
              && (ring[i].n != nunits ==> size == old(size)[ring[i].a := ring[i].n - nunits][t.a := nunits])
    {
      ghost var i := Succ(ring, j);
      assert Node(ptr, size, ring, j) && Node(ptr, size, ring, i) && i != 0;
      q := ptr[prevp];
      if size[q] == nunits {
        CarveLinkedExact(ptr, size, ring, j);
        ptr := ptr[prevp := ptr[q]];
      } else {
        CarveLinkedTail(ptr, size, ring, i, nunits);
        size := size[q := size[q] - nunits];
        q := q + size[q];
        size := size[q := nunits];
      }
    }

    /** On the first call, the free list is the empty base alone. */
    method Init()
      requires Valid()
      modifies this
      ensures Ready() && live == old(live) && area == old(area)
      ensures old(freep) != NULL ==> ring == old(ring) && brk == old(brk) && ptr == old(ptr) && size == old(size)
      ensures old(freep) == NULL ==> ring == [Blk(BASE, 0)] && brk == BASE + 1
    {
      if freep == NULL {
        freep := BASE;
        ptr := ptr[BASE := BASE];
        size := size[BASE := 0];
        ring, brk := [Blk(BASE, 0)], BASE + 1;
        assert Node(ptr, size, ring, 0);
      }
    }

    /** The loop of `malloc` from `freep` up to the point where it comes back to `freep`. */
    method Scan(nunits: nat) returns (found: bool, prevp: nat, ghost j: nat)
      requires Ready()
      ensures found ==> j < |ring| && ring[j].a == prevp && ring[Succ(ring, j)].n >= nunits
      ensures found <==> Fits(ring, nunits)
    {
      ghost var f :| 0 <= f < |ring| && ring[f].a == freep;
      ghost var d := 0;
      prevp, j := freep, f;
      while true
        invariant 0 <= d < |ring| && j == Wrap(f, d, |ring|)
        invariant prevp == ring[j].a && TooSmall(ring, f, d, nunits)
        decreases |ring| - d
      {
        assert Node(ptr, size, ring, j);
        var p := ptr[prevp];
        assert Succ(ring, j) == Wrap(f, d + 1, |ring|);
        assert Node(ptr, size, ring, Succ(ring, j));
        if size[p] >= nunits {
          assert ring[Succ(ring, j)].n >= nunits;
          return true, prevp, j;
        }
        StepTooSmall(ring, f, d, nunits);
        if p == freep {
          RingAddresses(ring, Succ(ring, j), f);
          AllTooSmall(ring, f, nunits);
          return false, prevp, j;
        }
        d := d + 1;
        prevp, j := p, Succ(ring, j);
      }
    }

    /**
     Allocates a block for `nbytes` bytes, or returns NULL. `grant` is what sbrk would answer, if asked.
     The block was not allocated before and, by Ready, is apart from all live blocks; more core is
     obtained at most once, and only if no free block is large enough.
     */
    method Malloc(nbytes: nat, grant: Option<nat>) returns (p: nat)
      requires Valid() && nbytes <= MAX_REQUEST
      requires grant.Some? ==> grant.value > BASE && grant.value >= (if freep == NULL then BASE + 1 else brk)
      modifies this
      ensures Ready()
      ensures p == NULL <==> !Fits(old(ring), Units(nbytes)) && grant.None?
      ensures p == NULL ==> live == old(live)
      ensures p != NULL ==> p - 1 !in old(live) && live == old(live)[p - 1 := Units(nbytes)]
      ensures area == if Fits(old(ring), Units(nbytes)) || grant.None? then old(area)
                      else old(area) + UnitsOf(Blk(grant.value, CoreUnits(Units(nbytes))))
    {
      var nunits := Units(nbytes);
      ghost var fits := Fits(ring, nunits);
      Init();
      assert Fits(ring, nunits) <==> fits;
      var grown := false;
      while true
        invariant Ready() && live == old(live)
        invariant !grown ==> (Fits(ring, nunits) <==> fits) && area == old(area)
        invariant !grown && grant.Some? ==> grant.value >= brk
        invariant grown ==> Fits(ring, nunits) && !fits && grant.Some?
        invariant grown ==> area == old(area) + UnitsOf(Blk(grant.value, CoreUnits(nunits)))
        decreases !grown
      {
        var found, prevp, j := Scan(nunits);
        if found {
          p := Take(prevp, nunits, j);
          return;
        }
        p := Morecore(nunits, grant);
        if p == NULL {
          return;
        }
        grown := true;
      }
    }
  }

  /** Every unit obtained from sbrk is in exactly one block: one free block, or one allocated block. */
  lemma OneOwner(ptr: map<nat, nat>, size: map<nat, nat>, freep: nat, r: seq<Blk>, live: map<nat, nat>,
                 area: set<int>, brk: nat, u: int)
    requires HeapInv(ptr, size, freep, r, live, area, brk)
    ensures u in area <==> FreeUnit(r, u) || LiveUnit(live, u)
    ensures !(FreeUnit(r, u) && LiveUnit(live, u))
    ensures forall i, j | 0 <= i < |r| && 0 <= j < |r| && Covers(r[i], u) && Covers(r[j], u) :: i == j
    ensures forall a, b | a in live && b in live && Covers(Blk(a, live[a]), u) && Covers(Blk(b, live[b]), u) :: a == b
  {
    forall i, a | 0 <= i < |r| && a in live ensures !(Covers(r[i], u) && Covers(Blk(a, live[a]), u)) {
      assert LiveOk(r, live, size, brk, a);
      assert Apart(r[i], Blk(a, live[a]));
    }
    forall i, j | 0 <= i < |r| && 0 <= j < |r| && Covers(r[i], u) && Covers(r[j], u) ensures i == j {
      if i < j {
        RingOrder(r, i, j);
      } else if j < i {
        RingOrder(r, j, i);
      }
    }
    forall a, b | a in live && b in live && Covers(Blk(a, live[a]), u) && Covers(Blk(b, live[b]), u) ensures a == b {
      assert a != b ==> Apart(Blk(a, live[a]), Blk(b, live[b]));
    }
  }

  lemma StepTooSmall(r: seq<Blk>, f: nat, d: nat, n: nat)
    requires TooSmall(r, f, d, n) && d < |r| && r[Wrap(f, d + 1, |r|)].n < n
    ensures TooSmall(r, f, d + 1, n)
  {
  }

  lemma ReleasedFits(r: seq<Blk>, r': seq<Blk>, b: Blk, n: nat)
    requires Released(r, r', b) && n <= b.n
    ensures Fits(r', n)
  {
    var k: nat :| Gap(r, k, b) && r' == Release(r, k, b);
    assert r'[if JoinsPrev(r, k, b) then k else k + 1].n >= b.n;
  }

  lemma RingPositive(r: seq<Blk>, a: nat)
    requires Ring(r) && exists i :: 0 <= i < |r| && r[i].a == a
    ensures a >= BASE
  {
    var i :| 0 <= i < |r| && r[i].a == a;
    if i > 0 {
      RingOrder(r, 0, i);
    }
  }
}
