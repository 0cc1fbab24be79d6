/** `kalloc.c` and `vm.c`: the page allocator and the address spaces built with it, as they run. */
module Vm {
  import opened PageTables
  import opened PageStates
  import opened PageSteps

  const KERNBASE: nat := 0x8000_0000
  const PGSIZE: nat := 4096

  /** The number of pages that hold `sz` bytes. */
  function PageUp(sz: nat): nat {
    (sz + PGSIZE - 1) / PGSIZE
  }

  /** The number of pages that the `size` bytes from `va` on lie in. */
  function Span(va: nat, size: nat): (n: nat)
    requires 0 < size
    ensures n > 0
  {
    (va + size - 1) / PGSIZE - va / PGSIZE + 1
  }

  // ---- the kernel's part of every address space ----

  /** `n` virtual pages from `va` on, mapped to the frames from `page` on. */
  datatype Range = Range(va: nat, page: nat, n: nat, perm: nat)

  /** `data` is the page of the kernel's first writable word, above its text and inside physical memory. */
  predicate KernelLayout(data: nat) {
    0x100 < data < 0xE000
  }

  function Kmap(data: nat): (r: seq<Range>)
    requires KernelLayout(data)
    ensures |r| == 4
  {
    [ Range(0x80000, 0, 0x100, PTE_W),
      Range(0x80100, 0x100, data - 0x100, 0),
      Range(0x80000 + data, data, 0xE000 - data, PTE_W),
      Range(0xFE000, 0xFE000, 0x2000, PTE_W) ]
  }

  /** The entry for page `w` after the first `k` ranges were mapped. */
  ghost function MapPte(kmap: seq<Range>, k: nat, w: nat): nat
    requires k <= |kmap| && forall r | r in kmap :: r.perm < 4095
  {
    if k == 0 then 0
    else
      var r := kmap[k - 1];
      if r.va <= w < r.va + r.n then Entry(r.page + w - r.va, WithPresent(r.perm)) else MapPte(kmap, k - 1, w)
  }

  /** What the kernel part means: physical memory at KERNBASE, read-only up to `data`, and the devices at the top. */
  ghost function KernelPte(data: nat, w: nat): nat {
    if 0x80000 <= w < 0x8E000 then
      Entry(w - 0x80000, if 0x80100 <= w < 0x80000 + data then PTE_P else PTE_P + PTE_W)
    else if 0xFE000 <= w < 0x100000 then Entry(w, PTE_P + PTE_W)
    else 0
  }

  lemma KmapMeaning(data: nat, w: nat)
    requires KernelLayout(data) && w < ALL_PAGES
    ensures MapPte(Kmap(data), 4, w) == KernelPte(data, w)
  {
    var m := Kmap(data);
    assert MapPte(m, 1, w) == if 0x80000 <= w < 0x80100 then Entry(w - 0x80000, 3) else 0;
    assert MapPte(m, 2, w) == if 0x80100 <= w < 0x80000 + data then Entry(w - 0x80000, 1) else MapPte(m, 1, w);
    assert MapPte(m, 3, w) == if 0x80000 + data <= w < 0x8E000 then Entry(w - 0x80000, 3) else MapPte(m, 2, w);
  }

  lemma {:induction false} AboveRanges(kmap: seq<Range>, k: nat, w: nat)
    requires k <= |kmap| && (forall r | r in kmap :: r.perm < 4095) && forall i | 0 <= i < k ::
               kmap[i].va + kmap[i].n <= w
    ensures MapPte(kmap, k, w) == 0
  {
    if k > 0 {
      AboveRanges(kmap, k - 1, w);
    }
  }

  lemma SpanOfPages(va: nat, n: nat)
    requires n > 0
    ensures Span(va * PGSIZE, n * PGSIZE) == n
  {
    assert (va * PGSIZE + n * PGSIZE - 1) / PGSIZE == va + n - 1;
  }

  lemma KmapVacant(s: State, d: nat, data: nat, k: nat)
    requires KernelLayout(data) && k < 4 && forall w | 0 <= w < ALL_PAGES ::
               PteAt(s.mem, d, w) == MapPte(Kmap(data), k, w)
    ensures var r := Kmap(data)[k];
            && r.va >= USER_PAGES && r.va + r.n <= ALL_PAGES && CanMap(s, d, r.va, r.n, r.page)
            && Span(r.va * PGSIZE, r.n * PGSIZE) == r.n
  {
    var m := Kmap(data);
    var r := m[k];
    SpanOfPages(r.va, r.n);
    forall x | 0 <= x < r.n ensures CanMapAt(s, d, r.va, r.page, x) {
      AboveRanges(m, k, r.va + x);
    }
  }

  /** The kernel's tables after `k` ranges: those of the low ranges up to this one, and at last the devices' eight. */
  function KmapEnd(data: nat, k: nat): nat
    requires KernelLayout(data)
  {
    if k == 0 then 512 else if k == 1 then 513 else if k == 2 then High(0x80000 + data - 1) + 1 else 568
  }

  function KmapTables(data: nat, k: nat): nat
    requires KernelLayout(data)
  {
    KmapEnd(data, k) - 512 + (if k == 4 then 8 else 0)
  }

  /** The pages that a new address space takes: its directory and sixty-four tables. */
  const KVM_PAGES: nat := 65

  /** From `s0` to `s` directory `d` was made and the first `k` ranges of the kernel map were put in it. */
  ghost predicate KmapDone(s0: State, s: State, d: nat, data: nat, k: nat)
    requires KernelLayout(data) && k <= 4
  {
    && Good(s) && IsDir(s, d) && Founded(s0, s, d)
    && (forall w | 0 <= w < ALL_PAGES :: PteAt(s.mem, d, w) == MapPte(Kmap(data), k, w))
    && KmapTabled(s, d, data, k) && |s0.free| == |s.free| + 1 + KmapTables(data, k)
  }

  ghost predicate KmapTabled(s: State, d: nat, data: nat, k: nat)
    requires KernelLayout(data)
  {
    forall i | 0 <= i < WORDS :: HasTable(s, d, i) <==> 512 <= i < KmapEnd(data, k) || (k == 4 && 1016 <= i)
  }

  lemma KmapMissing(s: State, d: nat, data: nat, k: nat)
    requires KernelLayout(data) && k < 4 && KmapTabled(s, d, data, k)
    ensures var r := Kmap(data)[k];
            && Missing(s, d, High(r.va), TablesEnd(r.va, r.n)) == KmapTables(data, k + 1) - KmapTables(data, k)
            && High(r.va) >= 512 && TablesEnd(r.va, r.n) <= WORDS
            && (k < 3 ==> High(r.va) <= KmapEnd(data, k) <= TablesEnd(r.va, r.n) == KmapEnd(data, k + 1))
            && (k == 3 ==> High(r.va) == 1016 && TablesEnd(r.va, r.n) == WORDS)
  {
    var r := Kmap(data)[k];
    MissingFrom(s, d, High(r.va), if k < 3 then KmapEnd(data, k) else 1016, TablesEnd(r.va, r.n));
  }

  lemma KmapTablesGrow(data: nat, k: nat)
    requires KernelLayout(data) && k <= 4
    ensures KmapTables(data, k) <= 64 && KmapTables(data, 4) == 64
  {
  }

  /** The range was mapped. */
  lemma KmapMore(s0: State, s: State, s2: State, d: nat, data: nat, k: nat, n: nat)
    requires Good(s0) && KernelLayout(data) && k < 4 && KmapDone(s0, s, d, data, k)
    requires var r := Kmap(data)[k];
             && n == r.n && r.perm < 4096
             && MapProgress(s, s2, d, r.va, n, r.page, WithPresent(r.perm))
    ensures KmapDone(s0, s2, d, data, k + 1)
  {
    var r := Kmap(data)[k];
    KmapMissing(s, d, data, k);
    FoundedMore(s0, s, s2, d, r.va, n, r.page, WithPresent(r.perm));
  }

  // ---- lemmas about freeing ----

  lemma UnmappedAll(s: State, s2: State, d: nat)
    requires Good(s) && Unmapped(s, s2, d, 0, USER_PAGES)
    ensures NoUserPages(s2, d)
  {
    forall p | 0 <= p < |s2.owner| ensures !UserIn(s2.owner[p], d, 0, USER_PAGES) {
      assert PageOk(s.mem, s.owner, p);
      assert UnmappedAt(s, s2, d, 0, USER_PAGES, p);
    }
  }

  lemma TornDown(s: State, s1: State, s2: State, d: nat)
    requires Good(s) && Unmapped(s, s1, d, 0, USER_PAGES) && Released(s1, s2, d)
    ensures Released(s, s2, d)
  {
    KeptTrans(s, s1, s2, d);
    forall p | 0 <= p < |s.owner| ensures s2.owner[p] == if Foreign(s.owner, p, d) then s.owner[p] else Free {
      assert KeptAt(s, s1, d, p);
    }
  }

  /** The first `n` pages were mapped, and the tables for them made. */
  ghost predicate MapProgress(s: State, s2: State, d: nat, v: nat, n: nat, page: nat, flags: nat)
    requires flags < 4096
  {
    Good(s2) && IsDir(s2, d) && MappedTo(s, s2, d, v, n, page, flags) && Spent(s, s2, d, High(v), TablesEnd(v, n), 0)
  }

  /** When a table for the `n`th page cannot be made there was not enough memory for all `m` pages. */
  lemma MapShort(s: State, s2: State, d: nat, v: nat, n: nat, m: nat)
    requires Spent(s, s2, d, High(v), TablesEnd(v, n), 0) && s2.free == [] && n < m && v + m <= ALL_PAGES
    requires !HasTable(s2, d, High(v + n))
    ensures |s.free| < Missing(s, d, High(v), TablesEnd(v, m))
  {
    NextTable(v, n);
    SplitPage(v + n);
    SplitPage(v + m - 1);
    SpentAll(s, s2, d, High(v), TablesEnd(v, n), 0, High(v + n), TablesEnd(v, m));
  }

  // ---- growing an address space ----

  /** Virtual page `w` is mapped for the user, writable, to a zeroed frame. */
  ghost predicate ZeroMapped(s: State, d: nat, w: nat) {
    var e := PteAt(s.mem, d, w);
    && Present(e) && Flags(e) == PTE_P + PTE_W + PTE_U
    && Frame(e) < |s.mem| == |s.owner| && s.owner[Frame(e)] == User(d, High(w), Low(w)) && s.mem[Frame(e)] == ZeroPage()
  }

  /** The role of page `p` after the user pages from `lo` to `v` were added; `q` is a page that the code has in hand. */
  ghost predicate AllocAt(s: State, s2: State, d: nat, lo: nat, v: nat, q: nat, p: nat)
    requires p < |s.mem| == |s.owner| == |s2.mem| == |s2.owner|
  {
    if p == q then s.owner[p] == Free && s2.owner[p] == Held
    else
      && (s2.owner[p] == s.owner[p]
          || (s.owner[p] == Free && (TableFrom(s2.owner[p], d, 0) || UserIn(s2.owner[p], d, lo, v))))
      && (Foreign(s.owner, p, d) || s.owner[p].User? ==> s2.mem[p] == s.mem[p])
  }

  /** Between `s` and `s2` exactly the user pages of `d` from `lo` to `v` were added, zeroed. */
  ghost predicate Allocated(s: State, s2: State, d: nat, lo: nat, v: nat, q: nat) {
    && Good(s2) && IsDir(s2, d) && s2.first == s.first && |s.mem| == |s.owner| == |s2.mem|
    && (forall w | 0 <= w < ALL_PAGES ::
          if lo <= w < v then ZeroMapped(s2, d, w) else PteAt(s2.mem, d, w) == PteAt(s.mem, d, w))
    && forall p | 0 <= p < |s.mem| :: AllocAt(s, s2, d, lo, v, q, p)
  }

  ghost predicate Vacant(s: State, d: nat, lo: nat, end: nat) {
    forall w | lo <= w < end :: !Present(PteAt(s.mem, d, w))
  }

  lemma AllocCanMap(s: State, s2: State, d: nat, lo: nat, v: nat, end: nat, q: nat)
    requires Allocated(s, s2, d, lo, v, q) && Vacant(s, d, lo, end) && lo <= v < end <= USER_PAGES && q < |s.mem|
    ensures CanMapAt(s2, d, v, q, 0)
  {
    assert AllocAt(s, s2, d, lo, v, q, q);
    assert PteAt(s2.mem, d, v) == PteAt(s.mem, d, v);
  }

  /** A `mappages` that failed on its first page changed nothing that matters. */
  lemma AllocSame(s: State, s2: State, s3: State, d: nat, lo: nat, v: nat, q: nat)
    requires Allocated(s, s2, d, lo, v, q) && Good(s3) && IsDir(s3, d) && q < |s.mem| && v <= USER_PAGES
    requires MappedTo(s2, s3, d, v, 0, q, PTE_P + PTE_W + PTE_U)
    ensures Allocated(s, s3, d, lo, v, q)
  {
    forall w | 0 <= w < ALL_PAGES
      ensures if lo <= w < v then ZeroMapped(s3, d, w) else PteAt(s3.mem, d, w) == PteAt(s.mem, d, w)
    {
      if lo <= w < v {
        assert ZeroMapped(s2, d, w);
        assert HandOverAt(s2, s3, d, v, 0, q, Frame(PteAt(s2.mem, d, w)));
      }
    }
    forall p | 0 <= p < |s.mem| ensures AllocAt(s, s3, d, lo, v, q, p) {
      assert AllocAt(s, s2, d, lo, v, q, p) && HandOverAt(s2, s3, d, v, 0, q, p);
    }
  }

  lemma RollbackDone(s: State, s2: State, d: nat, q: nat)
    requires Good(s) && RolledBack(s, s2, d, q) && q < |s.mem|
    ensures s2.owner[q] == Held && s2.first <= q && RolledBack(s, Push(s2, q), d, |s.mem|)
  {
    var s3 := Push(s2, q);
    PushGood(s2, q);
    forall w | 0 <= w < ALL_PAGES ensures SameMapping(PteAt(s.mem, d, w), PteAt(s3.mem, d, w)) {
      WriteIdlePte(s2, q, Junk(s2.head), d, w);
    }
    forall p | 0 <= p < |s.mem| ensures GrewAt(s, s3, d, p) {
      assert p != q ==> GrewAt(s, s2, d, p);
    }
  }

  /** The user pages from `lo` to `v` were added: so many frames, and the tables for them, came off the free list. */
  ghost predicate Grown(s: State, s2: State, d: nat, lo: nat, v: nat) {
    lo <= v && Spent(s, s2, d, High(lo), TablesEnd(lo, v - lo), v - lo)
  }

  /** Then the frame for page `v` was taken too. */
  ghost predicate InHand(s: State, s2: State, d: nat, lo: nat, v: nat) {
    lo <= v && Spent(s, s2, d, High(lo), TablesEnd(lo, v - lo), v - lo + 1)
  }

  lemma GrowPage(s: State, s2: State, s3: State, d: nat, lo: nat, v: nat)
    requires Grown(s, s2, d, lo, v) && |s2.free| == |s3.free| + 1 && d < |s2.mem| && d < |s3.mem|
             && s3.mem[d] == s2.mem[d]
    ensures InHand(s, s3, d, lo, v)
  {
    SpentPage(s, s2, s3, d, High(lo), TablesEnd(lo, v - lo), v - lo);
  }

  lemma NeedsMore(s: State, d: nat, lo: nat, v: nat, end: nat)
    requires lo <= v < end <= ALL_PAGES
    ensures Needs(s, d, lo, end) >= end - lo + Missing(s, d, High(lo), TablesEnd(lo, v - lo))
  {
    SplitPage(lo);
    SplitPage(end - 1);
    if v > lo {
      SplitPage(v - 1);
    }
    MissingGrows(s, d, High(lo), TablesEnd(lo, v - lo), TablesEnd(lo, end - lo));
  }

  /** No frame is left for page `v`. */
  lemma GrowShort(s: State, s2: State, d: nat, lo: nat, v: nat, end: nat)
    requires Grown(s, s2, d, lo, v) && s2.free == [] && v < end <= ALL_PAGES
    ensures |s.free| < Needs(s, d, lo, end)
  {
    NeedsMore(s, d, lo, v, end);
  }

  /** Page `v` was mapped to the frame in hand, or its table could not be made. */
  lemma GrowTable(s: State, s2: State, s3: State, d: nat, lo: nat, v: nat, end: nat, ok: bool)
    requires InHand(s, s2, d, lo, v) && v < end <= ALL_PAGES
    requires ok ==> Spent(s2, s3, d, High(v), TablesEnd(v, 1), 0)
    requires !ok ==> |s2.free| < Missing(s2, d, High(v), TablesEnd(v, 1))
    ensures ok ==> Grown(s, s3, d, lo, v + 1)
    ensures !ok ==> |s.free| < Needs(s, d, lo, end)
  {
    NextTable(lo, v - lo);
    assert Missing(s2, d, High(v), High(v)) == 0;
    if ok {
      SpentMore(s, s2, s3, d, High(lo), TablesEnd(lo, v - lo), v - lo + 1, High(v), 0);
    } else {
      SplitPage(end - 1);
      SplitPage(v);
      SpentAll(s, s2, d, High(lo), TablesEnd(lo, v - lo), v - lo + 1, High(v), TablesEnd(lo, end - lo));
    }
  }

  /** `kalloc` and `memset`: a zeroed page `q` in hand. */
  lemma AllocTake(s: State, s2: State, s3: State, d: nat, lo: nat, v: nat, q: nat)
    requires Allocated(s, s2, d, lo, v, |s.mem|) && Good(s3) && q < |s2.mem| && s2.owner[q] == Free && v <= USER_PAGES
    requires s3.first == s2.first && s3.mem == s2.mem[q := ZeroPage()] && s3.owner == s2.owner[q := Held]
    ensures Allocated(s, s3, d, lo, v, q)
  {
    forall w | 0 <= w < ALL_PAGES
      ensures if lo <= w < v then ZeroMapped(s3, d, w) else PteAt(s3.mem, d, w) == PteAt(s.mem, d, w)
    {
      WriteIdlePte(s2, q, ZeroPage(), d, w);
    }
    forall p | 0 <= p < |s.mem| ensures AllocAt(s, s3, d, lo, v, q, p) {
      assert AllocAt(s, s2, d, lo, v, |s.mem|, p);
    }
  }

  /** `mappages` of the page in hand. */
  lemma AllocMap(s: State, s2: State, s3: State, d: nat, lo: nat, v: nat, q: nat)
    requires Allocated(s, s2, d, lo, v, q) && q < |s.mem| && s2.mem[q] == ZeroPage() && lo <= v < USER_PAGES
    requires Good(s3) && IsDir(s3, d) && MappedTo(s2, s3, d, v, 1, q, PTE_P + PTE_W + PTE_U)
    ensures Allocated(s, s3, d, lo, v + 1, |s.mem|)
  {
    SplitPage(v);
    forall w | 0 <= w < ALL_PAGES
      ensures if lo <= w < v + 1 then ZeroMapped(s3, d, w) else PteAt(s3.mem, d, w) == PteAt(s.mem, d, w)
    {
      if w == v {
        assert HandOverAt(s2, s3, d, v, 1, q, q);
      } else if lo <= w < v {
        assert ZeroMapped(s2, d, w);
        assert HandOverAt(s2, s3, d, v, 1, q, Frame(PteAt(s2.mem, d, w)));
      }
    }
    var end, none := v + 1, |s.mem|;
    forall p | 0 <= p < |s.mem| ensures AllocAt(s, s3, d, lo, end, none, p) {
      assert AllocAt(s, s2, d, lo, v, q, p) && HandOverAt(s2, s3, d, v, 1, q, p);
    }
  }

  lemma AllocNone(s: State, d: nat, lo: nat)
    requires Good(s) && IsDir(s, d)
    ensures Allocated(s, s, d, lo, lo, |s.mem|)
  {
    var none := |s.mem|;
    forall p | 0 <= p < |s.mem| ensures AllocAt(s, s, d, lo, lo, none, p) {
    }
  }

  /** The address space maps what it mapped before; some free pages may have become page tables of it. */
  ghost predicate RolledBack(s: State, s2: State, d: nat, q: nat) {
    && Good(s2) && IsDir(s2, d) && s2.first == s.first && |s.mem| == |s.owner| == |s2.mem|
    && (forall w | 0 <= w < ALL_PAGES :: SameMapping(PteAt(s.mem, d, w), PteAt(s2.mem, d, w)))
    && forall p | 0 <= p < |s.mem| :: if p == q then s.owner[p] == Free && s2.owner[p] == Held else GrewAt(s, s2, d, p)
  }

  ghost predicate SameMapping(e: nat, e2: nat) {
    if Present(e) then e2 == e else !Present(e2)
  }

  lemma AllocUndone(s: State, s2: State, s3: State, d: nat, lo: nat, v: nat, end: nat, q: nat)
    requires Good(s) && Allocated(s, s2, d, lo, v, q) && lo <= v <= end <= USER_PAGES && Unmapped(s2, s3, d, lo, end)
    requires Vacant(s, d, lo, end)
    ensures RolledBack(s, s3, d, q)
  {
    forall w | 0 <= w < ALL_PAGES ensures SameMapping(PteAt(s.mem, d, w), PteAt(s3.mem, d, w)) {
      if lo <= w < v {
        assert ZeroMapped(s2, d, w);
      }
    }
    forall p | 0 <= p < |s.mem|
      ensures if p == q then s.owner[p] == Free && s3.owner[p] == Held else GrewAt(s, s3, d, p)
    {
      assert AllocAt(s, s2, d, lo, v, q, p) && UnmappedAt(s2, s3, d, lo, end, p) && KeptAt(s2, s3, d, p);
      if UserIn(s.owner[p], d, lo, end) {
        RoleMapped(s, d, p);
      }
    }
  }

  // ---- copying an address space ----

  /** Page `w` of `d` holds what page `w` of `parent` held in state `s`, in a frame of its own, with the same flags. */
  ghost predicate CopiedAt(s: State, s2: State, parent: nat, d: nat, w: nat) {
    var e, c := PteAt(s.mem, parent, w), PteAt(s2.mem, d, w);
    && Present(c) && Flags(c) == Flags(e)
    && Frame(e) < |s.mem| && Frame(c) < |s2.mem| == |s2.owner| && s2.owner[Frame(c)] == User(d, High(w), Low(w))
    && s2.mem[Frame(c)] == s.mem[Frame(e)]
  }

  /** `d` was made out of free pages as a copy of the first `n` pages of `parent`, and nothing else changed. */
  ghost predicate Copied(s: State, s2: State, parent: nat, d: nat, n: nat, data: nat) {
    && Good(s2) && IsDir(s2, d) && d < |s.owner| && s.owner[d] == Free && Kept(s, s2, d)
    && (forall w | 0 <= w < n :: CopiedAt(s, s2, parent, d, w))
    && (forall w | n <= w < ALL_PAGES :: PteAt(s2.mem, d, w) == KernelPte(data, w))
  }

  lemma CopyNone(s: State, s2: State, parent: nat, d: nat, data: nat)
    requires Good(s) && Good(s2) && Founded(s, s2, d) && forall w | 0 <= w < ALL_PAGES ::
               PteAt(s2.mem, d, w) == KernelPte(data, w)
    ensures Copied(s, s2, parent, d, 0, data)
  {
    FoundedKept(s, s2, d);
  }

  /** What the copy of `n` pages needs beside the kernel's part: the frames, and tables for them. */
  lemma CopyNeeds(s: State, k: State, d: nat, data: nat, n: nat)
    requires KernelLayout(data) && KmapDone(s, k, d, data, 4) && n <= USER_PAGES
    ensures Grown(k, k, d, 0, 0)
    ensures |s.free| == |k.free| + KVM_PAGES && Needs(k, d, 0, n) == n + TablesEnd(0, n)
  {
    KmapTablesGrow(data, 4);
    if n > 0 {
      SplitPage(n - 1);
      MissingFrom(k, d, 0, 0, TablesEnd(0, n));
    }
  }

  /** Page `q` was taken, filled from the parent's page `v`, and mapped at `v`. */
  lemma CopyMap(s: State, s1: State, s2: State, s3: State, parent: nat, d: nat, v: nat, q: nat, data: nat)
    requires Good(s) && IsDir(s, parent) && v < USER_PAGES && Copied(s, s1, parent, d, v, data)
    requires Present(PteAt(s.mem, parent, v)) && q < |s1.mem| && s1.owner[q] == Free
             && Frame(PteAt(s.mem, parent, v)) < |s1.mem|
    requires s2.first == s1.first && s2.owner == s1.owner[q := Held]
             && s2.mem == s1.mem[q := s1.mem[Frame(PteAt(s.mem, parent, v))]]
    requires Good(s3) && IsDir(s3, d) && MappedTo(s2, s3, d, v, 1, q, Flags(PteAt(s.mem, parent, v)))
    ensures Copied(s, s3, parent, d, v + 1, data)
  {
    ParentSame(s, s1, parent, d, v);
    SplitPage(v);
    forall w | 0 <= w < v + 1 ensures CopiedAt(s, s3, parent, d, w) {
      if w == v {
        assert HandOverAt(s2, s3, d, v, 1, q, q);
      } else {
        assert CopiedAt(s, s1, parent, d, w);
        WriteIdlePte(s1, q, s2.mem[q], d, w);
        assert HandOverAt(s2, s3, d, v, 1, q, Frame(PteAt(s1.mem, d, w)));
      }
    }
    forall w | v + 1 <= w < ALL_PAGES ensures PteAt(s3.mem, d, w) == KernelPte(data, w) {
      WriteIdlePte(s1, q, s2.mem[q], d, w);
    }
    forall p | 0 <= p < |s1.mem| ensures KeptAt(s1, s3, d, p) {
      assert HandOverAt(s2, s3, d, v, 1, q, p);
    }
    KeptTrans(s, s1, s3, d);
  }

  /** The copy could not be mapped, and page `q` goes back to the free list. */
  lemma CopyFailed(s1: State, s2: State, s3: State, d: nat, v: nat, q: nat, flags: nat)
    requires Good(s3) && IsDir(s3, d) && flags < 4096 && MappedTo(s2, s3, d, v, 0, q, flags) && q < |s2.mem|
    requires s1.first == s2.first && |s1.mem| == |s1.owner| == |s2.mem|
    requires s1.owner[q] == Free && s2.owner == s1.owner[q := Held] && s2.mem == s1.mem[q := s2.mem[q]]
    ensures s3.owner[q] == Held && Good(Push(s3, q)) && IsDir(Push(s3, q), d) && Kept(s1, Push(s3, q), d)
  {
    assert HandOverAt(s2, s3, d, v, 0, q, q);
    PushGood(s3, q);
    forall p | 0 <= p < |s1.mem| ensures KeptAt(s1, Push(s3, q), d, p) {
      assert HandOverAt(s2, s3, d, v, 0, q, p);
    }
  }

  lemma ParentSame(s: State, s1: State, parent: nat, d: nat, v: nat)
    requires Good(s) && Good(s1) && Kept(s, s1, d) && IsDir(s, parent) && d < |s.owner| && s.owner[d] == Free
             && v < USER_PAGES
    requires Present(PteAt(s.mem, parent, v))
    ensures IsDir(s1, parent) && PteAt(s1.mem, parent, v) == PteAt(s.mem, parent, v)
    ensures var f := Frame(PteAt(s.mem, parent, v)); f < |s.mem| && s1.mem[f] == s.mem[f]
  {
    KeptMeaning(s, s1, d, parent, v);
  }

  class Memory32 {
    /** Pages below this one hold the kernel and are not managed. */
    const first: nat
    var mem: Memory
    var freelist: nat
    ghost var owner: seq<Role>
    ghost var free: seq<nat>
    ghost var place: seq<nat>

    ghost function View(): State reads this {
      State(first, mem, freelist, owner, free, place)
    }

    // ---- kalloc.c ----

    /** The machine before `kinit1`: the managed pages are not yet on the free list. */
    constructor (first: nat, mem: Memory)
      requires 0 < first <= |mem| && Shape(mem)
      ensures Good(View()) && this.first == first && this.mem == mem && free == []
      ensures forall p | first <= p < |mem| :: owner[p] == Held
    {
      this.first, this.mem, freelist, free := first, mem, 0, [];
      owner := seq(|mem|, p => if p < first then Boot else Held);
      place := seq(|mem|, p => 0);
    }

    method FreeRange(lo: nat, hi: nat)
      requires Good(View()) && first <= lo <= hi <= |mem| && forall p | lo <= p < hi :: owner[p] == Held
      modifies this
      ensures Good(View()) && |mem| == old(|mem|)
      ensures forall p | 0 <= p < |mem| :: owner[p] == if lo <= p < hi then Free else old(owner[p])
    {
      for p := lo to hi
        invariant Good(View()) && |mem| == old(|mem|)
        invariant forall q | 0 <= q < |mem| :: owner[q] == if lo <= q < p then Free else old(owner[q])
      {
        PushGood(View(), p);
        Kfree(p);
      }
    }

    method Kalloc() returns (p: nat)
      requires Good(View())
      modifies this
      ensures Good(View()) && mem == old(mem)
      ensures p == 0 ==> old(free) == [] && View() == old(View())
      ensures p != 0 ==> p < |mem| && old(owner[p]) == Free && owner == old(owner)[p := Held]
                         && |old(free)| == |free| + 1
    {
      HeadIsNull(View());
      p := freelist;
      if p != 0 {
        PopGood(View());
        HeadIsFree(View());
        ghost var s := Pop(View());
        freelist := mem[p][0];
        owner, free := s.owner, s.free;
      }
    }

    method Kfree(p: nat)
      requires FreeInv(View()) && 0 < first <= p < |mem| && owner[p] != Free
      modifies this
      ensures View() == Push(old(View()), p) && FreeInv(View())
    {
      PushFree(View(), p);
      ghost var s := Push(View(), p);
      mem := mem[p := Junk(freelist)];
      freelist := p;
      owner, free, place := s.owner, s.free, s.place;
    }

    /** `memset` or `memmove` over a page that the running code holds. */
    method FillHeld(p: nat, page: seq<nat>)
      requires Good(View()) && p < |mem| && owner[p] == Held && |page| == WORDS
      modifies this`mem
      ensures Good(View()) && mem == old(mem)[p := page]
    {
      WriteIdle(mem, owner, p, page);
      FreeKeeps(View(), mem[p := page], owner);
      mem := mem[p := page];
    }

    // ---- vm.c ----

    /** The table that holds the entry of virtual page `v`, or 0. */
    method Walk(d: nat, v: nat, alloc: bool) returns (t: nat)
      requires Good(View()) && IsDir(View(), d) && v < ALL_PAGES
      modifies this
      ensures Good(View()) && IsDir(View(), d) && MappedTo(old(View()), View(), d, 0, 0, 0, 0)
      ensures t != 0 ==> IsTable(mem, owner, d, High(v), t)
      ensures t != 0 ==> Spent(old(View()), View(), d, High(v), High(v) + 1, 0)
      ensures t == 0 ==> !HasTable(View(), d, High(v)) && (alloc ==> free == [])
      ensures t == 0 || !alloc ==> View() == old(View())
    {
      SplitPage(v);
      MappedEmpty(View(), d, 0, 0, 0);
      assert Missing(View(), d, High(v), High(v)) == 0;
      if Present(mem[d][High(v)]) {
        t := Frame(mem[d][High(v)]);
        TableOf(mem, owner, d, High(v));
      } else if !alloc {
        t := 0;
      } else {
        t := Kalloc();
        if t != 0 {
          FillHeld(t, ZeroPage());
          TableAdded(old(View()), View(), d, High(v), t);
          ghost var s := WithTable(View(), d, High(v), t);
          mem, owner := Put(mem, d, High(v), Entry(t, PTE_P + PTE_W + PTE_U)), s.owner;
        }
      }
    }

    /** One turn of the loop of `mappages`. */
    method MapPage(d: nat, v: nat, page: nat, perm: nat) returns (ok: bool)
      requires Good(View()) && IsDir(View(), d) && v < ALL_PAGES && perm < 4096 && CanMapAt(View(), d, v, page, 0)
      modifies this
      ensures Good(View()) && IsDir(View(), d)
      ensures ok ==> MappedTo(old(View()), View(), d, v, 1, page, WithPresent(perm))
      ensures ok ==> Spent(old(View()), View(), d, High(v), High(v) + 1, 0)
      ensures !ok ==> View() == old(View()) && free == [] && !HasTable(View(), d, High(v))
    {
      SplitPage(v);
      var t := Walk(d, v, true);
      ok := t != 0;
      if ok {
        MappedOne(old(View()), View(), d, v, t, page, WithPresent(perm));
        ghost var s := WithMapping(View(), d, v, t, Entry(page, WithPresent(perm)));
        mem, owner := Put(mem, t, Low(v), Entry(page, WithPresent(perm))), s.owner;
      }
    }

    /** The `n`th turn of the loop, and whether there was memory for all `m` pages. */
    method MapTurn(d: nat, a: nat, pa: nat, perm: nat, ghost s: State, ghost v: nat, ghost n: nat, ghost m: nat,
                   ghost page: nat)
      returns (ok: bool)
      requires perm < 4096 && MapProgress(s, View(), d, v, n, page, WithPresent(perm)) && CanMap(s, d, v, m, page)
      requires n < m && v + m <= ALL_PAGES && a == v + n && pa == page + n
      modifies this
      ensures MapProgress(s, View(), d, v, if ok then n + 1 else n, page, WithPresent(perm))
      ensures !ok ==> |s.free| < Missing(s, d, High(v), TablesEnd(v, m))
    {
      CanMapNext(s, View(), d, v, n, m, page, WithPresent(perm));
      NextTable(v, n);
      ok := MapPage(d, a, pa, perm);
      if ok {
        MappedTrans(s, old(View()), View(), d, v, n, page, WithPresent(perm));
        SpentMore(s, old(View()), View(), d, High(v), TablesEnd(v, n), 0, High(a), 0);
      } else {
        MapShort(s, View(), d, v, n, m);
      }
    }

    /** The pages that hold the `size` bytes from `va` on get entries that map them to the frames from `page` on. */
    method MapPages(d: nat, va: nat, size: nat, page: nat, perm: nat) returns (ok: bool, ghost n: nat)
      requires Good(View()) && IsDir(View(), d) && perm < 4096 && 0 < size && va + size <= ALL_PAGES * PGSIZE
      requires CanMap(View(), d, va / PGSIZE, Span(va, size), page)
      modifies this
      ensures n <= Span(va, size) && MapProgress(old(View()), View(), d, va / PGSIZE, n, page, WithPresent(perm))
      ensures ok <==> n == Span(va, size)
      ensures ok <==> |old(free)| >= Missing(old(View()), d, High(va / PGSIZE), TablesEnd(va / PGSIZE, Span(va, size)))
    {
      var a, last := va / PGSIZE, (va + size - 1) / PGSIZE;
      var pa := page;
      ghost var v := a;
      n := 0;
      MappedEmpty(View(), d, a, page, WithPresent(perm));
      while true
        invariant n < Span(va, size) && a == v + n && pa == page + n
        invariant MapProgress(old(View()), View(), d, v, n, page, WithPresent(perm))
        decreases last - a
      {
        ok := MapTurn(d, a, pa, perm, old(View()), v, n, Span(va, size), page);
        if !ok {
          return;
        }
        n := n + 1;
        if a == last {
          return;
        }
        a, pa := a + 1, pa + 1;
      }
    }

    /** `mappages` of a single page. */
    method MapFrame(d: nat, v: nat, page: nat, perm: nat) returns (ok: bool)
      requires Good(View()) && IsDir(View(), d) && perm < 4096 && v < ALL_PAGES && CanMapAt(View(), d, v, page, 0)
      modifies this
      ensures MapProgress(old(View()), View(), d, v, if ok then 1 else 0, page, WithPresent(perm))
      ensures ok <==> |old(free)| >= Missing(old(View()), d, High(v), TablesEnd(v, 1))
    {
      SpanOfPages(v, 1);
      ghost var n;
      ok, n := MapPages(d, v * PGSIZE, PGSIZE, page, perm);
    }

    /** Unmaps the pages from `newsz` up to `oldsz`; the loop jumps over directory entries that are not present. */
    method DeallocUvm(d: nat, oldsz: nat, newsz: nat) returns (sz: nat)
      requires Good(View()) && IsDir(View(), d) && oldsz <= KERNBASE
      modifies this
      ensures sz == if newsz >= oldsz then oldsz else newsz
      ensures Good(View()) && IsDir(View(), d)
      ensures View() == if newsz >= oldsz then old(View()) else Plain(old(View()), d, PageUp(newsz), PageUp(oldsz))
    {
      if newsz >= oldsz {
        return oldsz;
      }
      var v := PageUp(newsz);
      ghost var end := PageUp(oldsz);
      ghost var target := Plain(View(), d, v, end);
      while v * PGSIZE < oldsz
        invariant Good(View()) && IsDir(View(), d) && Plain(View(), d, v, end) == target
        decreases oldsz - v * PGSIZE
      {
        SplitPage(v);
        var t := Walk(d, v, false);
        if t == 0 {
          var next := (High(v) + 1) * WORDS;
          PlainSkip(View(), d, v, if next <= end then next else end, end);
          v := next;
        } else {
          if Present(mem[t][Low(v)]) {
            UnmapPage(d, v, t);
          }
          v := v + 1;
        }
      }
      sz := newsz;
    }

    /** The frame of a present entry goes back to the allocator, and then the entry is cleared. */
    method UnmapPage(d: nat, v: nat, t: nat)
      requires Good(View()) && v < USER_PAGES && IsTable(mem, owner, d, High(v), t)
      requires Low(v) < WORDS && Present(mem[t][Low(v)])
      modifies this
      ensures old(Good(View()) && IsDir(View(), d)) && View() == Unmap(old(View()), d, v) && Good(View())
              && IsDir(View(), d)
    {
      SplitPage(v);
      UnmapStep(View(), d, v);
      DropGood(View(), d, High(v), t, Low(v));
      Kfree(Frame(mem[t][Low(v)]));
      mem := Put(mem, t, Low(v), 0);
    }

    /** Gives back the user pages, the page tables and the directory of `d`. */
    method FreeVm(d: nat)
      requires Good(View()) && IsDir(View(), d)
      modifies this
      ensures Released(old(View()), View(), d)
    {
      PlainUnmaps(View(), d, 0, USER_PAGES);
      var _ := DeallocUvm(d, KERNBASE, 0);
      ghost var s := View();
      UnmappedAll(old(View()), s, d);
      FreeTables(d);
      TornDown(old(View()), s, View(), d);
    }

    /** The loop of `freevm` over the directory, and then the directory itself. */
    method FreeTables(d: nat)
      requires Good(View()) && IsDir(View(), d) && NoUserPages(View(), d)
      modifies this
      ensures Released(old(View()), View(), d)
    {
      ghost var s := View();
      Dismantle(s, d);
      owner := Tearing(owner, d, 0);
      for i := 0 to WORDS
        invariant Good(View()) && |mem| == |s.mem| && owner == Tearing(s.owner, d, i) && mem[d] == s.mem[d]
        invariant forall p | 0 <= p < |mem| && Foreign(s.owner, p, d) :: mem[p] == s.mem[p]
      {
        TearStep(s, d, i);
        if Present(mem[d][i]) {
          PushGood(View(), Frame(mem[d][i]));
          Kfree(Frame(mem[d][i]));
        }
      }
      PushGood(View(), d);
      Kfree(d);
      TearDone(s, d);
      forall p | 0 <= p < |s.mem| ensures KeptAt(s, View(), d, p) {
      }
    }

    /** A new address space with the kernel's mappings and no user page, or 0 when there is not enough memory. */
    method SetupKvm(data: nat) returns (d: nat)
      requires Good(View()) && KernelLayout(data)
      modifies this
      ensures Good(View())
      ensures d == 0 <==> |old(free)| < KVM_PAGES
      ensures d == 0 ==> Restored(old(View()), View())
      ensures d != 0 ==> KmapDone(old(View()), View(), d, data, 4)
      ensures d != 0 ==> forall w | 0 <= w < ALL_PAGES :: PteAt(mem, d, w) == KernelPte(data, w)
    {
      d := Kalloc();
      if d == 0 {
        return;
      }
      FillHeld(d, ZeroPage());
      NewDir(old(View()), View(), d);
      owner := owner[d := Dir];
      for k := 0 to 4
        invariant d > 0 && KmapDone(old(View()), View(), d, data, k)
      {
        var ok := MapRange(d, data, k, old(View()));
        if !ok {
          ghost var s := View();
          FreeVm(d);
          FoundedKept(old(View()), s, d);
          KeptReleased(old(View()), s, View(), d);
          return 0;
        }
      }
      KmapTablesGrow(data, 4);
      forall w | 0 <= w < ALL_PAGES ensures PteAt(mem, d, w) == KernelPte(data, w) {
        KmapMeaning(data, w);
      }
    }

    /** One turn of the loop of `setupkvm`. */
    method MapRange(d: nat, data: nat, k: nat, ghost s0: State) returns (ok: bool)
      requires Good(s0) && KernelLayout(data) && k < 4 && KmapDone(s0, View(), d, data, k)
      modifies this
      ensures ok ==> KmapDone(s0, View(), d, data, k + 1)
      ensures !ok ==> Good(View()) && IsDir(View(), d) && Founded(s0, View(), d) && |s0.free| < KVM_PAGES
    {
      var r := Kmap(data)[k];
      KmapVacant(View(), d, data, k);
      KmapMissing(View(), d, data, k);
      KmapTablesGrow(data, k + 1);
      ghost var n;
      ok, n := MapPages(d, r.va * PGSIZE, r.n * PGSIZE, r.page, r.perm);
      if ok {
        KmapMore(s0, old(View()), View(), d, data, k, n);
      } else {
        FoundedMore(s0, old(View()), View(), d, r.va, n, r.page, WithPresent(r.perm));
      }
    }

    /** Adds zeroed user pages up to `newsz`; when memory runs out, takes away again what it added. */
    method AllocUvm(d: nat, oldsz: nat, newsz: nat) returns (sz: nat)
      requires Good(View()) && IsDir(View(), d)
      requires newsz < KERNBASE ==> Vacant(View(), d, PageUp(oldsz), PageUp(newsz))
      modifies this
      ensures newsz >= KERNBASE ==> sz == 0 && View() == old(View())
      ensures newsz < KERNBASE && newsz < oldsz ==> sz == oldsz && View() == old(View())
      ensures newsz < KERNBASE && newsz >= oldsz ==>
                if |old(free)| >= Needs(old(View()), d, PageUp(oldsz), PageUp(newsz))
                then sz == newsz && Allocated(old(View()), View(), d, PageUp(oldsz), PageUp(newsz), |mem|)
                else sz == 0 && RolledBack(old(View()), View(), d, |mem|)
    {
      if newsz >= KERNBASE {
        return 0;
      }
      if newsz < oldsz {
        return oldsz;
      }
      var ok := AllocLoop(d, oldsz, newsz);
      sz := if ok then newsz else 0;
    }

    /** The loop of `allocuvm`. */
    method AllocLoop(d: nat, oldsz: nat, newsz: nat) returns (ok: bool)
      requires Good(View()) && IsDir(View(), d) && oldsz <= newsz < KERNBASE
      requires Vacant(View(), d, PageUp(oldsz), PageUp(newsz))
      modifies this
      ensures |mem| == |old(mem)|
      ensures ok <==> |old(free)| >= Needs(old(View()), d, PageUp(oldsz), PageUp(newsz))
      ensures ok ==> Allocated(old(View()), View(), d, PageUp(oldsz), PageUp(newsz), |mem|)
      ensures !ok ==> RolledBack(old(View()), View(), d, |mem|)
    {
      var a := PageUp(oldsz);
      ghost var s, lo, end := View(), PageUp(oldsz), PageUp(newsz);
      AllocNone(s, d, a);
      while a * PGSIZE < newsz
        invariant lo <= a <= end && |mem| == |s.mem| && Allocated(s, View(), d, lo, a, |mem|)
                  && Grown(s, View(), d, lo, a)
      {
        ok := AllocPage(d, oldsz, newsz, a, s);
        if !ok {
          return;
        }
        a := a + 1;
      }
      ok := true;
    }

    /** One turn of the loop of `allocuvm`, with its two ways to run out of memory. */
    method AllocPage(d: nat, oldsz: nat, newsz: nat, a: nat, ghost s: State) returns (ok: bool)
      requires Good(s) && oldsz <= newsz < KERNBASE && PageUp(oldsz) <= a < PageUp(newsz)
      requires Allocated(s, View(), d, PageUp(oldsz), a, |mem|) && Grown(s, View(), d, PageUp(oldsz), a)
      requires Vacant(s, d, PageUp(oldsz), PageUp(newsz))
      modifies this
      ensures |mem| == |s.mem|
      ensures ok ==> Allocated(s, View(), d, PageUp(oldsz), a + 1, |mem|) && Grown(s, View(), d, PageUp(oldsz), a + 1)
      ensures !ok ==> RolledBack(s, View(), d, |mem|) && |s.free| < Needs(s, d, PageUp(oldsz), PageUp(newsz))
    {
      var page := Kalloc();
      if page == 0 {
        GrowShort(s, View(), d, PageUp(oldsz), a, PageUp(newsz));
        Undo(d, oldsz, newsz, s, a, |mem|);
        return false;
      }
      FillHeld(page, ZeroPage());
      AllocTake(s, old(View()), View(), d, PageUp(oldsz), a, page);
      GrowPage(s, old(View()), View(), d, PageUp(oldsz), a);
      ok := MapOrUndo(d, oldsz, newsz, a, page, s);
    }

    /** The zeroed page in hand is mapped at `a`, or given back after everything else was. */
    method MapOrUndo(d: nat, oldsz: nat, newsz: nat, a: nat, page: nat, ghost s: State) returns (ok: bool)
      requires Good(s) && oldsz <= newsz < KERNBASE && PageUp(oldsz) <= a < PageUp(newsz)
      requires page < |mem| && Allocated(s, View(), d, PageUp(oldsz), a, page) && mem[page] == ZeroPage()
      requires Vacant(s, d, PageUp(oldsz), PageUp(newsz)) && InHand(s, View(), d, PageUp(oldsz), a)
      modifies this
      ensures |mem| == |s.mem|
      ensures ok ==> Allocated(s, View(), d, PageUp(oldsz), a + 1, |mem|) && Grown(s, View(), d, PageUp(oldsz), a + 1)
      ensures !ok ==> RolledBack(s, View(), d, |mem|) && |s.free| < Needs(s, d, PageUp(oldsz), PageUp(newsz))
    {
      AllocCanMap(s, View(), d, PageUp(oldsz), a, PageUp(newsz), page);
      ghost var s1 := View();
      ok := MapFrame(d, a, page, PTE_W + PTE_U);
      GrowTable(s, s1, View(), d, PageUp(oldsz), a, PageUp(newsz), ok);
      if ok {
        AllocMap(s, s1, View(), d, PageUp(oldsz), a, page);
      } else {
        AllocSame(s, s1, View(), d, PageUp(oldsz), a, page);
        Undo(d, oldsz, newsz, s, a, page);
        RollbackDone(s, View(), d, page);
        Kfree(page);
      }
    }

    /** The clean-up call of `deallocuvm` when `allocuvm` got as far as page `v`. */
    method Undo(d: nat, oldsz: nat, newsz: nat, ghost s: State, ghost v: nat, ghost q: nat)
      requires Good(s) && oldsz <= newsz < KERNBASE && PageUp(oldsz) <= v <= PageUp(newsz)
      requires Allocated(s, View(), d, PageUp(oldsz), v, q)
      requires Vacant(s, d, PageUp(oldsz), PageUp(newsz))
      modifies this
      ensures RolledBack(s, View(), d, q)
    {
      PlainUnmaps(View(), d, PageUp(oldsz), PageUp(newsz));
      ghost var s2 := View();
      var _ := DeallocUvm(d, newsz, oldsz);
      AllocUndone(s, s2, View(), d, PageUp(oldsz), v, PageUp(newsz), q);
    }

    /** A copy of the first `sz` bytes of an address space, or 0 when there is not enough memory. */
    method CopyUvm(parent: nat, sz: nat, data: nat) returns (d: nat)
      requires Good(View()) && IsDir(View(), parent) && KernelLayout(data) && sz <= KERNBASE
      requires forall w | 0 <= w < PageUp(sz) :: Present(PteAt(mem, parent, w))
      modifies this
      ensures Good(View())
      ensures d == 0 <==> |old(free)| < KVM_PAGES + PageUp(sz) + TablesEnd(0, PageUp(sz))
      ensures d == 0 ==> Restored(old(View()), View())
      ensures d != 0 ==> Copied(old(View()), View(), parent, d, PageUp(sz), data)
    {
      d := SetupKvm(data);
      if d == 0 {
        return;
      }
      CopyNone(old(View()), View(), parent, d, data);
      CopyNeeds(old(View()), View(), d, data, PageUp(sz));
      var ok := CopyLoop(parent, d, sz, old(View()), data);
      if !ok {
        ghost var s := View();
        FreeVm(d);
        KeptReleased(old(View()), s, View(), d);
        return 0;
      }
    }

    /** The loop of `copyuvm`. */
    method CopyLoop(parent: nat, d: nat, sz: nat, ghost s: State, ghost data: nat) returns (ok: bool)
      requires Good(s) && IsDir(s, parent) && sz <= KERNBASE && KernelLayout(data)
      requires Copied(s, View(), parent, d, 0, data) && Grown(View(), View(), d, 0, 0)
      requires forall w | 0 <= w < PageUp(sz) :: Present(PteAt(s.mem, parent, w))
      modifies this
      ensures ok <==> |old(free)| >= Needs(old(View()), d, 0, PageUp(sz))
      ensures ok ==> Copied(s, View(), parent, d, PageUp(sz), data)
      ensures !ok ==> Good(View()) && IsDir(View(), d) && Kept(s, View(), d)
    {
      var i := 0;
      ghost var k, end := View(), PageUp(sz);
      while i * PGSIZE < sz
        invariant i <= end && Copied(s, View(), parent, d, i, data) && Grown(k, View(), d, 0, i)
      {
        ok := CopyPage(parent, d, i, s, data, k, end);
        if !ok {
          return;
        }
        i := i + 1;
      }
      ok := true;
    }

    /** One turn of that loop. */
    method CopyPage(parent: nat, d: nat, v: nat, ghost s: State, ghost data: nat, ghost k: State, ghost end: nat)
      returns (ok: bool)
      requires Good(s) && IsDir(s, parent) && v < end <= USER_PAGES && KernelLayout(data)
      requires Copied(s, View(), parent, d, v, data) && Present(PteAt(s.mem, parent, v)) && Grown(k, View(), d, 0, v)
      modifies this
      ensures ok ==> Copied(s, View(), parent, d, v + 1, data) && Grown(k, View(), d, 0, v + 1)
      ensures !ok ==> Good(View()) && IsDir(View(), d) && Kept(s, View(), d) && |k.free| < Needs(k, d, 0, end)
    {
      ghost var s1 := View();
      ParentSame(s, s1, parent, d, v);
      var page, flags := TakeCopy(parent, v);
      if page == 0 {
        GrowShort(k, View(), d, 0, v, end);
        return false;
      }
      ghost var s2 := View();
      WriteIdlePte(s1, page, mem[page], d, v);
      GrowPage(k, s1, s2, d, 0, v);
      ok := MapCopy(d, v, page, flags, s1, k, end);
      if ok {
        CopyMap(s, s1, s2, View(), parent, d, v, page, data);
      } else {
        KeptTrans(s, s1, View(), d);
      }
    }

    /** A new page with the words of a mapped one, and the flags of that mapping. */
    method TakeCopy(parent: nat, v: nat) returns (page: nat, flags: nat)
      requires Good(View()) && IsDir(View(), parent) && v < USER_PAGES && Present(PteAt(mem, parent, v))
      modifies this
      ensures Good(View()) && flags == Flags(PteAt(old(mem), parent, v)) && flags % 2 == 1
      ensures page == 0 ==> View() == old(View()) && free == []
      ensures page != 0 ==>
                var f := Frame(PteAt(old(mem), parent, v));
                && page < |old(mem)| && f < |old(mem)| && mem == old(mem)[page := old(mem)[f]]
                && old(owner[page]) == Free && owner == old(owner)[page := Held] && |old(free)| == |free| + 1
    {
      SplitPage(v);
      FrameRole(View(), parent, v);
      var t := Walk(parent, v, false);
      var e := mem[t][Low(v)];
      flags := Flags(e);
      page := Kalloc();
      if page != 0 {
        FillHeld(page, mem[Frame(e)]);
      }
    }

    /** The filled page in hand is mapped at `v`, or given back. */
    method MapCopy(d: nat, v: nat, page: nat, flags: nat, ghost s1: State, ghost k: State, ghost end: nat)
      returns (ok: bool)
      requires InHand(k, View(), d, 0, v) && v < end <= USER_PAGES
      requires Good(View()) && IsDir(View(), d) && page < |mem| && flags < 4096 && flags % 2 == 1
      requires !Present(PteAt(mem, d, v)) && owner[page] == Held && s1.first == first && |s1.mem| == |s1.owner| == |mem|
      requires s1.owner[page] == Free && owner == s1.owner[page := Held] && mem == s1.mem[page := mem[page]]
      modifies this
      ensures Good(View()) && IsDir(View(), d)
      ensures ok ==> MappedTo(old(View()), View(), d, v, 1, page, flags) && Grown(k, View(), d, 0, v + 1)
      ensures !ok ==> Kept(s1, View(), d) && |k.free| < Needs(k, d, 0, end)
    {
      assert CanMapAt(View(), d, v, page, 0);
      ok := MapFrame(d, v, page, flags);
      GrowTable(k, old(View()), View(), d, 0, v, end, ok);
      if !ok {
        CopyFailed(s1, old(View()), View(), d, v, page, flags);
        Kfree(page);
      }
    }
  }
}
