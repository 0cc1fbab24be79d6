/** The steps of `vm.c` on the memory state: new tables, new mappings, unmapping, and taking an address space apart. */
module PageSteps {
  import opened PageTables
  import opened PageStates

  ghost predicate IsDir(s: State, d: nat) {
    d < |s.owner| && s.owner[d] == Dir
  }

  // ---- writing one entry ----

  lemma PutPte(s: State, d: nat, i: nat, t: nat, j: nat, e: nat, i2: nat, j2: nat)
    requires Inv(s.mem, s.owner) && IsTable(s.mem, s.owner, d, i, t) && j < WORDS && i2 < WORDS && j2 < WORDS
    ensures Pte(Put(s.mem, t, j, e), d, i2, j2) == if i2 == i && j2 == j then e else Pte(s.mem, d, i2, j2)
  {
    if Present(s.mem[d][i2]) {
      TableOf(s.mem, s.owner, d, i2);
    }
  }

  lemma PutPteAt(s: State, d: nat, v: nat, t: nat, e: nat, w: nat)
    requires Inv(s.mem, s.owner) && v < ALL_PAGES && w < ALL_PAGES && IsTable(s.mem, s.owner, d, High(v), t)
    ensures Low(v) < WORDS
    ensures PteAt(Put(s.mem, t, Low(v), e), d, w) == if w == v then e else PteAt(s.mem, d, w)
  {
    SplitPage(v);
    SplitPage(w);
    PutPte(s, d, High(v), t, Low(v), e, High(w), Low(w));
  }

  // ---- a new page table ----

  ghost function WithTable(s: State, d: nat, i: nat, t: nat): State
    requires d < |s.mem| && t < |s.owner| && i < |s.mem[d]|
  {
    s.(mem := Put(s.mem, d, i, Entry(t, PTE_P + PTE_W + PTE_U)), owner := s.owner[t := Table(d, i)])
  }

  lemma WithTableGood(s: State, d: nat, i: nat, t: nat)
    requires Good(s) && IsDir(s, d) && i < WORDS && !Present(s.mem[d][i])
    requires t < |s.mem| && s.owner[t] == Held && s.mem[t] == ZeroPage()
    ensures Good(WithTable(s, d, i, t)) && IsTable(WithTable(s, d, i, t).mem, WithTable(s, d, i, t).owner, d, i, t)
  {
    var s2 := WithTable(s, d, i, t);
    AddTable(s.mem, s.owner, d, i, t, Entry(t, PTE_P + PTE_W + PTE_U));
    FreeKeeps(s, s2.mem, s2.owner);
  }

  lemma WithTablePte(s: State, d: nat, i: nat, t: nat, w: nat)
    requires Good(s) && IsDir(s, d) && i < WORDS && !Present(s.mem[d][i]) && w < ALL_PAGES
    requires t < |s.mem| && s.owner[t] == Held && s.mem[t] == ZeroPage()
    ensures PteAt(WithTable(s, d, i, t).mem, d, w) == PteAt(s.mem, d, w)
  {
    SplitPage(w);
    if Present(s.mem[d][High(w)]) {
      TableOf(s.mem, s.owner, d, High(w));
    }
  }

  // ---- a new mapping ----

  /** The owners after page `v` of `d` was mapped to page `p`: a user mapping takes the page, a kernel one does not. */
  ghost function Taken(owner: seq<Role>, d: nat, v: nat, p: nat): (r: seq<Role>)
    requires v < USER_PAGES ==> p < |owner|
    ensures |r| == |owner|
  {
    if v < USER_PAGES then owner[p := User(d, High(v), Low(v))] else owner
  }

  ghost function WithMapping(s: State, d: nat, v: nat, t: nat, e: nat): State
    requires t < |s.mem| && Low(v) < |s.mem[t]| && (v < USER_PAGES ==> Frame(e) < |s.owner|)
  {
    s.(mem := Put(s.mem, t, Low(v), e), owner := Taken(s.owner, d, v, Frame(e)))
  }

  lemma WithMappingGood(s: State, d: nat, v: nat, t: nat, e: nat)
    requires Good(s) && v < ALL_PAGES && IsTable(s.mem, s.owner, d, High(v), t) && Low(v) < WORDS
             && !Present(s.mem[t][Low(v)])
    requires Present(e) && (v < USER_PAGES ==> Frame(e) < |s.mem| && s.owner[Frame(e)] == Held)
    ensures Good(WithMapping(s, d, v, t, e))
  {
    SplitPage(v);
    var s2 := WithMapping(s, d, v, t, e);
    if v < USER_PAGES {
      AddUser(s.mem, s.owner, d, High(v), t, Low(v), Frame(e), e);
    } else {
      SetKernel(s.mem, s.owner, d, High(v), t, Low(v), e);
    }
    FreeKeeps(s, s2.mem, s2.owner);
  }

  // ---- removing a mapping ----

  /** One turn of the loop of `deallocuvm`, on an entry that exists and is present. */
  ghost function Drop(s: State, t: nat, j: nat): State
    requires |s.owner| == |s.mem| == |s.place| && Shape(s.mem) && t < |s.mem| && j < WORDS
             && Frame(s.mem[t][j]) < |s.mem|
  {
    var s2 := Push(s, Frame(s.mem[t][j]));
    s2.(mem := Put(s2.mem, t, j, 0))
  }

  lemma DropGood(s: State, d: nat, i: nat, t: nat, j: nat)
    requires Good(s) && IsTable(s.mem, s.owner, d, i, t) && i < USER_TABLES && j < WORDS && Present(s.mem[t][j])
    ensures Frame(s.mem[t][j]) < |s.mem| && s.owner[Frame(s.mem[t][j])] == User(d, i, j) && Good(Drop(s, t, j))
  {
    FrameOf(s.mem, s.owner, d, i, t, j);
    var p := Frame(s.mem[t][j]);
    PushFree(s, p);
    var s2 := Push(s, p);
    WriteIdle(s.mem, s.owner, p, Junk(s.head));
    DropUser(s2.mem, s.owner, d, i, t, j, p);
    FreeKeeps(s2, Put(s2.mem, t, j, 0), s2.owner);
  }

  /** The page-by-page step of `deallocuvm`. */
  ghost function Unmap(s: State, d: nat, v: nat): State
    requires Good(s) && IsDir(s, d) && v < USER_PAGES
  {
    SplitPage(v);
    if Present(PteAt(s.mem, d, v)) then
      TableOf(s.mem, s.owner, d, High(v));
      FrameOf(s.mem, s.owner, d, High(v), Frame(s.mem[d][High(v)]), Low(v));
      Drop(s, Frame(s.mem[d][High(v)]), Low(v))
    else s
  }

  /** A user page of `d` with a number in the given range. */
  predicate UserIn(r: Role, d: nat, from: nat, end: nat) {
    r.User? && r.d == d && from <= r.i * WORDS + r.j < end
  }

  /** From `s` to `s2` exactly the pages of `d` from `from` to `end` were unmapped, and their frames freed. */
  ghost predicate Unmapped(s: State, s2: State, d: nat, from: nat, end: nat) {
    && Good(s2) && Kept(s, s2, d) && IsDir(s2, d)
    && (forall w | 0 <= w < ALL_PAGES ::
          PteAt(s2.mem, d, w) == if from <= w < end && Present(PteAt(s.mem, d, w)) then 0 else PteAt(s.mem, d, w))
    && forall p | 0 <= p < |s.owner| :: UnmappedAt(s, s2, d, from, end, p)
  }

  ghost predicate UnmappedAt(s: State, s2: State, d: nat, from: nat, end: nat, p: nat)
    requires p < |s.mem| == |s.owner| == |s2.mem| == |s2.owner|
  {
    if UserIn(s.owner[p], d, from, end) then s2.owner[p] == Free
    else s2.owner[p] == s.owner[p] && (s.owner[p].User? ==> s2.mem[p] == s.mem[p])
  }

  lemma UnmapStep(s: State, d: nat, v: nat)
    requires Good(s) && IsDir(s, d) && v < USER_PAGES
    ensures Unmapped(s, Unmap(s, d, v), d, v, v + 1)
  {
    SplitPage(v);
    var s2 := Unmap(s, d, v);
    var e := PteAt(s.mem, d, v);
    if Present(e) {
      var t := Frame(s.mem[d][High(v)]);
      TableOf(s.mem, s.owner, d, High(v));
      DropGood(s, d, High(v), t, Low(v));
      forall w | 0 <= w < ALL_PAGES ensures PteAt(s2.mem, d, w) == if w == v then 0 else PteAt(s.mem, d, w) {
        DropPte(s, d, v, t, w);
      }
      forall p | 0 <= p < |s.mem| ensures KeptAt(s, s2, d, p) {
      }
    } else {
      forall p | 0 <= p < |s.mem| ensures KeptAt(s, s2, d, p) {
      }
    }
    var end := v + 1;
    forall p | 0 <= p < |s.owner| ensures UnmappedAt(s, s2, d, v, end, p) {
      UserAt(s, d, v, p);
    }
  }

  lemma UserAt(s: State, d: nat, v: nat, p: nat)
    requires Good(s) && IsDir(s, d) && v < USER_PAGES && p < |s.owner|
    ensures UserIn(s.owner[p], d, v, v + 1) <==> (Present(PteAt(s.mem, d, v)) && Frame(PteAt(s.mem, d, v)) == p)
  {
    SplitPage(v);
    assert PageOk(s.mem, s.owner, p);
    if Present(PteAt(s.mem, d, v)) {
      TableOf(s.mem, s.owner, d, High(v));
      FrameOf(s.mem, s.owner, d, High(v), Frame(s.mem[d][High(v)]), Low(v));
    }
  }

  lemma DropPte(s: State, d: nat, v: nat, t: nat, w: nat)
    requires Good(s) && v < USER_PAGES && w < ALL_PAGES && IsTable(s.mem, s.owner, d, High(v), t) && Low(v) < WORDS
    requires Present(s.mem[t][Low(v)]) && Frame(s.mem[t][Low(v)]) < |s.mem|
    requires s.owner[Frame(s.mem[t][Low(v)])] == User(d, High(v), Low(v))
    ensures PteAt(Drop(s, t, Low(v)).mem, d, w) == if w == v then 0 else PteAt(s.mem, d, w)
  {
    SplitPage(w);
    var p := Frame(s.mem[t][Low(v)]);
    var s1 := s.(mem := s.mem[p := Junk(s.head)]);
    WriteIdle(s.mem, s.owner, p, Junk(s.head));
    PutPteAt(s1, d, v, t, 0, w);
    if Present(s.mem[d][High(w)]) {
      TableOf(s.mem, s.owner, d, High(w));
    }
    assert PteAt(s1.mem, d, w) == PteAt(s.mem, d, w);
  }

  // ---- the plain page-by-page loop ----

  /** What `deallocuvm` would do if it visited every page from `v` to `end`. */
  ghost function Plain(s: State, d: nat, v: nat, end: nat): State
    requires Good(s) && IsDir(s, d) && end <= USER_PAGES
    decreases end - v
  {
    if v >= end then s
    else
      UnmapStep(s, d, v);
      Plain(Unmap(s, d, v), d, v + 1, end)
  }

  lemma UnmappedTrans(a: State, b: State, c: State, d: nat, from: nat, mid: nat, end: nat)
    requires from <= mid <= end && Unmapped(a, b, d, from, mid) && Unmapped(b, c, d, mid, end)
    ensures Unmapped(a, c, d, from, end)
  {
    KeptTrans(a, b, c, d);
    forall p | 0 <= p < |a.owner| ensures UnmappedAt(a, c, d, from, end, p) {
      assert UnmappedAt(a, b, d, from, mid, p) && UnmappedAt(b, c, d, mid, end, p);
    }
  }

  lemma {:induction false} PlainUnmaps(s: State, d: nat, v: nat, end: nat)
    requires Good(s) && IsDir(s, d) && v <= end <= USER_PAGES
    ensures Unmapped(s, Plain(s, d, v, end), d, v, end)
    decreases end - v
  {
    if v < end {
      UnmapStep(s, d, v);
      PlainUnmaps(Unmap(s, d, v), d, v + 1, end);
      UnmappedTrans(s, Unmap(s, d, v), Plain(s, d, v, end), d, v, v + 1, end);
    } else {
      forall p | 0 <= p < |s.mem| ensures KeptAt(s, s, d, p) && UnmappedAt(s, s, d, v, end, p) {
      }
    }
  }

  /** Pages under a directory entry that is not present may be skipped. */
  lemma {:induction false} PlainSkip(s: State, d: nat, v: nat, w: nat, end: nat)
    requires Good(s) && IsDir(s, d) && v <= w <= end <= USER_PAGES && High(v) < WORDS && !Present(s.mem[d][High(v)])
    requires w <= (High(v) + 1) * WORDS
    ensures Plain(s, d, v, end) == Plain(s, d, w, end)
    decreases w - v
  {
    if v < w {
      if v + 1 < w {
        assert High(v + 1) == High(v);
        PlainSkip(s, d, v + 1, w, end);
      }
      assert Unmap(s, d, v) == s;
    }
  }

  // ---- taking an address space apart ----

  predicate TableFrom(r: Role, d: nat, i: nat) {
    r.Table? && r.d == d && r.i >= i
  }

  predicate TableBelow(r: Role, d: nat, i: nat) {
    r.Table? && r.d == d && r.i < i
  }

  /** The roles while `freevm` gives back the tables of `d`, the first `i` of them done. */
  ghost function Tearing(owner: seq<Role>, d: nat, i: nat): (r: seq<Role>)
    ensures |r| == |owner|
  {
    seq(|owner|, p requires 0 <= p < |owner| =>
      if p == d || TableFrom(owner[p], d, i) then Held else if TableBelow(owner[p], d, i) then Free else owner[p])
  }

  ghost predicate NoUserPages(s: State, d: nat) {
    forall p | 0 <= p < |s.owner| :: !UserIn(s.owner[p], d, 0, USER_PAGES)
  }

  lemma Dismantle(s: State, d: nat)
    requires Good(s) && IsDir(s, d) && NoUserPages(s, d)
    ensures Good(s.(owner := Tearing(s.owner, d, 0)))
  {
    var owner := Tearing(s.owner, d, 0);
    forall p | 0 <= p < |s.mem| ensures PageOk(s.mem, owner, p) {
      assert PageOk(s.mem, s.owner, p);
      match s.owner[p] {
        case Dir =>
          if p != d {
            forall i | 0 <= i < WORDS ensures PdeOk(s.mem, owner, p, i) {
              assert PdeOk(s.mem, s.owner, p, i);
            }
          }
        case Table(f, i) =>
          if f != d && i < USER_TABLES {
            forall j | 0 <= j < WORDS ensures PteOk(s.mem, owner, p, f, i, j) {
              assert PteOk(s.mem, s.owner, p, f, i, j);
            }
          }
        case User(f, i, j) =>
          assert !UserIn(s.owner[p], d, 0, USER_PAGES);
        case _ =>
      }
    }
    FreeKeeps(s, s.mem, owner);
  }

  /** Between `s` and `s2` exactly the pages of address space `d` were given back. */
  ghost predicate Released(s: State, s2: State, d: nat) {
    && Good(s2) && Kept(s, s2, d)
    && forall p | 0 <= p < |s.owner| :: s2.owner[p] == if Foreign(s.owner, p, d) then s.owner[p] else Free
  }

  /** The roles once table `i` was visited: at most one page is that table. */
  lemma TearStep(s: State, d: nat, i: nat)
    requires Good(s) && IsDir(s, d) && i < WORDS
    ensures var t := Frame(s.mem[d][i]);
            if Present(s.mem[d][i])
            then t < |s.mem| && t != d && !Foreign(s.owner, t, d) && Tearing(s.owner, d, i)[t] == Held
                 && Tearing(s.owner, d, i + 1) == Tearing(s.owner, d, i)[t := Free]
            else Tearing(s.owner, d, i + 1) == Tearing(s.owner, d, i)
  {
    if Present(s.mem[d][i]) {
      TableOf(s.mem, s.owner, d, i);
    }
    forall p | 0 <= p < |s.owner| && s.owner[p] == Table(d, i) ensures Present(s.mem[d][i]) && Frame(s.mem[d][i]) == p {
      assert PageOk(s.mem, s.owner, p);
    }
  }

  lemma TearDone(s: State, d: nat)
    requires Good(s) && IsDir(s, d) && NoUserPages(s, d)
    ensures forall p | 0 <= p < |s.owner| && p != d ::
              Tearing(s.owner, d, WORDS)[p] == if Foreign(s.owner, p, d) then s.owner[p] else Free
  {
    forall p | 0 <= p < |s.owner| && p != d
      ensures Tearing(s.owner, d, WORDS)[p] == if Foreign(s.owner, p, d) then s.owner[p] else Free
    {
      assert PageOk(s.mem, s.owner, p);
      assert !UserIn(s.owner[p], d, 0, USER_PAGES);
    }
  }

  // ---- a range of new mappings ----

  /** Page `p` kept its role, or was free and became a table of `d`; and unless it is a table its words are the same. */
  ghost predicate GrewAt(s: State, s2: State, d: nat, p: nat)
    requires p < |s.mem| == |s.owner| == |s2.mem| == |s2.owner|
  {
    && (s2.owner[p] == s.owner[p] || (s.owner[p] == Free && TableFrom(s2.owner[p], d, 0)))
    && (Foreign(s.owner, p, d) || s.owner[p].User? ==> s2.mem[p] == s.mem[p])
  }

  /** Page `p` is one of the frames that were mapped for user page `v` on. */
  predicate HandedOver(v: nat, n: nat, page: nat, p: nat) {
    page <= p < page + n && v + (p - page) < USER_PAGES
  }

  ghost predicate HandOverAt(s: State, s2: State, d: nat, v: nat, n: nat, page: nat, p: nat)
    requires p < |s.mem| == |s.owner| == |s2.mem| == |s2.owner|
  {
    if HandedOver(v, n, page, p) then
      s.owner[p] == Held && s2.owner[p] == User(d, High(v + p - page), Low(v + p - page)) && s2.mem[p] == s.mem[p]
    else GrewAt(s, s2, d, p)
  }

  /** From `s` to `s2` exactly the `n` virtual pages from `v` on were mapped, to consecutive frames from `page` on. */
  ghost predicate MappedTo(s: State, s2: State, d: nat, v: nat, n: nat, page: nat, flags: nat)
    requires flags < 4096
  {
    && s2.first == s.first && |s.mem| == |s.owner| == |s2.mem| == |s2.owner|
    && (forall w | 0 <= w < ALL_PAGES ::
          PteAt(s2.mem, d, w) == if v <= w < v + n then Entry(page + w - v, flags) else PteAt(s.mem, d, w))
    && forall p | 0 <= p < |s.mem| :: HandOverAt(s, s2, d, v, n, page, p)
  }

  lemma MappedTrans(a: State, b: State, c: State, d: nat, v: nat, n: nat, page: nat, flags: nat)
    requires flags < 4096 && MappedTo(a, b, d, v, n, page, flags) && MappedTo(b, c, d, v + n, 1, page + n, flags)
    ensures MappedTo(a, c, d, v, n + 1, page, flags)
  {
    var m := n + 1;
    forall p | 0 <= p < |a.mem| ensures HandOverAt(a, c, d, v, m, page, p) {
      assert HandOverAt(a, b, d, v, n, page, p) && HandOverAt(b, c, d, v + n, 1, page + n, p);
    }
  }

  /** Writing a page that is neither a directory nor a table changes no translation. */
  lemma WriteIdlePte(s: State, p: nat, page: seq<nat>, d: nat, w: nat)
    requires Inv(s.mem, s.owner) && IsDir(s, d) && p < |s.mem| && Idle(s.owner[p]) && w < ALL_PAGES
    ensures PteAt(s.mem[p := page], d, w) == PteAt(s.mem, d, w)
  {
    SplitPage(w);
    if Present(s.mem[d][High(w)]) {
      TableOf(s.mem, s.owner, d, High(w));
    }
  }

  /** The path of `walkpgdir` that allocates, zeroes and installs a table, from before to after. */
  lemma TableAdded(s: State, s1: State, d: nat, i: nat, t: nat)
    requires Good(s) && Good(s1) && IsDir(s, d) && i < WORDS && !Present(s.mem[d][i]) && t < |s.mem|
             && s.owner[t] == Free
    requires s1.first == s.first && s1.mem == s.mem[t := ZeroPage()] && s1.owner == s.owner[t := Held]
    ensures var s2 := WithTable(s1, d, i, t);
            Good(s2) && IsTable(s2.mem, s2.owner, d, i, t) && MappedTo(s, s2, d, 0, 0, 0, 0)
  {
    var s2 := WithTable(s1, d, i, t);
    WithTableGood(s1, d, i, t);
    forall w | 0 <= w < ALL_PAGES ensures PteAt(s2.mem, d, w) == PteAt(s.mem, d, w) {
      WithTablePte(s1, d, i, t, w);
      WriteIdlePte(s, t, ZeroPage(), d, w);
    }
    forall p | 0 <= p < |s.mem| ensures HandOverAt(s, s2, d, 0, 0, 0, p) {
    }
  }

  lemma MappedEmpty(s: State, d: nat, v: nat, page: nat, flags: nat)
    requires Good(s) && flags < 4096
    ensures MappedTo(s, s, d, v, 0, page, flags)
  {
    forall p | 0 <= p < |s.mem| ensures HandOverAt(s, s, d, v, 0, page, p) {
    }
  }

  /** `walkpgdir` from `s` to `s1` and then the new entry: one page mapped. */
  lemma MappedOne(s: State, s1: State, d: nat, v: nat, t: nat, page: nat, flags: nat)
    requires Good(s) && Good(s1) && MappedTo(s, s1, d, 0, 0, 0, 0) && v < ALL_PAGES && flags < 4096 && flags % 2 == 1
    requires IsTable(s1.mem, s1.owner, d, High(v), t) && Low(v) < WORDS && !Present(s1.mem[t][Low(v)])
    requires v < USER_PAGES ==> page < |s.mem| && s.owner[page] == Held
    ensures v < USER_PAGES ==> s1.owner[page] == Held
    ensures var s2 := WithMapping(s1, d, v, t, Entry(page, flags)); Good(s2) && MappedTo(s, s2, d, v, 1, page, flags)
  {
    var e := Entry(page, flags);
    if v < USER_PAGES {
      assert HandOverAt(s, s1, d, 0, 0, 0, page);
    }
    var s2 := WithMapping(s1, d, v, t, e);
    WithMappingGood(s1, d, v, t, e);
    forall w | 0 <= w < ALL_PAGES
      ensures PteAt(s2.mem, d, w) == if v <= w < v + 1 then Entry(page + w - v, flags) else PteAt(s.mem, d, w)
    {
      PutPteAt(s1, d, v, t, e, w);
    }
    forall p | 0 <= p < |s.mem| ensures HandOverAt(s, s2, d, v, 1, page, p) {
      assert HandOverAt(s, s1, d, 0, 0, 0, p);
    }
  }

  /** Virtual page `v + k` is not mapped, and if it is a user page the frame for it is in hand. */
  ghost predicate CanMapAt(s: State, d: nat, v: nat, page: nat, k: nat) {
    !Present(PteAt(s.mem, d, v + k)) && (v + k < USER_PAGES ==> page + k < |s.owner| && s.owner[page + k] == Held)
  }

  ghost predicate CanMap(s: State, d: nat, v: nat, n: nat, page: nat) {
    forall k | 0 <= k < n :: CanMapAt(s, d, v, page, k)
  }

  /** What was mapped so far does not stand in the way of the next page. */
  lemma CanMapNext(s: State, s2: State, d: nat, v: nat, n: nat, m: nat, page: nat, flags: nat)
    requires flags < 4096 && CanMap(s, d, v, m, page) && n < m && v + n < ALL_PAGES
             && MappedTo(s, s2, d, v, n, page, flags)
    ensures CanMapAt(s2, d, v + n, page + n, 0)
  {
    assert CanMapAt(s, d, v, page, n);
    if v + n < USER_PAGES {
      assert HandOverAt(s, s2, d, v, n, page, page + n);
    }
  }

  // ---- a new address space ----

  /** Between `s` and `s2` address space `d` was made out of free pages, with no user page in it. */
  ghost predicate Founded(s: State, s2: State, d: nat) {
    && s2.first == s.first && |s.mem| == |s.owner| == |s2.mem| == |s2.owner| && d < |s.owner|
    && s.owner[d] == Free && s2.owner[d] == Dir
    && forall p | 0 <= p < |s.owner| && p != d :: GrewAt(s, s2, d, p)
  }

  /** A zeroed page becomes an empty directory. */
  lemma NewDir(s: State, s1: State, d: nat)
    requires Good(s) && Good(s1) && d < |s.mem| && s.owner[d] == Free
    requires s1.first == s.first && s1.mem == s.mem[d := ZeroPage()] && s1.owner == s.owner[d := Held]
    ensures var s2 := s1.(owner := s1.owner[d := Dir]); Good(s2) && Founded(s, s2, d)
    ensures forall w | 0 <= w < ALL_PAGES :: PteAt(s1.mem, d, w) == 0
  {
    var owner := s1.owner[d := Dir];
    forall p | 0 <= p < |s1.mem| ensures PageOk(s1.mem, owner, p) {
      assert PageOk(s1.mem, s1.owner, p);
      match owner[p] {
        case Dir =>
          forall i | 0 <= i < WORDS ensures PdeOk(s1.mem, owner, p, i) {
            if p != d {
              assert PdeOk(s1.mem, s1.owner, p, i);
            }
          }
        case Table(f, i) =>
          if i < USER_TABLES {
            forall j | 0 <= j < WORDS ensures PteOk(s1.mem, owner, p, f, i, j) {
              assert PteOk(s1.mem, s1.owner, p, f, i, j);
            }
          }
        case _ =>
      }
    }
    FreeKeeps(s1, s1.mem, owner);
    var s2 := s1.(owner := owner);
    forall p | 0 <= p < |s.owner| && p != d ensures GrewAt(s, s2, d, p) {
    }
    forall w | 0 <= w < ALL_PAGES ensures PteAt(s1.mem, d, w) == 0 {
      SplitPage(w);
    }
  }

  lemma FoundedMore(s: State, s1: State, s2: State, d: nat, v: nat, n: nat, page: nat, flags: nat)
    requires Founded(s, s1, d) && flags < 4096 && MappedTo(s1, s2, d, v, n, page, flags) && v >= USER_PAGES
    requires Good(s) && IsDir(s2, d)
    ensures Founded(s, s2, d)
  {
    forall p | 0 <= p < |s.owner| && p != d ensures GrewAt(s, s2, d, p) {
      assert HandOverAt(s1, s2, d, v, n, page, p) && GrewAt(s, s1, d, p);
      assert PageOk(s.mem, s.owner, p);
    }
  }

  lemma FoundedKept(s: State, s2: State, d: nat)
    requires Good(s) && Founded(s, s2, d)
    ensures Kept(s, s2, d)
  {
    forall p | 0 <= p < |s.mem| ensures KeptAt(s, s2, d, p) {
      assert PageOk(s.mem, s.owner, p);
      if p != d {
        assert GrewAt(s, s2, d, p);
      }
    }
  }

  /** Every page is back where it was, and the pages in use hold what they held. */
  ghost predicate Restored(s: State, s2: State) {
    && s2.owner == s.owner && |s.mem| == |s.owner| == |s2.mem|
    && forall p | 0 <= p < |s.mem| && s.owner[p] != Free :: s2.mem[p] == s.mem[p]
  }

  /** Giving back an address space that was made out of free pages puts every page back where it was. */
  lemma KeptReleased(s: State, s2: State, s3: State, d: nat)
    requires Good(s) && d < |s.mem| && s.owner[d] == Free && Kept(s, s2, d) && Released(s2, s3, d)
    ensures Restored(s, s3)
  {
    KeptTrans(s, s2, s3, d);
    forall p | 0 <= p < |s.mem|
      ensures s3.owner[p] == s.owner[p] && (s.owner[p] != Free ==> s3.mem[p] == s.mem[p])
    {
      assert KeptAt(s, s2, d, p) && KeptAt(s, s3, d, p);
      assert PageOk(s.mem, s.owner, p);
    }
  }

  /** No two user pages, of one address space or of two, share a frame. */
  lemma FramesDisjoint(s: State, d: nat, v: nat, f: nat, w: nat)
    requires Good(s) && IsDir(s, d) && IsDir(s, f) && v < USER_PAGES && w < USER_PAGES && (d != f || v != w)
    requires Present(PteAt(s.mem, d, v)) && Present(PteAt(s.mem, f, w))
    ensures Frame(PteAt(s.mem, d, v)) != Frame(PteAt(s.mem, f, w))
  {
    FrameRole(s, d, v);
    FrameRole(s, f, w);
    SplitPage(v);
    SplitPage(w);
  }

  lemma FrameRole(s: State, d: nat, v: nat)
    requires Good(s) && IsDir(s, d) && v < USER_PAGES && Present(PteAt(s.mem, d, v))
    ensures var p := Frame(PteAt(s.mem, d, v)); p < |s.mem| && s.owner[p] == User(d, High(v), Low(v))
  {
    SplitPage(v);
    TableOf(s.mem, s.owner, d, High(v));
    FrameOf(s.mem, s.owner, d, High(v), Frame(s.mem[d][High(v)]), Low(v));
  }

  lemma RoleMapped(s: State, d: nat, p: nat)
    requires Good(s) && p < |s.owner| && s.owner[p].User? && s.owner[p].d == d
    ensures var v := s.owner[p].i * WORDS + s.owner[p].j;
            v < USER_PAGES && Present(PteAt(s.mem, d, v)) && Frame(PteAt(s.mem, d, v)) == p
  {
    var User(_, i, j) := s.owner[p];
    assert PageOk(s.mem, s.owner, p);
    assert High(i * WORDS + j) == i && Low(i * WORDS + j) == j;
  }

  // ---- how much memory it takes ----

  predicate HasTable(s: State, d: nat, i: nat) {
    d < |s.mem| && i < |s.mem[d]| && Present(s.mem[d][i])
  }

  /** How many of the tables from `lo` to `hi` are still to be made. */
  function Missing(s: State, d: nat, lo: nat, hi: nat): nat {
    if hi <= lo then 0 else Missing(s, d, lo, hi - 1) + (if HasTable(s, d, hi - 1) then 0 else 1)
  }

  /**
   From `s` to `s2` the missing tables from `lo` to `hi` were made, and that and `n` more pages came off the free
   list.
   */
  ghost predicate Spent(s: State, s2: State, d: nat, lo: nat, hi: nat, n: nat) {
    && |s.free| == |s2.free| + Missing(s, d, lo, hi) + n
    && forall i | 0 <= i < WORDS :: HasTable(s2, d, i) <==> HasTable(s, d, i) || lo <= i < hi
  }

  lemma {:induction false} MissingGrows(s: State, d: nat, lo: nat, mid: nat, hi: nat)
    requires lo <= mid <= hi
    ensures Missing(s, d, lo, mid) <= Missing(s, d, lo, hi) <= Missing(s, d, lo, mid) + (hi - mid)
    decreases hi
  {
    if mid < hi {
      MissingGrows(s, d, lo, mid, hi - 1);
    }
  }

  lemma {:induction false} MissingNone(s: State, d: nat, lo: nat, hi: nat)
    requires forall i | lo <= i < hi :: HasTable(s, d, i)
    ensures Missing(s, d, lo, hi) == 0
  {
    if lo < hi {
      MissingNone(s, d, lo, hi - 1);
    }
  }

  /** The tables up to `mid` are there, and from `mid` on there are none. */
  lemma {:induction false} MissingFrom(s: State, d: nat, lo: nat, mid: nat, hi: nat)
    requires lo <= mid <= hi && forall i | lo <= i < hi :: HasTable(s, d, i) <==> i < mid
    ensures Missing(s, d, lo, hi) == hi - mid
    decreases hi
  {
    if mid < hi {
      MissingFrom(s, d, lo, mid, hi - 1);
    } else {
      MissingNone(s, d, lo, hi);
    }
  }

  /** One more table, at the end of the range or inside it, and `m` more pages. */
  lemma SpentMore(a: State, b: State, c: State, d: nat, lo: nat, hi: nat, n: nat, i: nat, m: nat)
    requires Spent(a, b, d, lo, hi, n) && Spent(b, c, d, i, i + 1, m) && lo <= i <= hi && i < WORDS
    ensures Spent(a, c, d, lo, if i < hi then hi else i + 1, n + m)
  {
    assert Missing(b, d, i, i) == 0;
  }

  /** `kalloc` of a page for another purpose. */
  lemma SpentPage(a: State, b: State, c: State, d: nat, lo: nat, hi: nat, n: nat)
    requires Spent(a, b, d, lo, hi, n) && |b.free| == |c.free| + 1
    requires d < |b.mem| && d < |c.mem| && c.mem[d] == b.mem[d]
    ensures Spent(a, c, d, lo, hi, n + 1)
  {
  }

  /** With nothing left and a table of the range still missing there was not enough. */
  lemma SpentAll(a: State, b: State, d: nat, lo: nat, hi: nat, n: nat, i: nat, end: nat)
    requires Spent(a, b, d, lo, hi, n) && b.free == [] && lo <= i <= hi && i < end && i < WORDS && !HasTable(b, d, i)
    ensures |a.free| < Missing(a, d, lo, end) + n
  {
    assert Missing(a, d, lo, i + 1) == Missing(a, d, lo, i) + 1;
    MissingGrows(a, d, lo, i + 1, end);
  }

  /** The table after the last one that the `n` pages from `v` on need. */
  function TablesEnd(v: nat, n: nat): nat {
    if n == 0 then High(v) else High(v + n - 1) + 1
  }

  lemma NextTable(v: nat, n: nat)
    requires v + n < ALL_PAGES
    ensures High(v) <= High(v + n) <= TablesEnd(v, n) && High(v + n) < WORDS
    ensures TablesEnd(v, n + 1) == if High(v + n) < TablesEnd(v, n) then TablesEnd(v, n) else High(v + n) + 1
  {
    SplitPage(v);
    SplitPage(v + n);
    if n > 0 {
      SplitPage(v + n - 1);
    }
  }

  /** The pages that mapping the user pages from `lo` to `end`, each to a new frame, takes off the free list. */
  function Needs(s: State, d: nat, lo: nat, end: nat): nat {
    if lo < end then end - lo + Missing(s, d, High(lo), TablesEnd(lo, end - lo)) else 0
  }
}
