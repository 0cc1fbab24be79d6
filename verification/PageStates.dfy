/** The whole memory state: page contents, the free list threaded through the free pages, and the role of each page. */
module PageStates {
  import opened PageTables

  /**
   * `mem` and `head` are what the machine stores. `owner` is the role of each page, `free` the free list from its last
   * page to its head, and `place` the position of each free page in it. Pages below `first` were never managed.
   */
  datatype State = State(first: nat, mem: Memory, head: nat, owner: seq<Role>, free: seq<nat>, place: seq<nat>)

  // ---- the free list ----

  function Top(free: seq<nat>): nat {
    if free == [] then 0 else free[|free| - 1]
  }

  /** The `k`th page of the free list is free, knows its position, and links to the page before it. */
  ghost predicate FreeAt(s: State, k: nat)
    requires |s.owner| == |s.mem| && |s.place| == |s.mem| && Shape(s.mem) && k < |s.free|
  {
    var p := s.free[k];
    p < |s.mem| && s.owner[p] == Free && s.place[p] == k && s.mem[p][0] == Top(s.free[..k])
  }

  ghost predicate Listed(s: State, p: nat)
    requires |s.owner| == |s.mem| && |s.place| == |s.mem| && p < |s.mem|
  {
    s.owner[p] == Free ==> s.place[p] < |s.free| && s.free[s.place[p]] == p
  }

  ghost predicate FreeInv(s: State) {
    && |s.owner| == |s.mem| && |s.place| == |s.mem| && Shape(s.mem)
    && s.head == Top(s.free)
    && (forall k | 0 <= k < |s.free| :: FreeAt(s, k))
    && (forall p | 0 <= p < |s.mem| :: Listed(s, p))
  }

  /** Page 0 is never managed, so that 0 can stand for the null pointer. */
  ghost predicate Bounds(s: State) {
    0 < s.first && forall p | 0 <= p < |s.owner| :: s.owner[p] == Boot <==> p < s.first
  }

  ghost predicate Good(s: State) {
    Inv(s.mem, s.owner) && FreeInv(s) && Bounds(s)
  }

  lemma FreeKeeps(s: State, mem: Memory, owner: seq<Role>)
    requires FreeInv(s) && Shape(mem) && |mem| == |owner| == |s.mem|
    requires forall p | 0 <= p < |mem| :: owner[p] == Free <==> s.owner[p] == Free
    requires forall p | 0 <= p < |mem| && owner[p] == Free :: mem[p] == s.mem[p]
    ensures FreeInv(s.(mem := mem, owner := owner))
  {
    var s2 := s.(mem := mem, owner := owner);
    forall k | 0 <= k < |s2.free| ensures FreeAt(s2, k) {
      assert FreeAt(s, k);
    }
    forall p | 0 <= p < |mem| ensures Listed(s2, p) {
      assert Listed(s, p);
    }
  }

  /** `kfree`: junk, a link to the old head, and the page is the new head. */
  ghost function Push(s: State, p: nat): State
    requires |s.owner| == |s.mem| == |s.place| && p < |s.mem|
  {
    State(s.first, s.mem[p := Junk(s.head)], p, s.owner[p := Free], s.free + [p], s.place[p := |s.free|])
  }

  lemma PushFree(s: State, p: nat)
    requires FreeInv(s) && 0 < p < |s.mem| && s.owner[p] != Free
    ensures FreeInv(Push(s, p))
  {
    var s2 := Push(s, p);
    assert Shape(s2.mem);
    forall k | 0 <= k < |s2.free| ensures FreeAt(s2, k) {
      if k < |s.free| {
        assert FreeAt(s, k);
        assert s2.free[k] == s.free[k] && s2.free[..k] == s.free[..k];
      } else {
        assert s2.free[..k] == s.free;
      }
    }
    forall q | 0 <= q < |s2.mem| ensures Listed(s2, q) {
      assert Listed(s, q);
    }
  }

  /** `kalloc`: the head of the list, which the caller now holds. */
  ghost function Pop(s: State): State
    requires |s.owner| == |s.mem| && s.head < |s.mem| && s.mem[s.head] != [] && s.free != []
  {
    s.(head := s.mem[s.head][0], owner := s.owner[s.head := Held], free := s.free[..|s.free| - 1])
  }

  lemma HeadIsFree(s: State)
    requires Good(s) && s.free != []
    ensures s.first <= s.head < |s.mem| && s.owner[s.head] == Free && s.mem[s.head][0] == Top(s.free[..|s.free| - 1])
  {
    assert FreeAt(s, |s.free| - 1);
  }

  lemma HeadIsNull(s: State)
    requires Good(s)
    ensures s.head == 0 <==> s.free == []
  {
    if s.free != [] {
      HeadIsFree(s);
    }
  }

  lemma PopGood(s: State)
    requires Good(s) && s.free != []
    ensures s.head < |s.mem| && s.mem[s.head] != [] && Good(Pop(s))
  {
    HeadIsFree(s);
    SwapIdle(s.mem, s.owner, s.head, Held);
    var n := |s.free| - 1;
    var s2 := Pop(s);
    assert FreeAt(s, n);
    forall k | 0 <= k < n ensures FreeAt(s2, k) {
      assert FreeAt(s, k);
      assert s2.free[k] == s.free[k] && s2.free[..k] == s.free[..k];
    }
    forall p | 0 <= p < |s2.mem| ensures Listed(s2, p) {
      assert Listed(s, p);
    }
  }

  /** Giving back a page that nothing refers to. */
  lemma PushGood(s: State, p: nat)
    requires Good(s) && p < |s.mem| && s.owner[p] == Held
    ensures Good(Push(s, p))
  {
    SwapIdle(s.mem, s.owner, p, Free);
    WriteIdle(s.mem, s.owner[p := Free], p, Junk(s.head));
    PushFree(s, p);
  }

  // ---- what stays as it was ----

  /** A page in use by something other than address space `d`. */
  predicate Foreign(owner: seq<Role>, p: nat, d: nat)
    requires p < |owner|
  {
    match owner[p]
    case Free => false
    case Held => true
    case Boot => true
    case Dir => p != d
    case Table(f, _) => f != d
    case User(f, _, _) => f != d
  }

  ghost predicate KeptAt(s: State, s2: State, d: nat, p: nat)
    requires p < |s.mem| == |s.owner| == |s2.mem| == |s2.owner|
  {
    && (Foreign(s.owner, p, d) <==> Foreign(s2.owner, p, d))
    && (Foreign(s.owner, p, d) ==> s2.owner[p] == s.owner[p] && s2.mem[p] == s.mem[p])
  }

  /** Between the two states only free pages and pages of address space `d` changed. */
  ghost predicate Kept(s: State, s2: State, d: nat) {
    && s2.first == s.first && |s.mem| == |s.owner| == |s2.mem| == |s2.owner|
    && forall p | 0 <= p < |s.mem| :: KeptAt(s, s2, d, p)
  }

  lemma KeptTrans(a: State, b: State, c: State, d: nat)
    requires Kept(a, b, d) && Kept(b, c, d)
    ensures Kept(a, c, d)
  {
    forall p | 0 <= p < |a.mem| ensures KeptAt(a, c, d, p) {
      assert KeptAt(a, b, d, p) && KeptAt(b, c, d, p);
    }
  }

  /** Every other address space then has the same mappings, and its frames hold the same words. */
  lemma KeptMeaning(s: State, s2: State, d: nat, f: nat, v: nat)
    requires Good(s) && Good(s2) && Kept(s, s2, d) && f != d && f < |s.mem| && s.owner[f] == Dir && v < ALL_PAGES
    ensures s2.owner[f] == Dir && PteAt(s2.mem, f, v) == PteAt(s.mem, f, v)
    ensures var e := PteAt(s.mem, f, v);
            v < USER_PAGES && Present(e) ==> Frame(e) < |s.mem| && s2.mem[Frame(e)] == s.mem[Frame(e)]
  {
    SplitPage(v);
    var i, j := High(v), Low(v);
    assert KeptAt(s, s2, d, f);
    if Present(s.mem[f][i]) {
      var t := Frame(s.mem[f][i]);
      TableOf(s.mem, s.owner, f, i);
      assert KeptAt(s, s2, d, t);
      if v < USER_PAGES && Present(s.mem[t][j]) {
        FrameOf(s.mem, s.owner, f, i, t, j);
        assert KeptAt(s, s2, d, Frame(s.mem[t][j]));
      }
    }
  }
}
