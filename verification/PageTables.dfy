/**
 * Physical pages and the two-level page tables built from them, as values: who owns each page, and what every step of
 * `vm.c` and `kalloc.c` does to that. A page is 1024 words; the address of a whole page is written as its page number.
 */
module PageTables {
  const WORDS: nat := 1024
  /** Directory entries below KERNBASE. */
  const USER_TABLES: nat := 512
  /** Virtual pages below KERNBASE, and all of them. */
  const USER_PAGES: nat := 0x80000
  const ALL_PAGES: nat := 0x100000

  const PTE_P: nat := 1
  const PTE_W: nat := 2
  const PTE_U: nat := 4

  type Memory = seq<seq<nat>>

  // ---- entries ----

  predicate Present(e: nat) {
    e % 2 == 1
  }

  function Frame(e: nat): nat {
    e / 4096
  }

  function Flags(e: nat): nat {
    e % 4096
  }

  /** A page address with flag bits or-ed into its low twelve bits. */
  function Entry(page: nat, flags: nat): (e: nat)
    requires flags < 4096
    ensures Frame(e) == page && Flags(e) == flags && (Present(e) <==> flags % 2 == 1)
  {
    page * 4096 + flags
  }

  /** `flags | PTE_P`. */
  function WithPresent(flags: nat): (r: nat)
    requires flags < 4096
    ensures r < 4096 && r % 2 == 1
  {
    if flags % 2 == 1 then flags else flags + 1
  }

  function ZeroPage(): (page: seq<nat>)
    ensures |page| == WORDS && forall i | 0 <= i < WORDS :: page[i] == 0
  {
    seq(WORDS, i => 0)
  }

  /** What `kfree` leaves in a page: junk, and the link to the next free page. */
  function Junk(next: nat): (page: seq<nat>)
    ensures |page| == WORDS && page[0] == next
  {
    seq(WORDS, i => if i == 0 then next else 0x01010101)
  }

  // ---- translation ----

  ghost predicate Shape(mem: Memory) {
    forall p | 0 <= p < |mem| :: |mem[p]| == WORDS
  }

  /** The entry that maps page `j` of the `i`th table of directory `d`; 0 if there is no such table. */
  function Pte(mem: Memory, d: nat, i: nat, j: nat): nat {
    if d < |mem| && i < |mem[d]| && Present(mem[d][i]) then
      var t := Frame(mem[d][i]);
      if t < |mem| && j < |mem[t]| then mem[t][j] else 0
    else 0
  }

  function High(v: nat): nat {
    v / WORDS
  }

  function Low(v: nat): nat {
    v % WORDS
  }

  /** The entry for virtual page `v`. */
  function PteAt(mem: Memory, d: nat, v: nat): nat {
    Pte(mem, d, High(v), Low(v))
  }

  lemma SplitPage(v: nat)
    requires v < ALL_PAGES
    ensures High(v) < WORDS && Low(v) < WORDS && v == High(v) * WORDS + Low(v)
    ensures v < USER_PAGES <==> High(v) < USER_TABLES
  {
  }

  // ---- ownership ----

  /** What a physical page is in use for. A held page is a kernel stack, a pipe, or in the hands of the running code. */
  datatype Role =
    | Free
    | Held
    | Dir
    | Table(d: nat, i: nat)
    | User(d: nat, i: nat, j: nat)
    | Boot

  ghost predicate PdeOk(mem: Memory, owner: seq<Role>, d: nat, i: nat)
    requires |owner| == |mem| && Shape(mem) && d < |mem| && i < WORDS
  {
    Present(mem[d][i]) ==> Frame(mem[d][i]) < |mem| && owner[Frame(mem[d][i])] == Table(d, i)
  }

  ghost predicate PteOk(mem: Memory, owner: seq<Role>, t: nat, d: nat, i: nat, j: nat)
    requires |owner| == |mem| && Shape(mem) && t < |mem| && j < WORDS
  {
    Present(mem[t][j]) ==> Frame(mem[t][j]) < |mem| && owner[Frame(mem[t][j])] == User(d, i, j)
  }

  /** The `i`th table of directory `d` is page `t`. */
  ghost predicate IsTable(mem: Memory, owner: seq<Role>, d: nat, i: nat, t: nat)
    requires |owner| == |mem| && Shape(mem)
  {
    && d < |mem| && i < WORDS && t < |mem| && owner[d] == Dir && owner[t] == Table(d, i)
    && Present(mem[d][i]) && Frame(mem[d][i]) == t
  }

  /** The page is in exactly the place its role says, and everything it refers to has the role that it should. */
  ghost predicate PageOk(mem: Memory, owner: seq<Role>, p: nat)
    requires |owner| == |mem| && Shape(mem) && p < |mem|
  {
    match owner[p]
    case Free => true
    case Held => true
    case Boot => true
    case Dir => forall i | 0 <= i < WORDS :: PdeOk(mem, owner, p, i)
    case Table(d, i) =>
      IsTable(mem, owner, d, i, p) && (i < USER_TABLES ==> forall j | 0 <= j < WORDS :: PteOk(mem, owner, p, d, i, j))
    case User(d, i, j) =>
      && d < |mem| && i < USER_TABLES && j < WORDS
      && IsTable(mem, owner, d, i, Frame(mem[d][i]))
      && Present(mem[Frame(mem[d][i])][j]) && Frame(mem[Frame(mem[d][i])][j]) == p
  }

  /** Conservation: every page is in exactly one place. */
  ghost predicate Inv(mem: Memory, owner: seq<Role>) {
    |owner| == |mem| && Shape(mem) && forall p | 0 <= p < |mem| :: PageOk(mem, owner, p)
  }

  lemma TableOf(mem: Memory, owner: seq<Role>, d: nat, i: nat)
    requires Inv(mem, owner) && d < |mem| && owner[d] == Dir && i < WORDS && Present(mem[d][i])
    ensures IsTable(mem, owner, d, i, Frame(mem[d][i]))
  {
    assert PageOk(mem, owner, d);
    assert PdeOk(mem, owner, d, i);
  }

  lemma FrameOf(mem: Memory, owner: seq<Role>, d: nat, i: nat, t: nat, j: nat)
    requires Inv(mem, owner) && IsTable(mem, owner, d, i, t) && i < USER_TABLES && j < WORDS && Present(mem[t][j])
    ensures Frame(mem[t][j]) < |mem| && owner[Frame(mem[t][j])] == User(d, i, j)
  {
    assert PageOk(mem, owner, t);
    assert PteOk(mem, owner, t, d, i, j);
  }

  // ---- steps on a page that no table refers to ----

  predicate Idle(r: Role) {
    r == Free || r == Held
  }

  lemma WriteIdle(mem: Memory, owner: seq<Role>, p: nat, page: seq<nat>)
    requires Inv(mem, owner) && p < |mem| && !owner[p].Dir? && !owner[p].Table? && |page| == WORDS
    ensures Inv(mem[p := page], owner)
  {
    var mem2 := mem[p := page];
    forall q | 0 <= q < |mem| ensures PageOk(mem2, owner, q) {
      assert PageOk(mem, owner, q);
      match owner[q] {
        case Dir =>
          forall i | 0 <= i < WORDS ensures PdeOk(mem2, owner, q, i) {
            assert PdeOk(mem, owner, q, i);
          }
        case Table(d, i) =>
          if i < USER_TABLES {
            forall j | 0 <= j < WORDS ensures PteOk(mem2, owner, q, d, i, j) {
              assert PteOk(mem, owner, q, d, i, j);
            }
          }
        case _ =>
      }
    }
  }

  lemma SwapIdle(mem: Memory, owner: seq<Role>, p: nat, role: Role)
    requires Inv(mem, owner) && p < |mem| && Idle(owner[p]) && Idle(role)
    ensures Inv(mem, owner[p := role])
  {
    var owner2 := owner[p := role];
    forall q | 0 <= q < |mem| ensures PageOk(mem, owner2, q) {
      assert PageOk(mem, owner, q);
      match owner[q] {
        case Dir =>
          forall i | 0 <= i < WORDS ensures PdeOk(mem, owner2, q, i) {
            assert PdeOk(mem, owner, q, i);
          }
        case Table(d, i) =>
          if i < USER_TABLES {
            forall j | 0 <= j < WORDS ensures PteOk(mem, owner2, q, d, i, j) {
              assert PteOk(mem, owner, q, d, i, j);
            }
          }
        case _ =>
      }
    }
  }

  // ---- steps on a directory or a table ----

  function Put(mem: Memory, t: nat, j: nat, e: nat): (r: Memory)
    requires t < |mem| && j < |mem[t]|
    ensures |r| == |mem| && r[t] == mem[t][j := e] && forall p | 0 <= p < |mem| && p != t :: r[p] == mem[p]
  {
    var page: seq<nat> := mem[t][j := e];
    mem[t := page]
  }

  lemma AddTable(mem: Memory, owner: seq<Role>, d: nat, i: nat, t: nat, e: nat)
    requires Inv(mem, owner) && d < |mem| && t < |mem| && i < WORDS && owner[d] == Dir && !Present(mem[d][i])
    requires owner[t] == Held && mem[t] == ZeroPage() && Present(e) && Frame(e) == t
    ensures Inv(Put(mem, d, i, e), owner[t := Table(d, i)])
  {
    var mem2, owner2 := Put(mem, d, i, e), owner[t := Table(d, i)];
    assert Shape(mem2);
    forall q | 0 <= q < |mem| ensures PageOk(mem2, owner2, q) {
      assert PageOk(mem, owner, q);
      match owner2[q] {
        case Dir =>
          forall k | 0 <= k < WORDS ensures PdeOk(mem2, owner2, q, k) {
            assert PdeOk(mem, owner, q, k);
          }
        case Table(f, k) =>
          if k < USER_TABLES {
            forall j | 0 <= j < WORDS ensures PteOk(mem2, owner2, q, f, k, j) {
              if q != t {
                assert PteOk(mem, owner, q, f, k, j);
              }
            }
          }
        case _ =>
      }
    }
  }

  lemma AddUser(mem: Memory, owner: seq<Role>, d: nat, i: nat, t: nat, j: nat, p: nat, e: nat)
    requires Inv(mem, owner) && IsTable(mem, owner, d, i, t) && i < USER_TABLES && j < WORDS && !Present(mem[t][j])
    requires p < |mem| && owner[p] == Held && Present(e) && Frame(e) == p
    ensures Inv(Put(mem, t, j, e), owner[p := User(d, i, j)])
  {
    var mem2, owner2 := Put(mem, t, j, e), owner[p := User(d, i, j)];
    assert Shape(mem2);
    forall q | 0 <= q < |mem| ensures PageOk(mem2, owner2, q) {
      assert PageOk(mem, owner, q);
      match owner2[q] {
        case Dir =>
          forall k | 0 <= k < WORDS ensures PdeOk(mem2, owner2, q, k) {
            assert PdeOk(mem, owner, q, k);
          }
        case Table(f, k) =>
          if k < USER_TABLES {
            forall m | 0 <= m < WORDS ensures PteOk(mem2, owner2, q, f, k, m) {
              assert PteOk(mem, owner, q, f, k, m);
            }
          }
        case _ =>
      }
    }
  }

  lemma SetKernel(mem: Memory, owner: seq<Role>, d: nat, i: nat, t: nat, j: nat, e: nat)
    requires Inv(mem, owner) && IsTable(mem, owner, d, i, t) && i >= USER_TABLES && j < WORDS
    ensures Inv(Put(mem, t, j, e), owner)
  {
    var mem2 := Put(mem, t, j, e);
    assert Shape(mem2);
    forall q | 0 <= q < |mem| ensures PageOk(mem2, owner, q) {
      assert PageOk(mem, owner, q);
      match owner[q] {
        case Dir =>
          forall k | 0 <= k < WORDS ensures PdeOk(mem2, owner, q, k) {
            assert PdeOk(mem, owner, q, k);
          }
        case Table(f, k) =>
          if k < USER_TABLES {
            forall m | 0 <= m < WORDS ensures PteOk(mem2, owner, q, f, k, m) {
              assert PteOk(mem, owner, q, f, k, m);
            }
          }
        case _ =>
      }
    }
  }

  /** Clearing a user entry, its frame having been given back. */
  lemma DropUser(mem: Memory, owner: seq<Role>, d: nat, i: nat, t: nat, j: nat, p: nat)
    requires Inv(mem, owner) && IsTable(mem, owner, d, i, t) && j < WORDS && p < |mem| && owner[p] == User(d, i, j)
    ensures Inv(Put(mem, t, j, 0), owner[p := Free])
  {
    var mem2, owner2 := Put(mem, t, j, 0), owner[p := Free];
    assert Shape(mem2);
    assert PageOk(mem, owner, p);
    forall q | 0 <= q < |mem| ensures PageOk(mem2, owner2, q) {
      assert PageOk(mem, owner, q);
      match owner2[q] {
        case Dir =>
          forall k | 0 <= k < WORDS ensures PdeOk(mem2, owner2, q, k) {
            assert PdeOk(mem, owner, q, k);
          }
        case Table(f, k) =>
          if k < USER_TABLES {
            forall m | 0 <= m < WORDS ensures PteOk(mem2, owner2, q, f, k, m) {
              assert PteOk(mem, owner, q, f, k, m);
            }
          }
        case _ =>
      }
    }
  }
}
