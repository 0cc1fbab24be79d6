/**
 * Directories and link counts: `create`, `link`, `unlink`, and the inode references behind them, as interleaved steps.
 * Entries are looked up in any directory that a process holds, and added to directories that are in the tree.
 */
module Links {
  const ROOT: nat := 1
  const DIRSIZ: nat := 14

  /** A directory entry; inode number 0 marks a free one. */
  datatype Entry = Entry(inum: nat, name: string)

  datatype Kind = Free | Dir | File

  /**
   * One inode. `ref` counts the references in memory, and `leaving` those of them whose `iput` has made its check but
   * not yet counted down. `stray` counts those that a lookup took when the inode was free or being freed: whoever has
   * one waits for the lock, or panics. `freeing` is set while an `iput` truncates. `linked` says that the directory
   * is in the tree. `credit` and `debt` are the calls of `link` and `unlink` that have changed only one of the entry
   * and `nlink`.
   */
  datatype Node = Node(kind: Kind, nlink: int, ref: nat, leaving: nat, stray: nat, freeing: bool, linked: bool,
                       entries: seq<Entry>, slot: nat, credit: nat, debt: nat)

  type Tree = seq<Node>

  // ---- counting entries ----

  /** The entry counts as a link of inode `i`. */
  function Hit(e: Entry, i: nat): nat {
    if e.inum == i && e.name != "." then 1 else 0
  }

  function HitsBelow(es: seq<Entry>, i: nat, k: nat): nat
    requires k <= |es|
  {
    if k == 0 then 0 else HitsBelow(es, i, k - 1) + Hit(es[k - 1], i)
  }

  function Hits(es: seq<Entry>, i: nat): nat {
    HitsBelow(es, i, |es|)
  }

  /** Writing an entry over an existing one, or behind the last. */
  function PutEntry(es: seq<Entry>, k: nat, e: Entry): (r: seq<Entry>)
    requires k <= |es|
    ensures |r| == (if k < |es| then |es| else k + 1) && r[k] == e && forall j | 0 <= j < |es| && j != k ::
              r[j] == es[j]
  {
    if k < |es| then es[k := e] else es + [e]
  }

  lemma {:induction false} HitsSame(a: seq<Entry>, b: seq<Entry>, i: nat, k: nat)
    requires k <= |a| && k <= |b| && forall j | 0 <= j < k :: a[j] == b[j]
    ensures HitsBelow(a, i, k) == HitsBelow(b, i, k)
  {
    if k > 0 {
      HitsSame(a, b, i, k - 1);
    }
  }

  lemma {:induction false} HitsUpdate(es: seq<Entry>, k: nat, e: Entry, i: nat, n: nat)
    requires k < n <= |es|
    ensures HitsBelow(es[k := e], i, n) == HitsBelow(es, i, n) - Hit(es[k], i) + Hit(e, i)
  {
    if k == n - 1 {
      HitsSame(es, es[k := e], i, k);
    } else {
      HitsUpdate(es, k, e, i, n - 1);
    }
  }

  lemma HitsPut(es: seq<Entry>, k: nat, e: Entry, i: nat)
    requires k <= |es|
    ensures Hits(PutEntry(es, k, e), i) == Hits(es, i) - (if k < |es| then Hit(es[k], i) else 0) + Hit(e, i)
  {
    if k < |es| {
      HitsUpdate(es, k, e, i, |es|);
    } else {
      HitsSame(es, es + [e], i, |es|);
    }
  }

  /** Where one entry counts, the sum is positive. */
  lemma {:induction false} HitsPositive(es: seq<Entry>, i: nat, j: nat, k: nat)
    requires j < k <= |es| && Hit(es[j], i) == 1
    ensures HitsBelow(es, i, k) >= 1
  {
    if j < k - 1 {
      HitsPositive(es, i, j, k - 1);
    }
  }

  /** The links of inode `i` that directory `d` contributes. */
  function Part(t: Tree, d: nat, i: nat): nat
    requires d < |t|
  {
    if t[d].linked then Hits(t[d].entries, i) else 0
  }

  function CountBelow(t: Tree, i: nat, n: nat): nat
    requires n <= |t|
  {
    if n == 0 then 0 else CountBelow(t, i, n - 1) + Part(t, n - 1, i)
  }

  /** The number of entries other than "." that name inode `i`, in all linked directories. */
  function Count(t: Tree, i: nat): nat {
    CountBelow(t, i, |t|)
  }

  /** When only the contributions of `d` and `e` change, the count changes by their differences. */
  lemma {:induction false} CountTwo(a: Tree, b: Tree, d: nat, e: nat, i: nat, n: nat)
    requires n <= |a| == |b| && d < |a| && e < |a| && d != e
    requires forall q | 0 <= q < |a| && q != d && q != e :: Part(b, q, i) == Part(a, q, i)
    ensures CountBelow(b, i, n) == CountBelow(a, i, n) + (if d < n then Part(b, d, i) - Part(a, d, i) else 0)
                                   + (if e < n then Part(b, e, i) - Part(a, e, i) else 0)
  {
    if n > 0 {
      CountTwo(a, b, d, e, i, n - 1);
    }
  }

  lemma {:induction false} CountOne(a: Tree, b: Tree, d: nat, i: nat, n: nat)
    requires n <= |a| == |b| && d < |a| && forall q | 0 <= q < |a| && q != d :: Part(b, q, i) == Part(a, q, i)
    ensures CountBelow(b, i, n) == CountBelow(a, i, n) + (if d < n then Part(b, d, i) - Part(a, d, i) else 0)
  {
    if n > 0 {
      CountOne(a, b, d, i, n - 1);
    }
  }

  lemma {:induction false} CountPositive(t: Tree, i: nat, d: nat, j: nat, n: nat)
    requires d < n <= |t| && t[d].linked && j < |t[d].entries| && Hit(t[d].entries[j], i) == 1
    ensures CountBelow(t, i, n) >= 1
  {
    if d < n - 1 {
      CountPositive(t, i, d, j, n - 1);
    } else {
      HitsPositive(t[d].entries, i, j, |t[d].entries|);
    }
  }

  // ---- steps ----

  datatype Event =
    | Create(dp: nat, name: string, k: nat, ip: nat, kind: Kind)
    | LinkStart(ip: nat)
    | LinkEnd(dp: nat, name: string, k: nat, ip: nat)
    | LinkUndo(ip: nat)
    | UnlinkEntry(dp: nat, k: nat, ip: nat)
    | UnlinkCount(ip: nat)
    | Lookup(dp: nat, k: nat)
    | GetRoot
    | Dup(ip: nat)
    | PutFree(ip: nat)
    | PutFreed(ip: nat)
    | PutKeep(ip: nat)
    | PutDone(ip: nat)

  /** Some process has a reference, taken while the inode was in use, that it is not about to give back. */
  predicate Owned(t: Tree, i: nat) {
    i < |t| && t[i].ref > t[i].leaving + t[i].stray && !t[i].freeing
  }

  predicate Dead(t: Tree, i: nat) {
    i < |t| && (t[i].kind.Free? || t[i].freeing)
  }

  ghost predicate NoName(es: seq<Entry>, name: string) {
    forall k | 0 <= k < |es| && es[k].inum != 0 :: es[k].name != name
  }

  /** The first free entry, or the place behind the last. */
  ghost predicate FirstFree(es: seq<Entry>, k: nat) {
    k <= |es| && (k < |es| ==> es[k].inum == 0) && forall j | 0 <= j < k :: es[j].inum != 0
  }

  /** What `isdirempty` tests: it skips the first two entries. */
  ghost predicate Empty(es: seq<Entry>) {
    forall j | 2 <= j < |es| :: es[j].inum == 0
  }

  /** A directory that a process holds. */
  predicate InUse(t: Tree, dp: nat) {
    Owned(t, dp) && t[dp].kind.Dir?
  }

  predicate CanEnter(t: Tree, dp: nat) {
    InUse(t, dp) && t[dp].linked
  }

  /** The name is new in the directory, and `k` is the place for it. */
  ghost predicate Fits(es: seq<Entry>, name: string, k: nat) {
    NoName(es, name) && FirstFree(es, k) && |name| <= DIRSIZ
  }

  function Dots(ip: nat, dp: nat): seq<Entry> {
    [Entry(ip, "."), Entry(dp, "..")]
  }

  function OneIf(b: bool): nat {
    if b then 1 else 0
  }

  /**
   The new inode: a directory is in the tree if its parent is. References that strayed to it are as good as any now.
   */
  function Made(x: Node, kind: Kind, ip: nat, dp: nat, k: nat, inTree: bool): Node {
    x.(kind := kind, nlink := 1, ref := x.ref + 1, stray := 0, linked := kind.Dir? && inTree,
       entries := if kind.Dir? then Dots(ip, dp) else [], slot := k)
  }

  /** `create` of a name that is absent. */
  function Created(a: Tree, dp: nat, name: string, k: nat, ip: nat, kind: Kind): Tree
    requires dp < |a| && ip < |a| && k <= |a[dp].entries|
  {
    var dir := a[dp].(nlink := a[dp].nlink + OneIf(kind.Dir?), entries := PutEntry(a[dp].entries, k, Entry(ip, name)));
    a[ip := Made(a[ip], kind, ip, dp, k, a[dp].linked)][dp := dir]
  }

  /** The new entry of `link`. */
  function Entered(a: Tree, dp: nat, name: string, k: nat, ip: nat): Tree
    requires dp < |a| && ip < |a| && k <= |a[dp].entries| && a[ip].credit > 0
  {
    a[ip := a[ip].(credit := a[ip].credit - 1)][dp := a[dp].(entries := PutEntry(a[dp].entries, k, Entry(ip, name)))]
  }

  /** The entry that `unlink` clears, and the count of the directory if the entry is one of a directory. */
  function Removed(a: Tree, dp: nat, k: nat, ip: nat): Tree
    requires dp < |a| && ip < |a| && k < |a[dp].entries|
  {
    var dir := a[dp].(nlink := a[dp].nlink - OneIf(a[ip].kind.Dir?), entries := a[dp].entries[k := Entry(0, "")]);
    a[ip := a[ip].(linked := false, debt := a[ip].debt + 1)][dp := dir]
  }

  function Taken(x: Node, dead: bool): Node {
    x.(ref := x.ref + 1, stray := x.stray + OneIf(dead))
  }

  ghost predicate Next(a: Tree, e: Event, b: Tree) {
    match e
    case Create(dp, name, k, ip, kind) =>
      && CanEnter(a, dp) && Fits(a[dp].entries, name, k) && 0 < ip < |a| && a[ip].kind.Free? && !kind.Free?
      && b == Created(a, dp, name, k, ip, kind)
    case LinkStart(ip) =>
      && Owned(a, ip) && !a[ip].kind.Dir?
      && b == a[ip := a[ip].(nlink := a[ip].nlink + 1, credit := a[ip].credit + 1)]
    case LinkEnd(dp, name, k, ip) =>
      && CanEnter(a, dp) && Fits(a[dp].entries, name, k) && Owned(a, ip) && a[ip].credit > 0
      && b == Entered(a, dp, name, k, ip)
    case LinkUndo(ip) =>
      && Owned(a, ip) && a[ip].credit > 0
      && b == a[ip := a[ip].(nlink := a[ip].nlink - 1, credit := a[ip].credit - 1)]
    case UnlinkEntry(dp, k, ip) =>
      && InUse(a, dp) && k < |a[dp].entries| && a[dp].entries[k].inum == ip && ip != 0 && Owned(a, ip)
      && a[dp].entries[k].name != "." && a[dp].entries[k].name != ".." && (a[ip].kind.Dir? ==> Empty(a[ip].entries))
      && b == Removed(a, dp, k, ip)
    case UnlinkCount(ip) =>
      && Owned(a, ip) && a[ip].debt > 0
      && b == a[ip := a[ip].(nlink := a[ip].nlink - 1, debt := a[ip].debt - 1)]
    case Lookup(dp, k) =>
      && InUse(a, dp) && k < |a[dp].entries| && 0 < a[dp].entries[k].inum < |a|
      && var ip := a[dp].entries[k].inum; b == a[ip := Taken(a[ip], Dead(a, ip))]
    case GetRoot =>
      ROOT < |a| && b == a[ROOT := a[ROOT].(ref := a[ROOT].ref + 1)]
    case Dup(ip) =>
      Owned(a, ip) && b == a[ip := a[ip].(ref := a[ip].ref + 1)]
    case PutFree(ip) =>
      Owned(a, ip) && a[ip].nlink == 0 && a[ip].ref == 1 && b == a[ip := a[ip].(freeing := true)]
    case PutFreed(ip) =>
      && ip < |a| && a[ip].freeing
      && b == a[ip := a[ip].(kind := Free, entries := [], freeing := false, leaving := a[ip].leaving + 1)]
    case PutKeep(ip) =>
      && Owned(a, ip) && !(a[ip].nlink == 0 && a[ip].ref == 1)
      && b == a[ip := a[ip].(leaving := a[ip].leaving + 1)]
    case PutDone(ip) =>
      && ip < |a| && a[ip].leaving > 0 && a[ip].ref > 0
      && b == a[ip := a[ip].(ref := a[ip].ref - 1, leaving := a[ip].leaving - 1)]
  }

  // ---- the invariant ----

  function Parent(t: Tree, d: nat): nat
    requires d < |t|
  {
    if |t[d].entries| >= 2 then t[d].entries[1].inum else 0
  }

  ghost predicate NodeOk(t: Tree, i: nat)
    requires i < |t|
  {
    var x := t[i];
    && x.leaving + x.stray <= x.ref && (x.stray > 0 ==> x.kind.Free? || x.freeing)
    && (x.freeing ==> !x.kind.Free? && x.nlink == 0 && x.ref == 1 + x.stray && x.leaving == 0)
    && (x.kind.Free? ==> x.nlink == 0 && x.ref == x.leaving + x.stray && x.credit == 0 && x.debt == 0)
    && (!x.kind.Dir? ==> !x.linked && x.entries == [])
    && (x.credit > 0 ==> x.kind.File?)
    && (i == ROOT ==> x.linked)
    && (i == 0 ==> x.kind.Free?)
  }

  /** `nlink` is the number of entries that name the inode, up to the calls that are half done. */
  ghost predicate CountOk(t: Tree, i: nat)
    requires i < |t|
  {
    i != 0 ==> t[i].nlink == Count(t, i) + t[i].credit + t[i].debt
  }

  /** A directory starts with "." and ".."; if it is not in the tree there is nothing else in it. */
  ghost predicate DirOk(t: Tree, d: nat)
    requires d < |t|
  {
    t[d].kind.Dir? ==>
      && |t[d].entries| >= 2 && t[d].entries[0] == Entry(d, ".") && t[d].entries[1].name == ".."
      && 0 < t[d].entries[1].inum < |t|
      && (!t[d].linked ==> Empty(t[d].entries))
  }

  /** A directory in the tree is named by an entry of its parent, which is in the tree too. */
  ghost predicate PlaceOk(t: Tree, d: nat)
    requires d < |t|
  {
    t[d].linked ==>
      var p := Parent(t, d);
      if d == ROOT then p == ROOT
      else p < |t| && p != d && t[p].linked && 2 <= t[d].slot < |t[p].entries| && t[p].entries[t[d].slot].inum == d
  }

  ghost predicate EntryOk(t: Tree, d: nat, k: nat)
    requires d < |t| && k < |t[d].entries|
  {
    var e := t[d].entries[k];
    |e.name| <= DIRSIZ && (t[d].linked && k >= 2 && e.inum != 0 ==>
      && e.inum < |t| && e.inum != ROOT && e.name != "." && e.name != ".."
      && (t[e.inum].kind.Dir? ==> t[e.inum].linked && Parent(t, e.inum) == d && t[e.inum].slot == k))
  }

  /** No name is in a directory twice. */
  ghost predicate NamesDiffer(t: Tree, d: nat, j: nat, k: nat)
    requires d < |t| && j < |t[d].entries| && k < |t[d].entries|
  {
    j != k && t[d].entries[j].inum != 0 && t[d].entries[k].inum != 0 ==> t[d].entries[j].name != t[d].entries[k].name
  }

  ghost predicate TreeOk(t: Tree) {
    && ROOT < |t|
    && (forall i | 0 <= i < |t| :: NodeOk(t, i) && DirOk(t, i) && PlaceOk(t, i))
    && (forall d, k | 0 <= d < |t| && 0 <= k < |t[d].entries| :: EntryOk(t, d, k))
    && (forall d, j, k | 0 <= d < |t| && 0 <= j < |t[d].entries| && 0 <= k < |t[d].entries| :: NamesDiffer(t, d, j, k))
  }

  ghost predicate Inv(t: Tree) {
    TreeOk(t) && forall i | 0 <= i < |t| :: CountOk(t, i)
  }

  // ---- consequences ----

  /** An entry other than "." keeps the link count of its inode above zero. */
  lemma EntryCounts(t: Tree, d: nat, k: nat)
    requires Inv(t) && d < |t| && t[d].linked && k < |t[d].entries| && t[d].entries[k].name != "."
    requires 0 < t[d].entries[k].inum < |t|
    ensures t[t[d].entries[k].inum].nlink >= 1
  {
    var i := t[d].entries[k].inum;
    CountPositive(t, i, d, k, |t|);
    assert CountOk(t, i);
  }

  lemma LinkedCounts(t: Tree, d: nat)
    requires Inv(t) && d < |t| && t[d].linked
    ensures t[d].nlink >= 1
  {
    assert NodeOk(t, d) && DirOk(t, d) && PlaceOk(t, d);
    if d == ROOT {
      EntryCounts(t, ROOT, 1);
    } else {
      var p := Parent(t, d);
      assert NodeOk(t, p) && EntryOk(t, p, t[d].slot);
      EntryCounts(t, p, t[d].slot);
    }
  }

  // ---- every step keeps the invariant ----

  /** A step on the counters of one inode that keeps `nlink` and the calls in flight in step. */
  lemma CountersKeep(a: Tree, b: Tree, ip: nat)
    requires Inv(a) && ip < |a| == |b| && b == a[ip := b[ip]] && NodeOk(b, ip)
    requires b[ip] == a[ip].(nlink := b[ip].nlink, ref := b[ip].ref, leaving := b[ip].leaving, stray := b[ip].stray,
                             freeing := b[ip].freeing, credit := b[ip].credit, debt := b[ip].debt)
    requires b[ip].nlink - b[ip].credit - b[ip].debt == a[ip].nlink - a[ip].credit - a[ip].debt
    ensures Inv(b)
  {
    forall i | 0 <= i < |b| ensures NodeOk(b, i) && DirOk(b, i) && PlaceOk(b, i) {
      assert NodeOk(a, i) && DirOk(a, i) && PlaceOk(a, i);
    }
    forall d, k | 0 <= d < |b| && 0 <= k < |b[d].entries| ensures EntryOk(b, d, k) {
      assert EntryOk(a, d, k);
    }
    forall d, j, k | 0 <= d < |b| && 0 <= j < |b[d].entries| && 0 <= k < |b[d].entries|
      ensures NamesDiffer(b, d, j, k)
    {
      assert NamesDiffer(a, d, j, k);
    }
    forall i | 0 <= i < |b| ensures CountOk(b, i) {
      assert CountOk(a, i);
      CountOne(a, b, ip, i, |a|);
    }
  }

  lemma FreedKeeps(a: Tree, b: Tree, ip: nat)
    requires Inv(a) && Next(a, PutFreed(ip), b)
    ensures Inv(b)
  {
    assert NodeOk(a, ip) && CountOk(a, ip);
    assert !a[ip].linked by {
      if a[ip].linked {
        LinkedCounts(a, ip);
        assert false;
      }
    }
    forall i | 0 <= i < |b| ensures NodeOk(b, i) && DirOk(b, i) && PlaceOk(b, i) {
      assert NodeOk(a, i) && DirOk(a, i) && PlaceOk(a, i);
    }
    forall d, k | 0 <= d < |b| && 0 <= k < |b[d].entries| ensures EntryOk(b, d, k) {
      assert EntryOk(a, d, k);
    }
    forall d, j, k | 0 <= d < |b| && 0 <= j < |b[d].entries| && 0 <= k < |b[d].entries|
      ensures NamesDiffer(b, d, j, k)
    {
      assert NamesDiffer(a, d, j, k);
    }
    forall i | 0 <= i < |b| ensures CountOk(b, i) {
      assert CountOk(a, i);
      CountOne(a, b, ip, i, |a|);
    }
  }

  /** The structure after one entry was added to a directory in the tree. */
  lemma AddedNames(a: Tree, b: Tree, dp: nat, k: nat, e: Entry, d: nat, i: nat, j: nat)
    requires TreeOk(a) && dp < |a| == |b| && FirstFree(a[dp].entries, k) && NoName(a[dp].entries, e.name)
    requires b[dp].entries == PutEntry(a[dp].entries, k, e)
    requires d < |b| && i < |b[d].entries| && j < |b[d].entries|
    requires d != dp ==> b[d].entries == a[d].entries
    ensures NamesDiffer(b, d, i, j)
  {
    if d != dp || (i != k && j != k) {
      assert NamesDiffer(a, d, i, j);
    }
  }

  lemma LinkEndSlot(a: Tree, b: Tree, dp: nat, name: string, k: nat, ip: nat, i: nat)
    requires Inv(a) && Next(a, LinkEnd(dp, name, k, ip), b) && i < |b|
    ensures NodeOk(b, i) && DirOk(b, i) && PlaceOk(b, i)
  {
    assert NodeOk(a, dp) && NodeOk(a, ip) && DirOk(a, dp) && dp != ip;
    assert NodeOk(a, i) && DirOk(a, i) && PlaceOk(a, i);
    assert k >= 2;
  }

  lemma LinkEndEntry(a: Tree, b: Tree, dp: nat, name: string, k: nat, ip: nat, d: nat, j: nat)
    requires Inv(a) && Next(a, LinkEnd(dp, name, k, ip), b) && d < |b| && j < |b[d].entries|
    ensures EntryOk(b, d, j)
  {
    assert NodeOk(a, dp) && NodeOk(a, ip) && DirOk(a, dp) && dp != ip;
    if d == dp && j == k {
      assert a[dp].entries[0].inum != 0 && a[dp].entries[1].inum != 0 && NodeOk(a, ROOT);
    } else {
      assert EntryOk(a, d, j);
    }
  }

  lemma LinkEndKeeps(a: Tree, b: Tree, dp: nat, name: string, k: nat, ip: nat)
    requires Inv(a) && Next(a, LinkEnd(dp, name, k, ip), b)
    ensures Inv(b)
  {
    var e := Entry(ip, name);
    assert NodeOk(a, dp) && NodeOk(a, ip) && dp != ip;
    assert name != "." by { assert DirOk(a, dp) && a[dp].entries[0].inum == dp != 0; }
    forall i | 0 <= i < |b| ensures NodeOk(b, i) && DirOk(b, i) && PlaceOk(b, i) {
      LinkEndSlot(a, b, dp, name, k, ip, i);
    }
    forall d, j | 0 <= d < |b| && 0 <= j < |b[d].entries| ensures EntryOk(b, d, j) {
      LinkEndEntry(a, b, dp, name, k, ip, d, j);
    }
    forall d, i, j | 0 <= d < |b| && 0 <= i < |b[d].entries| && 0 <= j < |b[d].entries|
      ensures NamesDiffer(b, d, i, j)
    {
      AddedNames(a, b, dp, k, e, d, i, j);
    }
    forall i | 0 <= i < |b| ensures CountOk(b, i) {
      assert CountOk(a, i);
      CountOne(a, b, dp, i, |a|);
      HitsPut(a[dp].entries, k, e, i);
    }
  }

  lemma CreateCount(a: Tree, b: Tree, dp: nat, name: string, k: nat, ip: nat, kind: Kind, i: nat)
    requires Inv(a) && Next(a, Create(dp, name, k, ip, kind), b) && i < |b|
    ensures CountOk(b, i)
  {
    var e := Entry(ip, name);
    assert NodeOk(a, dp) && NodeOk(a, ip) && DirOk(a, dp) && CountOk(a, i) && CountOk(a, ip) && dp != ip;
    assert a[dp].entries[0] == Entry(dp, ".") && name != ".";
    CountTwo(a, b, dp, ip, i, |a|);
    HitsPut(a[dp].entries, k, e, i);
    assert Hits(Dots(ip, dp), i) == if i == dp then 1 else 0 by {
      assert HitsBelow(Dots(ip, dp), i, 1) == 0;
    }
  }

  lemma CreateSlot(a: Tree, b: Tree, dp: nat, name: string, k: nat, ip: nat, kind: Kind, i: nat)
    requires Inv(a) && Next(a, Create(dp, name, k, ip, kind), b) && i < |b|
    ensures NodeOk(b, i) && DirOk(b, i)
  {
    assert NodeOk(a, dp) && NodeOk(a, ip) && DirOk(a, dp) && dp != ip && NodeOk(a, i) && DirOk(a, i);
  }

  lemma CreatePlace(a: Tree, b: Tree, dp: nat, name: string, k: nat, ip: nat, kind: Kind, i: nat)
    requires Inv(a) && Next(a, Create(dp, name, k, ip, kind), b) && i < |b|
    ensures PlaceOk(b, i)
  {
    assert NodeOk(a, dp) && NodeOk(a, ip) && DirOk(a, dp) && dp != ip && PlaceOk(a, i);
    assert k >= 2;
  }

  lemma CreateEntry(a: Tree, b: Tree, dp: nat, name: string, k: nat, ip: nat, kind: Kind, d: nat, j: nat)
    requires Inv(a) && Next(a, Create(dp, name, k, ip, kind), b) && d < |b| && j < |b[d].entries|
    ensures EntryOk(b, d, j)
  {
    assert NodeOk(a, dp) && NodeOk(a, ip) && DirOk(a, dp) && dp != ip;
    if d != ip && (d != dp || j != k) {
      assert EntryOk(a, d, j);
      if b[d].linked && j >= 2 && b[d].entries[j].inum != 0 {
        EntryCounts(a, d, j);
      }
    }
  }

  lemma CreateKeeps(a: Tree, b: Tree, dp: nat, name: string, k: nat, ip: nat, kind: Kind)
    requires Inv(a) && Next(a, Create(dp, name, k, ip, kind), b)
    ensures Inv(b)
  {
    assert NodeOk(a, dp) && NodeOk(a, ip) && dp != ip;
    forall i | 0 <= i < |b| ensures NodeOk(b, i) && DirOk(b, i) && PlaceOk(b, i) && CountOk(b, i) {
      CreateSlot(a, b, dp, name, k, ip, kind, i);
      CreatePlace(a, b, dp, name, k, ip, kind, i);
      CreateCount(a, b, dp, name, k, ip, kind, i);
    }
    forall d, j | 0 <= d < |b| && 0 <= j < |b[d].entries| ensures EntryOk(b, d, j) {
      CreateEntry(a, b, dp, name, k, ip, kind, d, j);
    }
    forall d, i, j | 0 <= d < |b| && 0 <= i < |b[d].entries| && 0 <= j < |b[d].entries|
      ensures NamesDiffer(b, d, i, j)
    {
      if d != ip {
        AddedNames(a, b, dp, k, Entry(ip, name), d, i, j);
      }
    }
  }

  /** An entry that `unlink` may remove is not one of the first two, and its directory is in the tree. */
  lemma UnlinkPlace(a: Tree, b: Tree, dp: nat, k: nat, ip: nat)
    requires Inv(a) && Next(a, UnlinkEntry(dp, k, ip), b)
    ensures k >= 2 && a[dp].linked && ip != dp && ip != ROOT
    ensures a[ip].kind.Dir? ==> a[ip].linked && Parent(a, ip) == dp && a[ip].slot == k
  {
    assert NodeOk(a, dp) && DirOk(a, dp) && EntryOk(a, dp, k) && PlaceOk(a, ip);
  }

  lemma EmptyHits(es: seq<Entry>, d: nat, p: nat, i: nat, n: nat)
    requires 2 <= n <= |es| && es[0] == Entry(d, ".") && es[1].name == ".." && es[1].inum == p && Empty(es) && i != 0
    ensures HitsBelow(es, i, n) == if i == p then 1 else 0
  {
    if n == 2 {
      assert HitsBelow(es, i, 1) == HitsBelow(es, i, 0) + Hit(es[0], i);
    } else {
      EmptyHits(es, d, p, i, n - 1);
    }
  }

  lemma UnlinkCountOk(a: Tree, b: Tree, dp: nat, k: nat, ip: nat, i: nat)
    requires Inv(a) && Next(a, UnlinkEntry(dp, k, ip), b) && i < |b|
    ensures CountOk(b, i)
  {
    UnlinkPlace(a, b, dp, k, ip);
    assert CountOk(a, i) && NodeOk(a, ip) && DirOk(a, ip);
    CountTwo(a, b, dp, ip, i, |a|);
    HitsPut(a[dp].entries, k, Entry(0, ""), i);
    if a[ip].kind.Dir? && i != 0 {
      EmptyHits(a[ip].entries, ip, dp, i, |a[ip].entries|);
    }
  }

  lemma UnlinkSlot(a: Tree, b: Tree, dp: nat, k: nat, ip: nat, i: nat)
    requires Inv(a) && Next(a, UnlinkEntry(dp, k, ip), b) && i < |b|
    ensures NodeOk(b, i) && DirOk(b, i) && PlaceOk(b, i)
  {
    UnlinkPlace(a, b, dp, k, ip);
    assert NodeOk(a, i) && DirOk(a, i) && PlaceOk(a, i) && NodeOk(a, ip) && NodeOk(a, dp) && DirOk(a, dp);
    assert CountOk(a, ip);
  }

  lemma UnlinkEntryKeeps(a: Tree, b: Tree, dp: nat, k: nat, ip: nat)
    requires Inv(a) && Next(a, UnlinkEntry(dp, k, ip), b)
    ensures Inv(b)
  {
    UnlinkPlace(a, b, dp, k, ip);
    forall i | 0 <= i < |b| ensures NodeOk(b, i) && DirOk(b, i) && PlaceOk(b, i) && CountOk(b, i) {
      UnlinkSlot(a, b, dp, k, ip, i);
      UnlinkCountOk(a, b, dp, k, ip, i);
    }
    forall d, j | 0 <= d < |b| && 0 <= j < |b[d].entries| ensures EntryOk(b, d, j) {
      assert EntryOk(a, d, j);
    }
    forall d, i, j | 0 <= d < |b| && 0 <= i < |b[d].entries| && 0 <= j < |b[d].entries|
      ensures NamesDiffer(b, d, i, j)
    {
      assert NamesDiffer(a, d, i, j);
    }
  }

  lemma NextKeeps(a: Tree, e: Event, b: Tree)
    requires Inv(a) && Next(a, e, b)
    ensures Inv(b)
  {
    match e {
      case Create(dp, name, k, ip, kind) => CreateKeeps(a, b, dp, name, k, ip, kind);
      case LinkEnd(dp, name, k, ip) => LinkEndKeeps(a, b, dp, name, k, ip);
      case UnlinkEntry(dp, k, ip) => UnlinkEntryKeeps(a, b, dp, k, ip);
      case PutFreed(ip) => FreedKeeps(a, b, ip);
      case Lookup(dp, k) =>
        var ip := a[dp].entries[k].inum;
        assert NodeOk(a, ip);
        CountersKeep(a, b, ip);
      case GetRoot =>
        assert NodeOk(a, ROOT);
        LinkedCounts(a, ROOT);
        CountersKeep(a, b, ROOT);
      case LinkStart(ip) =>
        assert NodeOk(a, ip);
        CountersKeep(a, b, ip);
      case LinkUndo(ip) =>
        assert NodeOk(a, ip) && CountOk(a, ip);
        CountersKeep(a, b, ip);
      case UnlinkCount(ip) =>
        assert NodeOk(a, ip) && CountOk(a, ip);
        CountersKeep(a, b, ip);
      case Dup(ip) =>
        assert NodeOk(a, ip);
        CountersKeep(a, b, ip);
      case PutFree(ip) =>
        assert NodeOk(a, ip);
        CountersKeep(a, b, ip);
      case PutKeep(ip) =>
        assert NodeOk(a, ip);
        CountersKeep(a, b, ip);
      case PutDone(ip) =>
        assert NodeOk(a, ip);
        CountersKeep(a, b, ip);
    }
  }

  /**
   * A lookup in a directory that a process holds reaches an inode that is free, or being freed, exactly when the
   * directory was removed from the tree, the name is "..", and the old parent has gone too.
   */
  lemma LookupReaches(t: Tree, dp: nat, k: nat)
    requires Inv(t) && InUse(t, dp) && k < |t[dp].entries| && t[dp].entries[k].inum != 0
    ensures var e := t[dp].entries[k];
            && e.inum < |t|
            && (Dead(t, e.inum) <==> !t[dp].linked && e.name == ".." && Dead(t, Parent(t, dp)))
  {
    var ip := t[dp].entries[k].inum;
    assert NodeOk(t, dp) && DirOk(t, dp) && EntryOk(t, dp, k) && NamesDiffer(t, dp, k, 1);
    assert NodeOk(t, ip);
    if t[dp].linked && k > 0 {
      assert NamesDiffer(t, dp, k, 0);
      EntryCounts(t, dp, k);
    }
  }

  // ---- runs ----

  const FREE: Node := Node(Free, 0, 0, 0, 0, false, false, [], 0, 0, 0)

  /** A new file system: the root directory, and no other inode in use. */
  ghost predicate Formatted(t: Tree) {
    && ROOT < |t| && t[ROOT] == Node(Dir, 1, 0, 0, 0, false, true, Dots(ROOT, ROOT), 0, 0, 0)
    && forall i | 0 <= i < |t| && i != ROOT :: t[i] == FREE
  }

  ghost predicate StepAt(ts: seq<Tree>, es: seq<Event>, k: nat)
    requires |ts| == |es| + 1 && k < |es|
  {
    Next(ts[k], es[k], ts[k + 1])
  }

  ghost predicate Run(ts: seq<Tree>, es: seq<Event>) {
    |ts| == |es| + 1 && Formatted(ts[0]) && forall k | 0 <= k < |es| :: StepAt(ts, es, k)
  }

  lemma {:induction false} OnlyRoot(t: Tree, i: nat, n: nat)
    requires Formatted(t) && n <= |t| && i != 0
    ensures CountBelow(t, i, n) == if i == ROOT && n > ROOT then 1 else 0
  {
    if n > 0 {
      OnlyRoot(t, i, n - 1);
      assert HitsBelow(Dots(ROOT, ROOT), i, 1) == 0;
    }
  }

  lemma FormattedInv(t: Tree)
    requires Formatted(t)
    ensures Inv(t)
  {
    forall i | 0 <= i < |t| ensures CountOk(t, i) {
      if i != 0 {
        OnlyRoot(t, i, |t|);
      }
    }
  }

  lemma {:induction false} RunInv(ts: seq<Tree>, es: seq<Event>, n: nat)
    requires Run(ts, es) && n < |ts|
    ensures Inv(ts[n])
  {
    if n == 0 {
      FormattedInv(ts[0]);
    } else {
      RunInv(ts, es, n - 1);
      assert StepAt(ts, es, n - 1);
      NextKeeps(ts[n - 1], es[n - 1], ts[n]);
    }
  }

  /**
   * In every run, `nlink` is the number of entries other than "." that name the inode from directories in the tree,
   * plus one for each `link` or `unlink` of it that is half done.
   */
  lemma LinkCounts(ts: seq<Tree>, es: seq<Event>, n: nat, i: nat)
    requires Run(ts, es) && n < |ts| && 0 < i < |ts[n]|
    ensures ts[n][i].nlink == Count(ts[n], i) + ts[n][i].credit + ts[n][i].debt
  {
    RunInv(ts, es, n);
    assert CountOk(ts[n], i);
  }

  lemma UniqueNames(ts: seq<Tree>, es: seq<Event>, n: nat, d: nat, j: nat, k: nat)
    requires Run(ts, es) && n < |ts| && d < |ts[n]| && j < |ts[n][d].entries| && k < |ts[n][d].entries| && j != k
    requires ts[n][d].entries[j].inum != 0 && ts[n][d].entries[k].inum != 0
    ensures ts[n][d].entries[j].name != ts[n][d].entries[k].name
  {
    RunInv(ts, es, n);
    assert NamesDiffer(ts[n], d, j, k);
  }

  /**
   * While an inode is truncated and freed it has no links, no entry of the tree names it, and the one reference beside
   * the strays is the freer's.
   */
  lemma FreedAlone(ts: seq<Tree>, es: seq<Event>, n: nat, i: nat)
    requires Run(ts, es) && n < |ts| && i < |ts[n]| && ts[n][i].freeing
    ensures ts[n][i].ref == 1 + ts[n][i].stray && ts[n][i].leaving == 0 && ts[n][i].nlink == 0 && Count(ts[n], i) == 0
  {
    RunInv(ts, es, n);
    assert NodeOk(ts[n], i) && CountOk(ts[n], i);
  }

  /** Step `m` looks up the ".." of a removed directory, and that is inode `i`, which is free or being freed. */
  ghost predicate Strays(ts: seq<Tree>, es: seq<Event>, m: nat, i: nat) {
    && m < |es| && m < |ts| && es[m].Lookup? && es[m].dp < |ts[m]| && es[m].k < |ts[m][es[m].dp].entries|
    && var dir := ts[m][es[m].dp];
       !dir.linked && dir.entries[es[m].k] == Entry(i, "..") && Dead(ts[m], i)
  }

  /** Every stray reference comes from such a lookup. */
  lemma {:induction false} StrayOrigin(ts: seq<Tree>, es: seq<Event>, n: nat, i: nat)
    requires Run(ts, es) && n < |ts| && i < |ts[n]| && ts[n][i].stray > 0
    ensures exists m :: 0 <= m < n && Strays(ts, es, m, i)
  {
    if n > 0 {
      var a, e := ts[n - 1], es[n - 1];
      RunInv(ts, es, n - 1);
      assert StepAt(ts, es, n - 1);
      if a[i].stray > 0 {
        StrayOrigin(ts, es, n - 1, i);
        var m :| 0 <= m < n - 1 && Strays(ts, es, m, i);
        assert 0 <= m < n;
      } else {
        LookupReaches(a, e.dp, e.k);
        assert Strays(ts, es, n - 1, i);
      }
    }
  }

  /**
   * A process that has a reference, and has not begun to give it back, has an allocated inode, so that `ilock` finds
   * its type, unless somebody looked up the ".." of a removed directory after the inode which that names was freed.
   */
  lemma OwnedIsAllocated(ts: seq<Tree>, es: seq<Event>, n: nat, i: nat)
    requires Run(ts, es) && n < |ts| && i < |ts[n]| && ts[n][i].ref > ts[n][i].leaving
    ensures !ts[n][i].kind.Free? || exists m :: 0 <= m < n && Strays(ts, es, m, i)
  {
    RunInv(ts, es, n);
    assert NodeOk(ts[n], i);
    if ts[n][i].stray > 0 {
      StrayOrigin(ts, es, n, i);
    }
  }

  /** The inode that `unlink` finds under a name has at least one link. */
  lemma UnlinkFindsLink(ts: seq<Tree>, es: seq<Event>, n: nat, dp: nat, k: nat)
    requires Run(ts, es) && n < |ts| && Owned(ts[n], dp) && ts[n][dp].kind.Dir? && k < |ts[n][dp].entries|
    requires ts[n][dp].entries[k].inum != 0 && ts[n][dp].entries[k].name != "." && ts[n][dp].entries[k].name != ".."
    ensures ts[n][dp].linked && ts[n][dp].entries[k].inum < |ts[n]| && ts[n][ts[n][dp].entries[k].inum].nlink >= 1
  {
    RunInv(ts, es, n);
    assert DirOk(ts[n], dp) && EntryOk(ts[n], dp, k);
    EntryCounts(ts[n], dp, k);
  }

  // ---- inodes that are never freed ----

  /** Whoever holds the last reference to an unlinked inode has still to make the check that frees it. */
  ghost predicate Reclaimable(t: Tree) {
    forall i | 0 < i < |t| && !t[i].kind.Free? && t[i].nlink == 0 :: t[i].ref > t[i].leaving + t[i].stray
  }

  /**
   * The one step that breaks this is an `iput` of an unlinked inode whose check finds other references, all of which
   * belong to calls of `iput` that have made their own check already and not yet counted down.
   */
  lemma LastCheck(a: Tree, e: Event, b: Tree)
    requires Inv(a) && Reclaimable(a) && Next(a, e, b)
    ensures Reclaimable(b) <==> !(e.PutKeep? && a[e.ip].nlink == 0 && a[e.ip].ref == a[e.ip].leaving + 1)
  {
    NextKeeps(a, e, b);
    match e {
      case PutKeep(ip) =>
        assert NodeOk(a, ip) && NodeOk(a, 0) && ip != 0;
        assert !b[ip].kind.Free? && b[ip].ref == a[ip].ref && b[ip].leaving == a[ip].leaving + 1;
      case UnlinkEntry(dp, k, ip) =>
        UnlinkPlace(a, b, dp, k, ip);
        LinkedCounts(b, dp);
      case _ =>
    }
  }

  // ---- directories that are out of the tree ----

  /** Only a directory in the tree is named, other than by ".", from directories in the tree. */
  lemma {:induction false} RemovedHits(t: Tree, d: nat, q: nat, n: nat)
    requires TreeOk(t) && d < |t| && t[d].kind.Dir? && !t[d].linked && d != 0
    requires q < |t| && t[q].linked && n <= |t[q].entries|
    ensures HitsBelow(t[q].entries, d, n) == 0
  {
    if n > 0 {
      RemovedHits(t, d, q, n - 1);
      assert NodeOk(t, q) && DirOk(t, q) && PlaceOk(t, q) && EntryOk(t, q, n - 1) && NodeOk(t, ROOT);
    }
  }

  lemma {:induction false} RemovedCount(t: Tree, d: nat, n: nat)
    requires TreeOk(t) && d < |t| && t[d].kind.Dir? && !t[d].linked && d != 0 && n <= |t|
    ensures CountBelow(t, d, n) == 0
  {
    if n > 0 {
      RemovedCount(t, d, n - 1);
      if t[n - 1].linked {
        RemovedHits(t, d, n - 1, |t[n - 1].entries|);
      }
    }
  }

  /** A directory is in the tree exactly if it has links, when no `unlink` of it is half done. */
  lemma LinkedByCount(t: Tree, d: nat)
    requires Inv(t) && d < |t| && t[d].kind.Dir? && t[d].debt == 0
    ensures t[d].linked <==> t[d].nlink > 0
  {
    assert NodeOk(t, d) && NodeOk(t, 0) && CountOk(t, d);
    if t[d].linked {
      LinkedCounts(t, d);
    } else {
      RemovedCount(t, d, |t|);
    }
  }

  /** A new name in a directory that is not in the tree leaves its inode with one entry too few. */
  lemma MissingEntry(a: Tree, b: Tree, dp: nat, ip: nat)
    requires Inv(a) && dp < |a| == |b| && 0 < ip < |a| && dp != ip && !a[dp].linked && !b[dp].linked
    requires !a[ip].linked && !b[ip].linked && forall q | 0 <= q < |a| && q != dp && q != ip :: b[q] == a[q]
    ensures Count(b, ip) == Count(a, ip)
  {
    CountTwo(a, b, dp, ip, ip, |a|);
  }

  /**
   * `create`, of a file or a directory, does not look whether its directory is still in the tree. The link counts stay
   * right exactly when the directory has links. `create` holds its lock, so that no `unlink` of it is half done.
   */
  lemma CreateNeedsTree(a: Tree, dp: nat, name: string, k: nat, ip: nat, kind: Kind)
    requires Inv(a) && InUse(a, dp) && a[dp].debt == 0 && Fits(a[dp].entries, name, k)
    requires 0 < ip < |a| && a[ip].kind.Free? && !kind.Free?
    ensures Inv(Created(a, dp, name, k, ip, kind)) <==> a[dp].nlink > 0
  {
    var b := Created(a, dp, name, k, ip, kind);
    LinkedByCount(a, dp);
    if a[dp].linked {
      NextKeeps(a, Create(dp, name, k, ip, kind), b);
    } else {
      assert NodeOk(a, ip) && CountOk(a, ip) && dp != ip;
      MissingEntry(a, b, dp, ip);
      assert !CountOk(b, ip);
    }
  }

  /** The same for the new entry of `link`. */
  lemma LinkNeedsTree(a: Tree, dp: nat, name: string, k: nat, ip: nat)
    requires Inv(a) && InUse(a, dp) && a[dp].debt == 0 && Fits(a[dp].entries, name, k)
    requires Owned(a, ip) && a[ip].credit > 0
    ensures Inv(Entered(a, dp, name, k, ip)) <==> a[dp].nlink > 0
  {
    var b := Entered(a, dp, name, k, ip);
    LinkedByCount(a, dp);
    assert NodeOk(a, ip) && NodeOk(a, 0) && CountOk(a, ip) && dp != ip;
    if a[dp].linked {
      NextKeeps(a, LinkEnd(dp, name, k, ip), b);
    } else {
      MissingEntry(a, b, dp, ip);
      assert !CountOk(b, ip);
    }
  }

  // ---- runs in which this happens ----

  lemma Extend(ts: seq<Tree>, es: seq<Event>, e: Event, t: Tree) returns (ts2: seq<Tree>, es2: seq<Event>)
    requires Run(ts, es) && Next(ts[|es|], e, t)
    ensures Run(ts2, es2) && ts2 == ts + [t] && es2 == es + [e]
  {
    ts2, es2 := ts + [t], es + [e];
    forall k | 0 <= k < |es2| ensures StepAt(ts2, es2, k) {
      assert k < |es| ==> StepAt(ts, es, k);
    }
  }

  /** `unlink` of an entry, both halves. */
  lemma UnlinkRun(ts: seq<Tree>, es: seq<Event>, dp: nat, k: nat, ip: nat) returns (ts2: seq<Tree>, es2: seq<Event>)
    requires Run(ts, es) && dp != ip && dp < |ts[|es|]| && ip < |ts[|es|]| && k < |ts[|es|][dp].entries|
    requires Next(ts[|es|], UnlinkEntry(dp, k, ip), Removed(ts[|es|], dp, k, ip))
    ensures Run(ts2, es2)
    ensures var t := Removed(ts[|es|], dp, k, ip);
            ts2[|es2|] == t[ip := t[ip].(nlink := t[ip].nlink - 1, debt := t[ip].debt - 1)]
  {
    var t := Removed(ts[|es|], dp, k, ip);
    ts2, es2 := Extend(ts, es, UnlinkEntry(dp, k, ip), t);
    var t2 := t[ip := t[ip].(nlink := t[ip].nlink - 1, debt := t[ip].debt - 1)];
    ts2, es2 := Extend(ts2, es2, UnlinkCount(ip), t2);
  }

  /** `iput` of the last reference to an unlinked inode, up to the decrement. */
  lemma FreeRun(ts: seq<Tree>, es: seq<Event>, ip: nat) returns (ts2: seq<Tree>, es2: seq<Event>)
    requires Run(ts, es) && Owned(ts[|es|], ip) && ts[|es|][ip].nlink == 0 && ts[|es|][ip].ref == 1
    ensures Run(ts2, es2)
    ensures ts2[|es2|] ==
            ts[|es|][ip := ts[|es|][ip].(kind := Free, entries := [], leaving := ts[|es|][ip].leaving + 1)]
  {
    var t := ts[|es|];
    var x := t[ip];
    ts2, es2 := Extend(ts, es, PutFree(ip), t[ip := x.(freeing := true)]);
    ts2, es2 := Extend(ts2, es2, PutFreed(ip), t[ip := x.(kind := Free, entries := [], leaving := x.leaving + 1)]);
  }

  function RootNode(nlink: int, ref: nat, more: seq<Entry>): Node {
    Node(Dir, nlink, ref, 0, 0, false, true, Dots(ROOT, ROOT) + more, 0, 0, 0)
  }

  lemma ThirdEntry(ip: nat, dp: nat, x: Entry, y: Entry)
    ensures (Dots(ip, dp) + [x])[2 := y] == Dots(ip, dp) + [y]
  {
  }

  /** A directory "a" with a directory "b" in it; a process has made both and holds them. */
  lemma TwoDirectories() returns (ts: seq<Tree>, es: seq<Event>)
    ensures Run(ts, es)
    ensures ts[|es|] == [FREE, RootNode(2, 1, [Entry(2, "a")]),
                         Node(Dir, 2, 1, 0, 0, false, true, Dots(2, ROOT) + [Entry(3, "b")], 2, 0, 0),
                         Node(Dir, 1, 1, 0, 0, false, true, Dots(3, 2), 2, 0, 0)]
  {
    var t0 := [FREE, RootNode(1, 0, []), FREE, FREE];
    var t1 := [FREE, RootNode(1, 1, []), FREE, FREE];
    var t2 := [FREE, RootNode(2, 1, [Entry(2, "a")]), Node(Dir, 1, 1, 0, 0, false, true, Dots(2, ROOT), 2, 0, 0), FREE];
    var t3 := [FREE, RootNode(2, 1, [Entry(2, "a")]),
               Node(Dir, 2, 1, 0, 0, false, true, Dots(2, ROOT) + [Entry(3, "b")], 2, 0, 0),
               Node(Dir, 1, 1, 0, 0, false, true, Dots(3, 2), 2, 0, 0)];
    assert Formatted(t0);
    assert Next(t0, GetRoot, t1);
    assert Next(t1, Create(ROOT, "a", 2, 2, Dir), t2);
    assert Next(t2, Create(2, "b", 2, 3, Dir), t3);
    ts, es := Extend([t0], [], GetRoot, t1);
    ts, es := Extend(ts, es, Create(ROOT, "a", 2, 2, Dir), t2);
    ts, es := Extend(ts, es, Create(2, "b", 2, 3, Dir), t3);
  }

  /** The directory "b" is removed while the process still works in it. */
  lemma RemovedInUse() returns (ts: seq<Tree>, es: seq<Event>)
    ensures Run(ts, es)
    ensures ts[|es|] == [FREE, RootNode(2, 1, [Entry(2, "a")]),
                         Node(Dir, 1, 1, 0, 0, false, true, Dots(2, ROOT) + [Entry(0, "")], 2, 0, 0),
                         Node(Dir, 0, 1, 0, 0, false, false, Dots(3, 2), 2, 0, 0)]
    ensures InUse(ts[|es|], 3) && ts[|es|][3].nlink == 0 && ts[|es|][3].debt == 0
  {
    ts, es := TwoDirectories();
    ThirdEntry(2, ROOT, Entry(3, "b"), Entry(0, ""));
    ts, es := UnlinkRun(ts, es, 2, 2, 3);
  }

  /** Then "a" goes too, and the ".." that the process would look up next names a free inode. */
  lemma DanglingParent() returns (ts: seq<Tree>, es: seq<Event>, d: nat)
    ensures Run(ts, es) && InUse(ts[|es|], d) && !ts[|es|][d].linked && |ts[|es|][d].entries| >= 2
    ensures Dead(ts[|es|], Parent(ts[|es|], d)) && Next(ts[|es|], Lookup(d, 1), Strayed(ts[|es|], d))
  {
    ts, es := RemovedInUse();
    d := 3;
    ts, es := UnlinkRun(ts, es, ROOT, 2, 2);
    ts, es := FreeRun(ts, es, 2);
  }

  /** The tree after a lookup of the ".." of directory `d` that finds its inode dead. */
  function Strayed(t: Tree, d: nat): Tree
    requires d < |t|
  {
    var p := Parent(t, d);
    if p < |t| then t[p := Taken(t[p], true)] else t
  }

  /** A file is unlinked while two processes have it open. */
  lemma UnlinkedOpen() returns (ts: seq<Tree>, es: seq<Event>)
    ensures Run(ts, es)
    ensures ts[|es|] == [FREE, RootNode(1, 1, [Entry(0, "")]), Node(File, 0, 2, 0, 0, false, false, [], 2, 0, 0)]
  {
    var t0 := [FREE, RootNode(1, 0, []), FREE];
    var t1 := [FREE, RootNode(1, 1, []), FREE];
    var root, f := RootNode(1, 1, [Entry(2, "f")]), Node(File, 1, 1, 0, 0, false, false, [], 2, 0, 0);
    assert Formatted(t0);
    assert Next(t0, GetRoot, t1);
    assert Next(t1, Create(ROOT, "f", 2, 2, File), [FREE, root, f]);
    assert Next([FREE, root, f], Dup(2), [FREE, root, f.(ref := 2)]);
    ts, es := Extend([t0], [], GetRoot, t1);
    ts, es := Extend(ts, es, Create(ROOT, "f", 2, 2, File), [FREE, root, f]);
    ts, es := Extend(ts, es, Dup(2), [FREE, root, f.(ref := 2)]);
    ThirdEntry(ROOT, ROOT, Entry(2, "f"), Entry(0, ""));
    ts, es := UnlinkRun(ts, es, ROOT, 2, 2);
  }

  /** Two calls of `iput` in step with each other: the inode stays allocated with neither a link nor a reference. */
  lemma Leak(ts: seq<Tree>, es: seq<Event>, i: nat) returns (ts2: seq<Tree>, es2: seq<Event>)
    requires Run(ts, es) && Owned(ts[|es|], i)
    requires ts[|es|][i].nlink == 0 && ts[|es|][i].ref == 2 && ts[|es|][i].leaving == 0
    ensures Run(ts2, es2) && |ts2[|es2|]| == |ts[|es|]|
    ensures var x := ts2[|es2|][i]; !x.kind.Free? && x.nlink == 0 && x.ref == 0
  {
    RunInv(ts, es, |es|);
    var t := ts[|es|];
    var x := t[i];
    assert NodeOk(t, i);
    ts2, es2 := Extend(ts, es, PutKeep(i), t[i := x.(leaving := 1)]);
    ts2, es2 := Extend(ts2, es2, PutKeep(i), t[i := x.(leaving := 2)]);
    ts2, es2 := Extend(ts2, es2, PutDone(i), t[i := x.(ref := 1, leaving := 1)]);
    ts2, es2 := Extend(ts2, es2, PutDone(i), t[i := x.(ref := 0)]);
  }

  lemma LeakHappens() returns (ts: seq<Tree>, es: seq<Event>, i: nat)
    ensures Run(ts, es) && 0 < i < |ts[|es|]|
    ensures var x := ts[|es|][i]; !x.kind.Free? && x.nlink == 0 && x.ref == 0
  {
    i := 2;
    ts, es := UnlinkedOpen();
    ts, es := Leak(ts, es, i);
  }
}
