/**
 The on-disk redo log: its format, the block writes that a commit and a recovery make,
 and crash atomicity of the two, for a crash after any prefix of those writes.
 */
module LogDisk {

  const MAXOPBLOCKS: nat := 10
  const LOGSIZE: nat := 30
  /** 32-bit words in one disk block of 512 bytes. */
  const BLOCK_WORDS: nat := 128

  type Block = b: seq<int> | |b| == BLOCK_WORDS witness seq(BLOCK_WORDS, _ => 0)

  /** The disk writes one whole block atomically; a crash may come between any two writes. */
  type Disk = seq<Block>

  datatype Write = Write(bno: nat, data: Block)

  function WriteBlock(d: Disk, w: Write): Disk {
    if w.bno < |d| then d[w.bno := w.data] else d
  }

  function Apply(d: Disk, ws: seq<Write>): Disk {
    if ws == [] then d else WriteBlock(Apply(d, ws[..|ws| - 1]), ws[|ws| - 1])
  }

  lemma ApplyPrefix(d: Disk, ws: seq<Write>, k: nat)
    requires k < |ws|
    ensures Apply(d, ws[..k + 1]) == WriteBlock(Apply(d, ws[..k]), ws[k])
  {
    assert ws[..k + 1][..k] == ws[..k];
  }

  lemma {:induction false} ApplyAppend(d: Disk, ws: seq<Write>, us: seq<Write>)
    ensures Apply(d, ws + us) == Apply(Apply(d, ws), us)
    decreases |us|
  {
    if us == [] {
      assert ws + us == ws;
    } else {
      var us' := us[..|us| - 1];
      assert (ws + us)[..|ws + us| - 1] == ws + us';
      ApplyAppend(d, ws, us');
    }
  }

  // ---- the log header ----

  /** The header block: word 0 holds n, the next n words the block numbers; the rest is left as it was. */
  function HeadBlock(prev: Block, lh: seq<nat>): Block
    requires |lh| <= LOGSIZE
  {
    seq(BLOCK_WORDS, i requires 0 <= i < BLOCK_WORDS =>
      if i == 0 then |lh| else if i <= |lh| then lh[i - 1] else prev[i])
  }

  ghost predicate HeaderOk(h: Block) {
    0 <= h[0] <= LOGSIZE && forall i | 1 <= i <= h[0] :: h[i] >= 0
  }

  /** The block numbers that a header block lists. */
  function Header(h: Block): (lh: seq<nat>)
    requires HeaderOk(h)
    ensures |lh| == h[0] <= LOGSIZE
  {
    seq(h[0], i requires 0 <= i < h[0] => h[1 + i])
  }

  lemma HeaderRoundTrip(prev: Block, lh: seq<nat>)
    requires |lh| <= LOGSIZE
    ensures HeaderOk(HeadBlock(prev, lh)) && Header(HeadBlock(prev, lh)) == lh
  {
  }

  // ---- home blocks and pending contents ----

  /** `b` is a home location: a block outside the header and the log's data slots. */
  predicate Home(b: nat, size: nat, start: nat) {
    b < size && !(start <= b <= start + LOGSIZE)
  }

  /** A list of home blocks that fits the log of this disk. */
  ghost predicate LogList(lh: seq<nat>, size: nat, start: nat) {
    && start + LOGSIZE < size
    && |lh| <= LOGSIZE
    && forall i | 0 <= i < |lh| :: Home(lh[i], size, start)
  }

  /** `cache` holds new contents for exactly the blocks listed in `lh`. */
  ghost predicate Caches(cache: map<nat, Block>, lh: seq<nat>) {
    && (forall i | 0 <= i < |lh| :: lh[i] in cache)
    && (forall b | b in cache :: b in lh)
  }

  /** The header is empty: the log holds no transaction. */
  ghost predicate Cleared(d: Disk, start: nat) {
    start + LOGSIZE < |d| && d[start][0] == 0
  }

  /** The header lists `lh` and the log's data slots hold the new contents: the transaction is durable. */
  ghost predicate Committed(d: Disk, start: nat, lh: seq<nat>, cache: map<nat, Block>) {
    && start + LOGSIZE < |d|
    && HeaderOk(d[start]) && Header(d[start]) == lh
    && Slots(d, start, lh, cache, |lh|)
  }

  /** The first `j` data slots hold the new contents of the first `j` listed blocks. */
  ghost predicate Slots(d: Disk, start: nat, lh: seq<nat>, cache: map<nat, Block>, j: nat) {
    && j <= |lh| && start + j < |d|
    && forall i | 0 <= i < j :: lh[i] in cache && d[start + 1 + i] == cache[lh[i]]
  }

  /** The first `m` listed blocks hold their new contents. */
  ghost predicate Installed(d: Disk, lh: seq<nat>, cache: map<nat, Block>, m: nat) {
    && m <= |lh|
    && forall i | 0 <= i < m :: lh[i] in cache && lh[i] < |d| && d[lh[i]] == cache[lh[i]]
  }

  /** Every home block holds its content in `h`. */
  ghost predicate SameHomes(d: Disk, start: nat, h: Disk) {
    |d| == |h| && forall b: nat {:trigger Home(b, |d|, start)} | Home(b, |d|, start) :: d[b] == h[b]
  }

  /** Every home block holds its content in `d0`, or already its new content. */
  ghost predicate OldOrNew(d: Disk, start: nat, d0: Disk, cache: map<nat, Block>) {
    && |d| == |d0|
    && forall b: nat {:trigger Home(b, |d|, start)} | Home(b, |d|, start) ::
      d[b] == d0[b] || (b in cache && d[b] == cache[b])
  }

  /** `h` with the blocks of `cache` replaced. */
  function Overlay(h: Disk, cache: map<nat, Block>): (r: Disk)
    ensures |r| == |h|
    ensures forall b: nat {:trigger r[b]} | b < |h| :: r[b] == if b in cache then cache[b] else h[b]
  {
    seq(|h|, b requires 0 <= b < |h| => if b in cache then cache[b] else h[b])
  }

  /** Once every listed block is installed, the home blocks are all as after the transaction. */
  lemma AllInstalled(d: Disk, start: nat, d0: Disk, lh: seq<nat>, cache: map<nat, Block>)
    requires OldOrNew(d, start, d0, cache) && Caches(cache, lh) && Installed(d, lh, cache, |lh|)
    ensures SameHomes(d, start, Overlay(d0, cache))
  {
    forall b: nat | Home(b, |d|, start) ensures d[b] == Overlay(d0, cache)[b] {
      if b in cache {
        var i :| 0 <= i < |lh| && lh[i] == b;
        assert d[lh[i]] == cache[lh[i]];
      }
    }
  }

  // ---- single writes ----

  lemma SlotStep(d: Disk, start: nat, lh: seq<nat>, cache: map<nat, Block>, j: nat)
    requires Slots(d, start, lh, cache, j) && j < |lh| && start + |lh| < |d| && lh[j] in cache
    ensures var d' := d[start + 1 + j := cache[lh[j]]];
            Slots(d', start, lh, cache, j + 1) && d'[start] == d[start]
  {
  }

  /** A write to a log slot leaves the home blocks alone. */
  lemma SlotNoHome(d: Disk, start: nat, j: nat, data: Block, d0: Disk)
    requires SameHomes(d, start, d0) && j < LOGSIZE && start + LOGSIZE < |d|
    ensures SameHomes(d[start + 1 + j := data], start, d0)
  {
  }

  lemma InstallStep(d: Disk, start: nat, lh: seq<nat>, cache: map<nat, Block>, m: nat, d0: Disk)
    requires LogList(lh, |d|, start) && Installed(d, lh, cache, m) && m < |lh| && lh[m] in cache
    requires OldOrNew(d, start, d0, cache)
    ensures var d' := d[lh[m] := cache[lh[m]]];
            && Installed(d', lh, cache, m + 1) && OldOrNew(d', start, d0, cache)
            && d'[start] == d[start]
            && (Slots(d, start, lh, cache, |lh|) ==> Slots(d', start, lh, cache, |lh|))
  {
    var d' := d[lh[m] := cache[lh[m]]];
    if Slots(d, start, lh, cache, |lh|) {
      forall i | 0 <= i < |lh| ensures d'[start + 1 + i] == cache[lh[i]] {
        assert lh[m] != start + 1 + i;
      }
    }
  }

  lemma HeaderStep(d: Disk, start: nat, lh: seq<nat>, cache: map<nat, Block>, h: Block)
    requires LogList(lh, |d|, start)
    ensures var d' := d[start := h];
            && d'[start] == h
            && (Slots(d, start, lh, cache, |lh|) ==> Slots(d', start, lh, cache, |lh|))
            && (forall d0 :: SameHomes(d, start, d0) ==> SameHomes(d', start, d0))
  {
  }

  // ---- the writes of a commit and of a recovery ----

  function LogWrites(start: nat, lh: seq<nat>, cache: map<nat, Block>): (ws: seq<Write>)
    requires forall i | 0 <= i < |lh| :: lh[i] in cache
    ensures |ws| == |lh|
  {
    seq(|lh|, i requires 0 <= i < |lh| => Write(start + 1 + i, cache[lh[i]]))
  }

  function InstallWrites(lh: seq<nat>, cache: map<nat, Block>): (ws: seq<Write>)
    requires forall i | 0 <= i < |lh| :: lh[i] in cache
    ensures |ws| == |lh|
  {
    seq(|lh|, i requires 0 <= i < |lh| => Write(lh[i], cache[lh[i]]))
  }

  /** All writes of `commit`: the log, the header (the commit point), the home blocks, the cleared header. */
  function CommitWrites(prev: Block, start: nat, lh: seq<nat>, cache: map<nat, Block>): (ws: seq<Write>)
    requires |lh| <= LOGSIZE
    requires forall i | 0 <= i < |lh| :: lh[i] in cache
    ensures |ws| == 2 * |lh| + 2
  {
    var head := HeadBlock(prev, lh);
    LogWrites(start, lh, cache) + [Write(start, head)]
    + InstallWrites(lh, cache) + [Write(start, HeadBlock(head, []))]
  }

  /** The copies from the log's data slots to the listed blocks. */
  function CopyWrites(d: Disk, start: nat, lh: seq<nat>): (ws: seq<Write>)
    requires start + |lh| < |d|
    ensures |ws| == |lh|
  {
    seq(|lh|, i requires 0 <= i < |lh| => Write(lh[i], d[start + 1 + i]))
  }

  /** All writes of `recover_from_log` on the disk `d`: the logged blocks to their homes, then the header. */
  function RecoverWrites(d: Disk, start: nat): (ws: seq<Write>)
    requires start + LOGSIZE < |d| && HeaderOk(d[start])
    ensures |ws| == d[start][0] + 1
  {
    CopyWrites(d, start, Header(d[start])) + [Write(start, HeadBlock(d[start], []))]
  }

  /** Recovery started and stopped once for each entry of `stops`; an entry is the writes it made. */
  ghost function Interrupted(d: Disk, start: nat, stops: seq<nat>): Disk
    decreases |stops|
  {
    if stops == [] then d
    else
      var d1 := Interrupted(d, start, stops[..|stops| - 1]);
      if start + LOGSIZE >= |d1| || !HeaderOk(d1[start]) then d1
      else
        var ws, k := RecoverWrites(d1, start), stops[|stops| - 1];
        if k < |ws| then Apply(d1, ws[..k]) else Apply(d1, ws)
  }

  /** ... and then run to the end. */
  ghost function Recovered(d: Disk, start: nat, stops: seq<nat>): Disk {
    var d1 := Interrupted(d, start, stops);
    if start + LOGSIZE >= |d1| || !HeaderOk(d1[start]) then d1 else Apply(d1, RecoverWrites(d1, start))
  }

  /** From entry `off` on, a list of writes installs `lh` and then replaces the header by an empty one. */
  ghost predicate InstallPlan(ws: seq<Write>, off: nat, start: nat, lh: seq<nat>, cache: map<nat, Block>) {
    && |ws| == off + |lh| + 1
    && (forall i | 0 <= i < |lh| :: lh[i] in cache && ws[off + i] == Write(lh[i], cache[lh[i]]))
    && ws[off + |lh|].bno == start && ws[off + |lh|].data[0] == 0
  }

  lemma RecoverPlan(d: Disk, start: nat, lh: seq<nat>, cache: map<nat, Block>)
    requires Committed(d, start, lh, cache)
    ensures InstallPlan(RecoverWrites(d, start), 0, start, lh, cache)
  {
    var ws := RecoverWrites(d, start);
    forall i | 0 <= i < |lh| ensures ws[i] == Write(lh[i], cache[lh[i]]) {}
  }

  // ---- running such a list ----

  /** The state after `m` installs of a durable transaction. */
  ghost predicate Installing(d: Disk, d0: Disk, start: nat, lh: seq<nat>, cache: map<nat, Block>, m: nat) {
    && |d| == |d0|
    && Installed(d, lh, cache, m)
    && OldOrNew(d, start, d0, cache)
    && start < |d| && d[start] == d0[start]
    && Slots(d, start, lh, cache, |lh|)
  }

  lemma {:induction false} InstallPrefix(d: Disk, ws: seq<Write>, off: nat, start: nat, lh: seq<nat>, cache: map<nat,
                                         Block>, m: nat)
    requires InstallPlan(ws, off, start, lh, cache) && m <= |lh|
    requires var d1 := Apply(d, ws[..off]); LogList(lh, |d1|, start) && Slots(d1, start, lh, cache, |lh|)
    ensures Installing(Apply(d, ws[..off + m]), Apply(d, ws[..off]), start, lh, cache, m)
    decreases m
  {
    if m > 0 {
      InstallPrefix(d, ws, off, start, lh, cache, m - 1);
      var dm, j := Apply(d, ws[..off + m - 1]), m - 1;
      assert Apply(d, ws[..off + m]) == dm[lh[j] := cache[lh[j]]] by {
        assert ws[off + j] == Write(lh[j], cache[lh[j]]);
        ApplyPrefix(d, ws, off + j);
      }
      InstallStep(dm, start, lh, cache, j, Apply(d, ws[..off]));
    }
  }

  /** A state from which recovery must complete the transaction `lh`, `cache` over `d0`. */
  ghost predicate MustInstall(d: Disk, d0: Disk, start: nat, lh: seq<nat>, cache: map<nat, Block>) {
    && LogList(lh, |d|, start) && Caches(cache, lh)
    && Committed(d, start, lh, cache)
    && OldOrNew(d, start, d0, cache)
  }

  lemma OldOrNewTrans(d: Disk, d1: Disk, d0: Disk, start: nat, cache: map<nat, Block>)
    requires OldOrNew(d, start, d1, cache) && OldOrNew(d1, start, d0, cache)
    ensures OldOrNew(d, start, d0, cache)
  {
  }

  /** Stopped before its last write, the list keeps the transaction durable. */
  lemma InstallSome(d: Disk, d0: Disk, ws: seq<Write>, off: nat, start: nat, lh: seq<nat>, cache: map<nat, Block>,
                    m: nat)
    requires InstallPlan(ws, off, start, lh, cache) && m <= |lh|
    requires MustInstall(Apply(d, ws[..off]), d0, start, lh, cache)
    ensures MustInstall(Apply(d, ws[..off + m]), d0, start, lh, cache)
  {
    InstallPrefix(d, ws, off, start, lh, cache, m);
    OldOrNewTrans(Apply(d, ws[..off + m]), Apply(d, ws[..off]), d0, start, cache);
  }

  /** Run to its end, the list leaves the log empty and the home blocks as after the transaction. */
  lemma InstallAll(d: Disk, d0: Disk, ws: seq<Write>, off: nat, start: nat, lh: seq<nat>, cache: map<nat, Block>)
    requires InstallPlan(ws, off, start, lh, cache)
    requires MustInstall(Apply(d, ws[..off]), d0, start, lh, cache)
    ensures Cleared(Apply(d, ws), start) && SameHomes(Apply(d, ws), start, Overlay(d0, cache))
  {
    var n := off + |lh|;
    InstallPrefix(d, ws, off, start, lh, cache, |lh|);
    var dm := Apply(d, ws[..n]);
    OldOrNewTrans(dm, Apply(d, ws[..off]), d0, start, cache);
    AllInstalled(dm, start, d0, lh, cache);
    assert ws[..n + 1] == ws;
    ApplyPrefix(d, ws, n);
    HeaderStep(dm, start, lh, cache, ws[n].data);
  }

  /** Recovery of an empty log only rewrites the empty header. */
  lemma RecoverEmpty(d: Disk, start: nat, h: Disk)
    requires Cleared(d, start) && SameHomes(d, start, h)
    ensures HeaderOk(d[start]) && |RecoverWrites(d, start)| == 1
    ensures var r := Apply(d, RecoverWrites(d, start)); Cleared(r, start) && SameHomes(r, start, h)
  {
    var ws := RecoverWrites(d, start);
    assert ws[..0 + 1] == ws && ws[..0] == [];
    ApplyPrefix(d, ws, 0);
    HeaderStep(d, start, [], map[], HeadBlock(d[start], []));
  }

  lemma {:induction false} InterruptedEmpty(d: Disk, start: nat, h: Disk, stops: seq<nat>)
    requires Cleared(d, start) && SameHomes(d, start, h)
    ensures var r := Interrupted(d, start, stops); Cleared(r, start) && SameHomes(r, start, h)
    decreases |stops|
  {
    if stops != [] {
      var front := stops[..|stops| - 1];
      InterruptedEmpty(d, start, h, front);
      RecoverEmpty(Interrupted(d, start, front), start, h);
    }
  }

  /** Recovery of an empty log, however often interrupted, changes no home block. */
  lemma RecoverCleared(d: Disk, start: nat, h: Disk, stops: seq<nat>)
    requires Cleared(d, start) && SameHomes(d, start, h)
    ensures var r := Recovered(d, start, stops); Cleared(r, start) && SameHomes(r, start, h)
  {
    InterruptedEmpty(d, start, h, stops);
    RecoverEmpty(Interrupted(d, start, stops), start, h);
  }

  lemma RecoverSome(d: Disk, d0: Disk, start: nat, lh: seq<nat>, cache: map<nat, Block>, k: nat)
    requires MustInstall(d, d0, start, lh, cache) && k <= |lh|
    ensures MustInstall(Apply(d, RecoverWrites(d, start)[..k]), d0, start, lh, cache)
  {
    RecoverPlan(d, start, lh, cache);
    assert Apply(d, RecoverWrites(d, start)[..0]) == d;
    InstallSome(d, d0, RecoverWrites(d, start), 0, start, lh, cache, k);
  }

  lemma RecoverAll(d: Disk, d0: Disk, start: nat, lh: seq<nat>, cache: map<nat, Block>)
    requires MustInstall(d, d0, start, lh, cache)
    ensures var r := Apply(d, RecoverWrites(d, start));
            Cleared(r, start) && SameHomes(r, start, Overlay(d0, cache))
  {
    RecoverPlan(d, start, lh, cache);
    assert Apply(d, RecoverWrites(d, start)[..0]) == d;
    InstallAll(d, d0, RecoverWrites(d, start), 0, start, lh, cache);
  }

  /** What an interrupted recovery of a durable transaction leaves: still durable, or complete. */
  ghost predicate PartlyRecovered(d: Disk, d0: Disk, start: nat, lh: seq<nat>, cache: map<nat, Block>) {
    || MustInstall(d, d0, start, lh, cache)
    || (Cleared(d, start) && SameHomes(d, start, Overlay(d0, cache)))
  }

  lemma {:induction false} InterruptedCommitted(d: Disk, d0: Disk, start: nat, lh: seq<nat>, cache: map<nat, Block>,
                                                stops: seq<nat>)
    requires MustInstall(d, d0, start, lh, cache)
    ensures PartlyRecovered(Interrupted(d, start, stops), d0, start, lh, cache)
    decreases |stops|
  {
    if stops != [] {
      var front, k := stops[..|stops| - 1], stops[|stops| - 1];
      var d1 := Interrupted(d, start, front);
      InterruptedCommitted(d, d0, start, lh, cache, front);
      if MustInstall(d1, d0, start, lh, cache) {
        if k < |RecoverWrites(d1, start)| {
          RecoverSome(d1, d0, start, lh, cache, k);
        } else {
          RecoverAll(d1, d0, start, lh, cache);
        }
      } else {
        RecoverEmpty(d1, start, Overlay(d0, cache));
      }
    }
  }

  /** Recovery of a durable transaction, however often interrupted, installs all of it. */
  lemma RecoverCommitted(d: Disk, d0: Disk, start: nat, lh: seq<nat>, cache: map<nat, Block>, stops: seq<nat>)
    requires MustInstall(d, d0, start, lh, cache)
    ensures var r := Recovered(d, start, stops); Cleared(r, start) && SameHomes(r, start, Overlay(d0, cache))
  {
    var d1 := Interrupted(d, start, stops);
    InterruptedCommitted(d, d0, start, lh, cache, stops);
    if MustInstall(d1, d0, start, lh, cache) {
      RecoverAll(d1, d0, start, lh, cache);
    } else {
      RecoverEmpty(d1, start, Overlay(d0, cache));
    }
  }

  // ---- a commit, stopped anywhere ----

  lemma {:induction false} LogPrefix(d0: Disk, ws: seq<Write>, start: nat, lh: seq<nat>, cache: map<nat, Block>, k: nat)
    requires LogList(lh, |d0|, start) && k <= |lh| <= |ws|
    requires forall i | 0 <= i < |lh| :: lh[i] in cache && ws[i] == Write(start + 1 + i, cache[lh[i]])
    ensures var d := Apply(d0, ws[..k]);
            Slots(d, start, lh, cache, k) && SameHomes(d, start, d0) && d[start] == d0[start]
    decreases k
  {
    if k > 0 {
      LogPrefix(d0, ws, start, lh, cache, k - 1);
      var d, j := Apply(d0, ws[..k - 1]), k - 1;
      assert Apply(d0, ws[..k]) == d[start + 1 + j := cache[lh[j]]] by { ApplyPrefix(d0, ws, j); }
      SlotStep(d, start, lh, cache, j);
      SlotNoHome(d, start, j, cache[lh[j]], d0);
    }
  }

  /**
   The writes of a commit, entry by entry: the log slots, the header, and then the home blocks and the header again.
   */
  ghost predicate CommitPlan(ws: seq<Write>, prev: Block, start: nat, lh: seq<nat>, cache: map<nat, Block>) {
    && |lh| < |ws| && |lh| <= LOGSIZE && (forall i | 0 <= i < |lh| :: lh[i] in cache)
    && (forall i | 0 <= i < |lh| :: ws[i] == Write(start + 1 + i, cache[lh[i]]))
    && ws[|lh|] == Write(start, HeadBlock(prev, lh))
    && InstallPlan(ws, |lh| + 1, start, lh, cache)
  }

  lemma CommitShape(prev: Block, start: nat, lh: seq<nat>, cache: map<nat, Block>)
    requires |lh| <= LOGSIZE && forall i | 0 <= i < |lh| :: lh[i] in cache
    ensures CommitPlan(CommitWrites(prev, start, lh, cache), prev, start, lh, cache)
  {
    var ws, n := CommitWrites(prev, start, lh, cache), |lh|;
    var a, b := LogWrites(start, lh, cache), InstallWrites(lh, cache);
    forall i | 0 <= i < n ensures ws[i] == Write(start + 1 + i, cache[lh[i]]) {
      assert ws[i] == a[i];
    }
    forall i | 0 <= i < n ensures ws[n + 1 + i] == Write(lh[i], cache[lh[i]]) {
      assert ws[n + 1 + i] == b[i];
    }
  }

  /** Before the first header write the log is still empty and no home block has changed. */
  lemma CommitBeforeHeader(d: Disk, start: nat, lh: seq<nat>, cache: map<nat, Block>, k: nat)
    requires LogList(lh, |d|, start) && Caches(cache, lh) && Cleared(d, start) && k <= |lh|
    ensures var dk := Apply(d, CommitWrites(d[start], start, lh, cache)[..k]);
            && Cleared(dk, start) && SameHomes(dk, start, d)
            && dk[start] == d[start] && Slots(dk, start, lh, cache, k)
  {
    CommitShape(d[start], start, lh, cache);
    LogPrefix(d, CommitWrites(d[start], start, lh, cache), start, lh, cache, k);
  }

  /** The first header write makes the whole transaction durable. */
  lemma PlanHeader(d: Disk, ws: seq<Write>, start: nat, lh: seq<nat>, cache: map<nat, Block>)
    requires LogList(lh, |d|, start) && Caches(cache, lh) && Cleared(d, start)
             && CommitPlan(ws, d[start], start, lh, cache)
    ensures MustInstall(Apply(d, ws[..|lh| + 1]), d, start, lh, cache)
  {
    LogPrefix(d, ws, start, lh, cache, |lh|);
    ApplyPrefix(d, ws, |lh|);
    HeaderRoundTrip(d[start], lh);
    HeaderStep(Apply(d, ws[..|lh|]), start, lh, cache, HeadBlock(d[start], lh));
  }

  lemma PlanDurable(d: Disk, ws: seq<Write>, start: nat, lh: seq<nat>, cache: map<nat, Block>, k: nat)
    requires LogList(lh, |d|, start) && Caches(cache, lh) && Cleared(d, start)
             && CommitPlan(ws, d[start], start, lh, cache)
    requires |lh| < k <= 2 * |lh| + 1 <= |ws|
    ensures MustInstall(Apply(d, ws[..k]), d, start, lh, cache)
  {
    PlanHeader(d, ws, start, lh, cache);
    InstallSome(d, d, ws, |lh| + 1, start, lh, cache, k - |lh| - 1);
  }

  lemma CommitHeader(d: Disk, start: nat, lh: seq<nat>, cache: map<nat, Block>)
    requires LogList(lh, |d|, start) && Caches(cache, lh) && Cleared(d, start)
    ensures var d' := Apply(d, CommitWrites(d[start], start, lh, cache)[..|lh| + 1]);
            MustInstall(d', d, start, lh, cache)
  {
    var ws := CommitWrites(d[start], start, lh, cache);
    assert CommitPlan(ws, d[start], start, lh, cache) by { CommitShape(d[start], start, lh, cache); }
    PlanHeader(d, ws, start, lh, cache);
  }

  /** After the header write, and up to the last write, the transaction stays durable. */
  lemma CommitDurable(d: Disk, start: nat, lh: seq<nat>, cache: map<nat, Block>, k: nat)
    requires LogList(lh, |d|, start) && Caches(cache, lh) && Cleared(d, start)
    requires |lh| < k <= 2 * |lh| + 1
    ensures MustInstall(Apply(d, CommitWrites(d[start], start, lh, cache)[..k]), d, start, lh, cache)
  {
    var ws := CommitWrites(d[start], start, lh, cache);
    assert CommitPlan(ws, d[start], start, lh, cache) by { CommitShape(d[start], start, lh, cache); }
    PlanDurable(d, ws, start, lh, cache, k);
  }

  lemma PlanComplete(d: Disk, ws: seq<Write>, start: nat, lh: seq<nat>, cache: map<nat, Block>)
    requires LogList(lh, |d|, start) && Caches(cache, lh) && Cleared(d, start)
             && CommitPlan(ws, d[start], start, lh, cache)
    ensures Cleared(Apply(d, ws), start) && SameHomes(Apply(d, ws), start, Overlay(d, cache))
  {
    PlanHeader(d, ws, start, lh, cache);
    InstallAll(d, d, ws, |lh| + 1, start, lh, cache);
  }

  /** The last write of a commit empties the log, with every home block in place. */
  lemma CommitComplete(d: Disk, start: nat, lh: seq<nat>, cache: map<nat, Block>)
    requires LogList(lh, |d|, start) && Caches(cache, lh) && Cleared(d, start)
    ensures var r := Apply(d, CommitWrites(d[start], start, lh, cache));
            Cleared(r, start) && SameHomes(r, start, Overlay(d, cache))
  {
    var ws := CommitWrites(d[start], start, lh, cache);
    assert CommitPlan(ws, d[start], start, lh, cache) by { CommitShape(d[start], start, lh, cache); }
    PlanComplete(d, ws, start, lh, cache);
  }

  /**
   Crash atomicity. Stop a commit after any `k` of its writes, then recover, stopping and restarting
   recovery any number of times: every home block ends up as before the transaction if the first
   header write had not landed, and every home block as after it if it had.
   */
  lemma CrashAtomic(d: Disk, start: nat, lh: seq<nat>, cache: map<nat, Block>, k: nat, stops: seq<nat>)
    requires LogList(lh, |d|, start) && Caches(cache, lh) && Cleared(d, start)
    requires k <= |CommitWrites(d[start], start, lh, cache)|
    ensures var r := Recovered(Apply(d, CommitWrites(d[start], start, lh, cache)[..k]), start, stops);
            && Cleared(r, start)
            && SameHomes(r, start, if k <= |lh| then d else Overlay(d, cache))
  {
    var dk := Apply(d, CommitWrites(d[start], start, lh, cache)[..k]);
    if k <= |lh| {
      CommitBeforeHeader(d, start, lh, cache, k);
      RecoverCleared(dk, start, d, stops);
    } else {
      if k <= 2 * |lh| + 1 {
        CommitDurable(d, start, lh, cache, k);
        RecoverCommitted(dk, d, start, lh, cache, stops);
      } else {
        assert CommitWrites(d[start], start, lh, cache)[..k] == CommitWrites(d[start], start, lh, cache);
        CommitComplete(d, start, lh, cache);
        RecoverCleared(dk, start, Overlay(d, cache), stops);
      }
    }
  }
}
