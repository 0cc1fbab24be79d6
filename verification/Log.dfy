/** `log.c` as code: the in-memory log, its commit and its recovery, proved against LogDisk's write lists. */
module Log {
  import opened LogDisk

  /** The block list after `log_write` of `b`: absorbed if already listed, appended otherwise. */
  function Absorb(lh: seq<nat>, b: nat): (r: seq<nat>)
    ensures forall x :: x in r <==> x in lh || x == b
  {
    if b in lh then lh else lh + [b]
  }

  /** `begin_op` lets an operation in: no commit is running, and a full budget still fits. */
  predicate Admits(n: nat, outstanding: int, committing: bool) {
    !committing && n + (outstanding + 1) * MAXOPBLOCKS <= LOGSIZE
  }

  /** `log_write` does not panic. The list length is tested before absorption is tried. */
  predicate WriteAllowed(n: nat, outstanding: int, size: nat) {
    n < LOGSIZE && n < size - 1 && outstanding >= 1
  }

  class Log {
    /** Block number of the header, and the number of blocks in the log. */
    const start: nat
    const size: nat

    var n: nat
    var block: seq<nat>
    var outstanding: int
    var committing: bool

    /** The disk, and the pinned (B_DIRTY) buffers of the buffer cache; clean buffers agree with the disk. */
    var disk: Disk
    var cache: map<nat, Block>

    /** The disk at boot, and every block write made since, in order. */
    ghost const boot: Disk
    ghost var writes: seq<Write>

    /** The disk is what the recorded writes have made of it. */
    ghost predicate Traced()
      reads this
    {
      disk == Apply(boot, writes)
    }

    /** The listed blocks are home blocks, and exactly they are pinned in the cache. */
    ghost predicate Valid()
      reads this
    {
      && Traced()
      && |block| == LOGSIZE
      && n <= LOGSIZE
      && LogList(block[..n], |disk|, start)
      && Caches(cache, block[..n])
    }

    /** A machine that has just booted from the disk `d`: nothing is cached. */
    constructor (d: Disk, start: nat, size: nat)
      ensures this.disk == d && this.start == start && this.size == size
      ensures n == 0 && outstanding == 0 && !committing && cache == map[] && writes == []
      ensures |block| == LOGSIZE && Traced()
    {
      this.disk, this.boot, this.start, this.size := d, d, start, size;
      n, block, outstanding, committing := 0, seq(LOGSIZE, _ => 0), 0, false;
      cache, writes := map[], [];
    }

    /** The contract of `bread`: the cached copy, or else the disk's. */
    function Bread(b: nat): Block
      requires b < |disk|
      reads this
    {
      if b in cache then cache[b] else disk[b]
    }

    /** The contract of `bwrite`: the block reaches the disk and its buffer is clean again. */
    method Bwrite(b: nat, data: Block)
      requires b < |disk| && Traced()
      modifies this`disk, this`cache, this`writes
      ensures Traced()
      ensures disk == old(disk)[b := data]
      ensures cache == old(cache) - {b}
      ensures writes == old(writes) + [Write(b, data)]
    {
      ApplyAppend(boot, writes, [Write(b, data)]);
      disk := disk[b := data];
      cache := cache - {b};
      writes := writes + [Write(b, data)];
    }

    /** The loop body of both copies: block `from` of the cache or disk goes to block `to` on the disk. */
    method Copy(from: nat, to: nat)
      requires from < |disk| && to < |disk| && Traced()
      modifies this`disk, this`cache, this`writes
      ensures Traced() && cache == old(cache) - {to}
      ensures to !in old(cache) ==> cache == old(cache)
      ensures disk == old(disk)[to := old(Bread(from))]
      ensures writes == old(writes) + [Write(to, old(Bread(from)))]
    {
      var data := Bread(from);
      Bwrite(to, data);
    }

    method WriteLog()
      requires Valid()
      modifies this`disk, this`cache, this`writes
      ensures Traced() && cache == old(cache)
      ensures writes == old(writes) + LogWrites(start, block[..n], cache)
      ensures Slots(disk, start, block[..n], cache, n) && |disk| == |old(disk)| && disk[start] == old(disk)[start]
    {
      ghost var lh, d0, c, w0 := block[..n], disk, cache, writes;
      ghost var ws := LogWrites(start, lh, c);
      var tail := 0;
      while tail < n
        invariant 0 <= tail <= n
        invariant cache == c && Traced()
        invariant Slots(disk, start, lh, c, tail) && |disk| == |d0| && disk[start] == d0[start]
        invariant writes == w0 + ws[..tail]
      {
        assert lh[tail] == block[tail];
        SlotStep(disk, start, lh, c, tail);
        TraceStep(w0, ws, tail);
        assert start + tail + 1 !in c by { LogNotCached(c, lh, |d0|, start); }
        Copy(block[tail], start + tail + 1);
        tail := tail + 1;
      }
      assert ws[..n] == ws;
    }

    method WriteHead()
      requires |block| == LOGSIZE && n <= LOGSIZE && start < |disk| && start !in cache && Traced()
      modifies this`disk, this`cache, this`writes
      ensures cache == old(cache) && Traced()
      ensures disk == old(disk)[start := HeadBlock(old(disk)[start], block[..n])]
      ensures writes == old(writes) + [Write(start, HeadBlock(old(disk)[start], block[..n]))]
    {
      var was := Bread(start);
      var hb: Block := was[0 := n];
      var i := 0;
      while i < n
        invariant 0 <= i <= n
        invariant hb[0] == n && (forall j | 1 <= j <= i :: hb[j] == block[j - 1])
        invariant forall j | i < j < BLOCK_WORDS :: hb[j] == was[j]
      {
        hb := hb[1 + i := block[i]];
        i := i + 1;
      }
      assert hb == HeadBlock(was, block[..n]);
      Bwrite(start, hb);
    }

    /** Also run at boot, when nothing is cached: what is copied is what the log slots hold on disk. */
    method InstallTrans()
      requires |block| == LOGSIZE && n <= LOGSIZE && LogList(block[..n], |disk|, start) && Traced()
      requires forall b | b in cache :: b in block[..n]
      modifies this`disk, this`cache, this`writes
      ensures cache == map[] && Traced() && |disk| == |old(disk)|
      ensures writes == old(writes) + CopyWrites(old(disk), start, block[..n])
      ensures forall b: nat | start <= b <= start + LOGSIZE :: disk[b] == old(disk)[b]
    {
      ghost var lh, d0, w0 := block[..n], disk, writes;
      CopyStart(disk, cache, start, lh);
      var tail := 0;
      while tail < n
        invariant 0 <= tail <= n && Traced() && Copying(disk, cache, d0, start, lh, tail)
        invariant writes == w0 + CopyWrites(d0, start, lh)[..tail]
      {
        InstallBlock(tail, lh, d0, w0);
        tail := tail + 1;
      }
      CopyEnd(disk, cache, d0, start, lh);
      assert CopyWrites(d0, start, lh)[..n] == CopyWrites(d0, start, lh);
    }

    /** One turn of that loop. */
    method InstallBlock(tail: nat, ghost lh: seq<nat>, ghost d0: Disk, ghost w0: seq<Write>)
      requires n <= LOGSIZE == |block| && lh == block[..n] && LogList(lh, |disk|, start) && Traced() && tail < n
      requires Copying(disk, cache, d0, start, lh, tail) && writes == w0 + CopyWrites(d0, start, lh)[..tail]
      modifies this`disk, this`cache, this`writes
      ensures Traced() && Copying(disk, cache, d0, start, lh, tail + 1)
      ensures writes == w0 + CopyWrites(d0, start, lh)[..tail + 1]
    {
      TraceStep(w0, CopyWrites(d0, start, lh), tail);
      CopyTurn(disk, cache, d0, start, lh, tail);
      Copy(start + tail + 1, block[tail]);
    }

    method ReadHead()
      requires start < |disk| && start !in cache && HeaderOk(disk[start]) && |block| == LOGSIZE
      modifies this`n, this`block
      ensures |block| == LOGSIZE && n <= LOGSIZE
      ensures block[..n] == Header(disk[start])
    {
      var buf := Bread(start);
      n := buf[0];
      var i := 0;
      while i < n
        invariant 0 <= i <= n
        invariant |block| == LOGSIZE && n == buf[0] && buf == disk[start]
        invariant forall j | 0 <= j < i :: block[j] == buf[1 + j]
      {
        block := block[i := buf[1 + i]];
        i := i + 1;
      }
    }

    method RecoverFromLog()
      requires cache == map[] && |block| == LOGSIZE && Traced()
      requires start < |disk| && HeaderOk(disk[start]) && LogList(Header(disk[start]), |disk|, start)
      modifies this`n, this`block, this`disk, this`cache, this`writes
      ensures Valid() && n == 0 && cache == map[]
      ensures writes == old(writes) + RecoverWrites(old(disk), start)
      ensures disk == Apply(old(disk), RecoverWrites(old(disk), start))
    {
      ghost var d0, w0 := disk, writes;
      ReadHead();
      InstallTrans();
      n := 0;
      WriteHead();
      assert block[..n] == [];
      RecoverTrace(boot, w0, d0, start);
    }

    /** The first half of `commit`: write the log, then the header, which is the commit point. */
    method WriteTransaction()
      requires Valid()
      modifies this`disk, this`cache, this`writes
      ensures Traced() && cache == old(cache) && |disk| == |old(disk)|
      ensures disk[start] == HeadBlock(old(disk)[start], block[..n])
      ensures Slots(disk, start, block[..n], cache, n)
      ensures writes == (old(writes) + LogWrites(start, block[..n], cache))
                        + [Write(start, HeadBlock(old(disk)[start], block[..n]))]
    {
      WriteLog();
      HeaderStep(disk, start, block[..n], cache, HeadBlock(disk[start], block[..n]));
      WriteHead();
    }

    /** The second half of `commit`: install the transaction, then erase it from the log. */
    method InstallTransaction()
      requires Valid()
      requires Slots(disk, start, block[..n], cache, n)
      modifies this`n, this`disk, this`cache, this`writes
      ensures Valid() && n == 0 && cache == map[]
      ensures writes == (old(writes) + InstallWrites(old(block[..n]), old(cache)))
                        + [Write(start, HeadBlock(old(disk)[start], []))]
    {
      CopiesAreInstalls(disk, start, block[..n], cache);
      InstallTrans();
      n := 0;
      assert block[..n] == [];
      WriteHead();
    }

    /** Commits the listed blocks; the disk has then seen exactly `CommitWrites`, in order. */
    method Commit()
      requires Valid()
      modifies this`n, this`disk, this`cache, this`writes
      ensures Valid() && n == 0 && cache == map[]
      ensures old(n) == 0 ==> disk == old(disk) && writes == old(writes)
      ensures old(n) > 0 ==>
                var ws := CommitWrites(old(disk)[start], start, old(block[..n]), old(cache));
                disk == Apply(old(disk), ws) && writes == old(writes) + ws
    {
      if n > 0 {
        ghost var d0, lh, c, w0 := disk, block[..n], cache, writes;
        WriteTransaction();
        InstallTransaction();
        CommitTrace(w0, d0[start], start, lh, c);
        ApplyAppend(boot, w0, CommitWrites(d0[start], start, lh, c));
      }
    }

    /** `ok` is false exactly where the source panics. */
    method LogWrite(b: nat, data: Block) returns (ok: bool)
      requires Valid() && Home(b, |disk|, start)
      modifies this`n, this`block, this`cache
      ensures Valid()
      ensures ok <==> WriteAllowed(old(n), outstanding, size)
      ensures ok ==> block[..n] == Absorb(old(block[..n]), b) && cache == old(cache)[b := data]
      ensures !ok ==> n == old(n) && block == old(block) && cache == old(cache)
    {
      if n >= LOGSIZE || n >= size - 1 {
        return false;
      }
      if outstanding < 1 {
        return false;
      }
      ghost var lh := block[..n];
      var i := 0;
      while i < n && block[i] != b
        invariant 0 <= i <= n
        invariant b !in block[..i]
      {
        i := i + 1;
      }
      assert i < n ==> lh[i] == b;
      block := block[i := b];
      if i == n {
        n := n + 1;
      }
      cache := cache[b := data];
      assert block[..n] == Absorb(lh, b);
      return true;
    }

    /** One pass of the loop in `begin_op`; when not admitted the caller sleeps and tries again. */
    method BeginOp() returns (admitted: bool)
      modifies this`outstanding
      ensures admitted <==> Admits(n, old(outstanding), committing)
      ensures outstanding == old(outstanding) + if admitted then 1 else 0
    {
      if committing {
        admitted := false;
      } else if n + (outstanding + 1) * MAXOPBLOCKS > LOGSIZE {
        admitted := false;
      } else {
        outstanding := outstanding + 1;
        admitted := true;
      }
    }

    /** `end_op`; `ok` is false exactly where the source panics. */
    method EndOp() returns (ok: bool)
      requires Valid()
      modifies this
      ensures ok <==> !old(committing)
      ensures ok ==> Valid() && !committing && outstanding == old(outstanding) - 1
      ensures ok && outstanding != 0 ==> n == old(n) && block == old(block) && disk == old(disk) && cache == old(cache)
      ensures ok && outstanding == 0 ==>
                && n == 0 && cache == map[]
                && (old(n) == 0 ==> disk == old(disk))
                && (old(n) > 0 ==>
                      disk == Apply(old(disk), CommitWrites(old(disk)[start], start, old(block[..n]), old(cache))))
    {
      outstanding := outstanding - 1;
      if committing {
        return false;
      }
      if outstanding == 0 {
        committing := true;
        Commit();
        committing := false;
      }
      return true;
    }
  }

  lemma LogNotCached(cache: map<nat, Block>, lh: seq<nat>, size: nat, start: nat)
    requires LogList(lh, size, start) && Caches(cache, lh)
    ensures forall b: nat | start <= b <= start + LOGSIZE :: b !in cache
  {
  }

  /**
   `install_trans` has copied the first `tail` blocks: the log is as it was, and only blocks yet to come are cached.
   */
  ghost predicate Copying(d: Disk, cache: map<nat, Block>, d0: Disk, start: nat, lh: seq<nat>, tail: nat) {
    && |d| == |d0| && tail <= |lh|
    && (forall b: nat | start <= b <= start + LOGSIZE && b < |d| :: d[b] == d0[b] && b !in cache)
    && (forall b | b in cache :: b in lh)
    && (forall i | 0 <= i < tail :: lh[i] !in cache)
  }

  lemma CopyStart(d: Disk, cache: map<nat, Block>, start: nat, lh: seq<nat>)
    requires LogList(lh, |d|, start) && forall b | b in cache :: b in lh
    ensures Copying(d, cache, d, start, lh, 0)
  {
  }

  lemma CopyEnd(d: Disk, cache: map<nat, Block>, d0: Disk, start: nat, lh: seq<nat>)
    requires Copying(d, cache, d0, start, lh, |lh|)
    ensures cache == map[]
  {
  }

  lemma CopyTurn(d: Disk, cache: map<nat, Block>, d0: Disk, start: nat, lh: seq<nat>, tail: nat)
    requires LogList(lh, |d|, start) && tail < |lh| && Copying(d, cache, d0, start, lh, tail)
    ensures start + tail + 1 < |d| && start + tail + 1 !in cache && d[start + tail + 1] == d0[start + tail + 1]
    ensures lh[tail] < |d| && Copying(d[lh[tail] := d0[start + tail + 1]], cache - {lh[tail]}, d0, start, lh, tail + 1)
  {
    assert Home(lh[tail], |d|, start);
  }

  lemma TraceStep(w0: seq<Write>, ws: seq<Write>, k: nat)
    requires k < |ws|
    ensures (w0 + ws[..k]) + [ws[k]] == w0 + ws[..k + 1]
  {
  }

  lemma RecoverTrace(boot: Disk, w0: seq<Write>, d: Disk, start: nat)
    requires start + LOGSIZE < |d| && HeaderOk(d[start]) && d == Apply(boot, w0)
    ensures var writes := (w0 + CopyWrites(d, start, Header(d[start]))) + [Write(start, HeadBlock(d[start], []))];
            writes == w0 + RecoverWrites(d, start) && Apply(boot, writes) == Apply(d, RecoverWrites(d, start))
  {
    assert (w0 + CopyWrites(d, start, Header(d[start]))) + [Write(start, HeadBlock(d[start], []))]
        == w0 + RecoverWrites(d, start);
    ApplyAppend(boot, w0, RecoverWrites(d, start));
  }

  lemma CommitTrace(w0: seq<Write>, prev: Block, start: nat, lh: seq<nat>, cache: map<nat, Block>)
    requires |lh| <= LOGSIZE && forall i | 0 <= i < |lh| :: lh[i] in cache
    ensures var head := HeadBlock(prev, lh);
            (((w0 + LogWrites(start, lh, cache)) + [Write(start, head)])
             + InstallWrites(lh, cache)) + [Write(start, HeadBlock(head, []))]
            == w0 + CommitWrites(prev, start, lh, cache)
  {
  }

  /** With the log slots written, what install_trans copies is what the cache holds. */
  lemma CopiesAreInstalls(d: Disk, start: nat, lh: seq<nat>, cache: map<nat, Block>)
    requires Slots(d, start, lh, cache, |lh|)
    ensures CopyWrites(d, start, lh) == InstallWrites(lh, cache)
  {
    var a, b := CopyWrites(d, start, lh), InstallWrites(lh, cache);
    forall i | 0 <= i < |lh| ensures a[i] == b[i] {}
  }
}
