/** `fs.c` as code: block allocation, block mapping, truncation, and reading and writing of files. */
module Fs {
  import opened FsBytes
  import opened FsState

  datatype Option<+T> = None | Some(value: T)

  function Max(a: int, b: int): int {
    if a < b then b else a
  }

  function Min(a: int, b: int): int {
    if a < b then a else b
  }

  ghost predicate UsedAt(sb: Super, blocks: seq<Block>, c: nat) {
    BBlock(sb, c) < |blocks| && Used(sb, blocks, c)
  }

  /** The first `n` blocks are all marked used. */
  ghost predicate AllUsed(sb: Super, blocks: seq<Block>, n: nat) {
    forall c: nat | c < n :: UsedAt(sb, blocks, c)
  }

  // ---- what mapping more blocks of inode `i` may do ----

  ghost predicate SlotKept(blocks: seq<Block>, inodes: seq<Inode>, blocks': seq<Block>, inodes': seq<Inode>, j: int,
                           l: int)
  {
    && 0 <= j < |inodes| && j < |inodes'| && 0 <= l <= INDIRECT
    && |inodes[j].addrs| == NDIRECT + 1 && |inodes'[j].addrs| == NDIRECT + 1
    && (Addr(blocks, inodes[j], l) != 0 ==> Addr(blocks', inodes'[j], l) == Addr(blocks, inodes[j], l))
  }

  /** Inode `i` may have got more blocks; no slot lost its block and no byte of any file changed. */
  ghost predicate Extends(blocks: seq<Block>, inodes: seq<Inode>, blocks': seq<Block>, inodes': seq<Inode>, i: nat) {
    && |inodes'| == |inodes| && i < |inodes|
    && (forall j | 0 <= j < |inodes| && j != i :: inodes'[j] == inodes[j])
    && inodes'[i].size == inodes[i].size
    && SameBytes(blocks, inodes, blocks', inodes')
    && (forall j, l | 0 <= j < |inodes| && 0 <= l <= INDIRECT :: SlotKept(blocks, inodes, blocks', inodes', j, l))
  }

  lemma ExtendsNothing(sb: Super, blocks: seq<Block>, inodes: seq<Inode>, i: nat)
    requires Shape(sb, blocks, inodes) && i < |inodes|
    ensures Extends(blocks, inodes, blocks, inodes, i)
  {
  }

  lemma ExtendsTrans(b0: seq<Block>, i0: seq<Inode>, b1: seq<Block>, i1: seq<Inode>, b2: seq<Block>, i2: seq<Inode>,
                     i: nat)
    requires Extends(b0, i0, b1, i1, i) && Extends(b1, i1, b2, i2, i)
    ensures Extends(b0, i0, b2, i2, i)
  {
    forall j, x | 0 <= j < |i0| && 0 <= x < MAXFILE * BSIZE ensures SameByte(b0, i0, b2, i2, j, x) {
      assert SameByte(b0, i0, b1, i1, j, x) && SameByte(b1, i1, b2, i2, j, x);
    }
    forall j, l | 0 <= j < |i0| && 0 <= l <= INDIRECT ensures SlotKept(b0, i0, b2, i2, j, l) {
      assert SlotKept(b0, i0, b1, i1, j, l) && SlotKept(b1, i1, b2, i2, j, l);
    }
  }

  lemma DirectExtends(sb: Super, blocks: seq<Block>, inodes: seq<Inode>, owner: map<nat, Slot>, i: nat, d: nat, b: nat)
    requires Inv(sb, blocks, inodes, owner) && i < |inodes| && d < NDIRECT && inodes[i].addrs[d] == 0
    requires sb.nmeta <= b < sb.size && b !in owner
    ensures BBlock(sb, b) < |blocks|
    ensures Extends(blocks, inodes, Allocated(sb, blocks, b), SetAddr(inodes, i, d, b), i)
  {
    GiveDirectBytes(sb, blocks, inodes, owner, i, d, b);
    forall j, l | 0 <= j < |inodes| && 0 <= l <= INDIRECT
      ensures SlotKept(blocks, inodes, Allocated(sb, blocks, b), SetAddr(inodes, i, d, b), j, l)
    {
      AllocatedAddr(sb, blocks, inodes, owner, b, j, l);
    }
  }

  lemma IndirectExtends(sb: Super, blocks: seq<Block>, inodes: seq<Inode>, owner: map<nat, Slot>, i: nat, b: nat)
    requires Inv(sb, blocks, inodes, owner) && i < |inodes| && inodes[i].addrs[NDIRECT] == 0
    requires sb.nmeta <= b < sb.size && b !in owner
    ensures BBlock(sb, b) < |blocks|
    ensures Extends(blocks, inodes, Allocated(sb, blocks, b), SetAddr(inodes, i, NDIRECT, b), i)
  {
    GiveIndirectBytes(sb, blocks, inodes, owner, i, b);
    forall j, l | 0 <= j < |inodes| && 0 <= l <= INDIRECT
      ensures SlotKept(blocks, inodes, Allocated(sb, blocks, b), SetAddr(inodes, i, NDIRECT, b), j, l)
    {
      AllocatedAddr(sb, blocks, inodes, owner, b, j, l);
    }
  }

  lemma EntryExtends(sb: Super, blocks: seq<Block>, inodes: seq<Inode>, owner: map<nat, Slot>, i: nat, k: nat, b: nat)
    requires Inv(sb, blocks, inodes, owner) && i < |inodes| && NDIRECT <= k < INDIRECT
    requires inodes[i].addrs[NDIRECT] != 0 && Addr(blocks, inodes[i], k) == 0
    requires sb.nmeta <= b < sb.size && b !in owner
    ensures BBlock(sb, b) < |blocks| && inodes[i].addrs[NDIRECT] < |blocks|
    ensures var blocks' := Entered(sb, blocks, inodes[i].addrs[NDIRECT], k - NDIRECT, b);
            Extends(blocks, inodes, blocks', inodes, i) && Addr(blocks', inodes[i], k) == b
  {
    GiveEntryBytes(sb, blocks, inodes, owner, i, k, b);
    var blocks' := Entered(sb, blocks, inodes[i].addrs[NDIRECT], k - NDIRECT, b);
    forall j, l | 0 <= j < |inodes| && 0 <= l <= INDIRECT ensures SlotKept(blocks, inodes, blocks', inodes, j, l) {
      EnteredAddr(sb, blocks, inodes, owner, i, k, b, j, l);
    }
    EnteredAddr(sb, blocks, inodes, owner, i, k, b, i, k);
  }

  // ---- the log of one operation ----

  lemma UnionSize(a: set<nat>, b: set<nat>)
    ensures |a + b| <= |a| + |b|
  {
    assert |a + b| + |a * b| == |a| + |b|;
  }

  /** Blocks that an operation has passed to log_write, by kind. */
  datatype OpLog = OpLog(data: set<nat>, bits: set<nat>, indirect: set<nat>, inode: set<nat>) {
    ghost function All(): set<nat> {
      data + bits + indirect + inode
    }

    ghost function Bound(): nat {
      |data| + |bits| + |indirect| + |inode|
    }
  }

  lemma LogBound(l: OpLog)
    ensures |l.All()| <= l.Bound()
  {
    UnionSize(l.data, l.bits);
    UnionSize(l.data + l.bits, l.indirect);
    UnionSize(l.data + l.bits + l.indirect, l.inode);
  }

  class FileSystem {
    const sb: Super

    /** Block contents as the buffer cache shows them, but for the inode blocks, which have their own sequence. */
    var blocks: seq<Block>
    var iblocks: seq<Block>
    /** The inodes in memory. */
    var inodes: seq<Inode>

    /** Which slot owns which block. */
    ghost var owner: map<nat, Slot>
    /** What the running operation has logged, and the most distinct blocks it had logged before any one call. */
    ghost var log: OpLog
    ghost var peak: nat

    ghost predicate Valid()
      reads this
    {
      Inv(sb, blocks, inodes, owner)
    }

    /** The state between operations: moreover no file has holes. */
    ghost predicate Sound()
      reads this
    {
      Valid() && Whole(blocks, inodes)
    }

    /** The inode on disk is the one in memory. */
    ghost predicate OnDisk(i: nat)
      reads this
    {
      i < |inodes| && i / IPB < |iblocks| && Dinode(iblocks, i) == inodes[i]
    }

    /** A fresh file system: empty inodes, and only the metadata marked used. */
    constructor (sb: Super, blocks: seq<Block>, iblocks: seq<Block>, inodes: seq<Inode>)
      requires Shape(sb, blocks, inodes)
      requires forall i | 0 <= i < |inodes| :: inodes[i] == Inode(0, seq(NDIRECT + 1, _ => 0))
      requires forall b: nat | b < sb.size :: BBlock(sb, b) < |blocks| && (Used(sb, blocks, b) <==> b < sb.nmeta)
      requires forall i: nat | i < |inodes| :: i / IPB < |iblocks| && Dinode(iblocks, i) == inodes[i]
      ensures Sound() && this.blocks == blocks && this.iblocks == iblocks && this.inodes == inodes
      ensures forall i: nat | i < |inodes| :: OnDisk(i)
    {
      this.sb, this.blocks, this.iblocks, this.inodes := sb, blocks, iblocks, inodes;
      owner, log, peak := map[], OpLog({}, {}, {}, {}), 0;
      FreshInv(sb, blocks, inodes);
      FreshWhole(blocks, inodes);
    }

    /** `log_write`, of which only the bookkeeping matters here. */
    ghost method LogWrite(l: OpLog)
      requires log.data <= l.data && log.bits <= l.bits && log.indirect <= l.indirect && log.inode <= l.inode
      modifies this`log, this`peak
      ensures log == l && old(peak) <= peak <= Max(old(peak), old(log).Bound())
      ensures |old(log).All()| <= peak
    {
      LogBound(log);
      peak := Max(peak, |log.All()|);
      log := l;
    }

    /** Finds the first block whose bit is clear, marks it and zeroes it; `ok` is false where the source panics. */
    method Balloc(ghost indirect: bool) returns (ok: bool, b: nat)
      requires sb.Ok() && |blocks| == sb.size
      modifies this`blocks, this`log, this`peak
      ensures ok ==> b < sb.size && AllUsed(sb, old(blocks), b)
      ensures ok ==> BBlock(sb, b) < |old(blocks)| && !Used(sb, old(blocks), b)
                     && blocks == Allocated(sb, old(blocks), b)
      ensures ok ==> log.bits == old(log).bits + {BBlock(sb, b)} && log.inode == old(log).inode
                     && log.data == old(log).data + (if indirect then {} else {b})
                     && log.indirect == old(log).indirect + (if indirect then {b} else {})
      ensures ok ==> old(peak) <= peak <= Max(old(peak), log.Bound())
      ensures !ok ==> AllUsed(sb, old(blocks), sb.size) && blocks == old(blocks) && log == old(log)
    {
      b := 0;
      while b < sb.size
        invariant b % BPB == 0 && blocks == old(blocks) && log == old(log) && peak == old(peak)
        invariant AllUsed(sb, blocks, if b < sb.size then b else sb.size)
      {
        var found, bi := ScanMap(b);
        if found {
          MarkAndZero(b + bi, indirect);
          return true, b + bi;
        }
        b := b + BPB;
      }
      return false, 0;
    }

    /** The inner loop of `balloc`: the first clear bit of the map block that starts with block `b`. */
    method ScanMap(b: nat) returns (found: bool, bi: nat)
      requires sb.Ok() && |blocks| == sb.size && b % BPB == 0 && b < sb.size && AllUsed(sb, blocks, b)
      ensures found ==> bi < BPB && b + bi < sb.size && BBlock(sb, b + bi) < |blocks| && !Used(sb, blocks, b + bi)
      ensures found ==> AllUsed(sb, blocks, b + bi)
      ensures !found ==> AllUsed(sb, blocks, Min(b + BPB, sb.size))
    {
      BBlockMeta(sb, b);
      bi := 0;
      while bi < BPB && b + bi < sb.size
        invariant 0 <= bi <= BPB && b + bi <= sb.size && BBlock(sb, b) < |blocks|
        invariant AllUsed(sb, blocks, b + bi)
      {
        SameMapBlock(sb, b, bi);
        if !Bit(blocks[BBlock(sb, b)][bi / 8], bi % 8) {
          return true, bi;
        }
        assert UsedAt(sb, blocks, b + bi);
        bi := bi + 1;
      }
      return false, 0;
    }

    /** The end of `balloc`: mark the block in use, and zero it. */
    method MarkAndZero(b: nat, ghost indirect: bool)
      requires sb.Ok() && |blocks| == sb.size && b < sb.size && BBlock(sb, b) < |blocks|
      modifies this`blocks, this`log, this`peak
      ensures blocks == Allocated(sb, old(blocks), b)
      ensures log.bits == old(log).bits + {BBlock(sb, b)} && log.inode == old(log).inode
              && log.data == old(log).data + (if indirect then {} else {b})
              && log.indirect == old(log).indirect + (if indirect then {b} else {})
      ensures old(peak) <= peak <= Max(old(peak), log.Bound())
    {
      var bb := BBlock(sb, b);
      blocks := blocks[bb := SetBlockBit(blocks[bb], b % BPB)];
      LogWrite(log.(bits := log.bits + {bb}));
      ghost var mid := log;
      blocks := blocks[b := ZeroBlock()];
      LogWrite(if indirect then log.(indirect := log.indirect + {b}) else log.(data := log.data + {b}));
      BoundGrows(old(log), mid);
      BoundGrows(mid, log);
    }

    /** Clears the block's bit; `ok` is false where the source panics: the block was free already. */
    method Bfree(b: nat) returns (ok: bool)
      requires sb.Ok() && |blocks| == sb.size && b < sb.size && BBlock(sb, b) < |blocks|
      modifies this`blocks, this`log, this`peak
      ensures ok <==> Used(sb, old(blocks), b)
      ensures ok ==> blocks == Unmarked(sb, old(blocks), b) && log == old(log).(bits := old(log).bits + {BBlock(sb, b)})
      ensures !ok ==> blocks == old(blocks) && log == old(log)
    {
      var bb := BBlock(sb, b);
      var bi := b % BPB;
      if !Bit(blocks[bb][bi / 8], bi % 8) {
        return false;
      }
      blocks := blocks[bb := ClearBlockBit(blocks[bb], bi)];
      LogWrite(log.(bits := log.bits + {bb}));
      return true;
    }

    // ---- bmap ----

    /** What `bmap` of file block `bn` may log: the block, its indirect block, and a map block per allocation. */
    ghost predicate MapLogged(l: OpLog, l': OpLog, addr: nat, ind: nat, allocs: nat) {
      && l.data <= l'.data <= l.data + {addr}
      && l.indirect <= l'.indirect <= l.indirect + {ind}
      && l.bits <= l'.bits && |l'.bits| <= |l.bits| + allocs
      && l'.inode == l.inode
    }

    method BmapDirect(i: nat, d: nat) returns (ok: bool, addr: nat)
      requires Valid() && i < |inodes| && d < NDIRECT
      modifies this`blocks, this`inodes, this`owner, this`log, this`peak
      ensures !ok ==> AllUsed(sb, blocks, sb.size)
      ensures ok ==> Valid() && addr != 0 && Extends(old(blocks), old(inodes), blocks, inodes, i)
      ensures ok ==> addr == inodes[i].addrs[d] && inodes[i].addrs[NDIRECT] == old(inodes)[i].addrs[NDIRECT]
      ensures old(inodes)[i].addrs[d] != 0 ==>
                ok && blocks == old(blocks) && inodes == old(inodes) && owner == old(owner) && log == old(log)
                  && peak == old(peak)
      ensures ok ==> MapLogged(old(log), log, addr, addr, if old(inodes)[i].addrs[d] == 0 then 1 else 0)
                     && log.indirect == old(log).indirect
      ensures ok ==> old(peak) <= peak <= Max(old(peak), log.Bound())
    {
      addr := inodes[i].addrs[d];
      ok := true;
      if addr == 0 {
        ghost var blocks0 := blocks;
        ok, addr := Balloc(false);
        if !ok {
          return;
        }
        FreeBlock(sb, blocks0, inodes, owner, addr);
        GiveDirect(sb, blocks0, inodes, owner, i, d, addr);
        DirectExtends(sb, blocks0, inodes, owner, i, d, addr);
        inodes := SetAddr(inodes, i, d, addr);
        owner := owner[addr := Slot(i, d)];
      } else {
        ExtendsNothing(sb, blocks, inodes, i);
      }
    }

    /** The first half of the indirect case of `bmap`: the inode's indirect block, allocated if necessary. */
    method LoadIndirect(i: nat) returns (ok: bool, ind: nat)
      requires Valid() && i < |inodes|
      modifies this`blocks, this`inodes, this`owner, this`log, this`peak
      ensures !ok ==> AllUsed(sb, blocks, sb.size)
      ensures ok ==> Valid() && ind != 0 && Extends(old(blocks), old(inodes), blocks, inodes, i)
      ensures ok ==> ind == inodes[i].addrs[NDIRECT]
      ensures old(inodes)[i].addrs[NDIRECT] != 0 ==>
                ok && blocks == old(blocks) && inodes == old(inodes) && owner == old(owner) && log == old(log)
                  && peak == old(peak)
      ensures ok ==> MapLogged(old(log), log, ind, ind, if old(inodes)[i].addrs[NDIRECT] == 0 then 1 else 0)
                     && log.data == old(log).data
      ensures ok ==> old(peak) <= peak <= Max(old(peak), log.Bound())
    {
      ind := inodes[i].addrs[NDIRECT];
      ok := true;
      if ind == 0 {
        ghost var blocks0 := blocks;
        ok, ind := Balloc(true);
        if !ok {
          return;
        }
        FreeBlock(sb, blocks0, inodes, owner, ind);
        GiveIndirect(sb, blocks0, inodes, owner, i, ind);
        IndirectExtends(sb, blocks0, inodes, owner, i, ind);
        inodes := SetAddr(inodes, i, NDIRECT, ind);
        owner := owner[ind := Slot(i, INDIRECT)];
      } else {
        ExtendsNothing(sb, blocks, inodes, i);
      }
    }

    /** The second half: the entry of the indirect block, allocated if necessary. */
    method LoadEntry(i: nat, k: nat) returns (ok: bool, addr: nat)
      requires Valid() && i < |inodes| && NDIRECT <= k < INDIRECT && inodes[i].addrs[NDIRECT] != 0
      modifies this`blocks, this`owner, this`log, this`peak
      ensures !ok ==> AllUsed(sb, blocks, sb.size)
      ensures ok ==> Valid() && addr != 0 && Extends(old(blocks), inodes, blocks, inodes, i)
      ensures ok ==> addr == Addr(blocks, inodes[i], k)
      ensures Addr(old(blocks), inodes[i], k) != 0 ==>
                ok && blocks == old(blocks) && owner == old(owner) && log == old(log) && peak == old(peak)
      ensures ok ==> MapLogged(old(log), log, addr, inodes[i].addrs[NDIRECT],
                               if Addr(old(blocks), inodes[i], k) == 0 then 1 else 0)
      ensures ok ==> old(peak) <= peak <= Max(old(peak), log.Bound())
    {
      var ind := inodes[i].addrs[NDIRECT];
      Ownership(sb, blocks, inodes, owner, i, INDIRECT, i, INDIRECT);
      addr := WordAt(blocks[ind], k - NDIRECT);
      ok := true;
      if addr == 0 {
        ok, addr := NewEntry(i, k);
      } else {
        ExtendsNothing(sb, blocks, inodes, i);
      }
    }

    method NewEntry(i: nat, k: nat) returns (ok: bool, addr: nat)
      requires Valid() && i < |inodes| && NDIRECT <= k < INDIRECT && inodes[i].addrs[NDIRECT] != 0
      requires Addr(blocks, inodes[i], k) == 0
      modifies this`blocks, this`owner, this`log, this`peak
      ensures !ok ==> AllUsed(sb, blocks, sb.size)
      ensures ok ==> Valid() && addr != 0 && Extends(old(blocks), inodes, blocks, inodes, i)
      ensures ok ==> addr == Addr(blocks, inodes[i], k)
      ensures ok ==> MapLogged(old(log), log, addr, inodes[i].addrs[NDIRECT], 1)
      ensures ok ==> old(peak) <= peak <= Max(old(peak), log.Bound())
    {
      var ind := inodes[i].addrs[NDIRECT];
      Ownership(sb, blocks, inodes, owner, i, INDIRECT, i, INDIRECT);
      ghost var blocks0 := blocks;
      ok, addr := Balloc(false);
      if !ok {
        return;
      }
      FreeBlock(sb, blocks0, inodes, owner, addr);
      GiveEntry(sb, blocks0, inodes, owner, i, k, addr);
      EntryExtends(sb, blocks0, inodes, owner, i, k, addr);
      blocks := blocks[ind := PutWord(blocks[ind], k - NDIRECT, addr)];
      ghost var mid := log;
      LogWrite(log.(indirect := log.indirect + {ind}));
      BoundGrows(mid, log);
      owner := owner[addr := Slot(i, k)];
    }

    /** The block of file block `bn`, allocated if there is none; `ok` is false where the source panics. */
    method Bmap(i: nat, bn: nat) returns (ok: bool, addr: nat)
      requires Valid() && i < |inodes|
      modifies this`blocks, this`inodes, this`owner, this`log, this`peak
      ensures !ok ==> bn >= MAXFILE || AllUsed(sb, blocks, sb.size)
      ensures ok ==> Valid() && bn < MAXFILE && addr != 0 && Extends(old(blocks), old(inodes), blocks, inodes, i)
      ensures ok ==> addr == Addr(blocks, inodes[i], bn)
      ensures bn < MAXFILE && Addr(old(blocks), old(inodes)[i], bn) != 0 ==>
                ok && blocks == old(blocks) && inodes == old(inodes) && owner == old(owner) && log == old(log)
                  && peak == old(peak)
      ensures ok ==> MapLogged(old(log), log, addr, inodes[i].addrs[NDIRECT],
                               (if Addr(old(blocks), old(inodes)[i], bn) == 0 then 1 else 0)
                               + (if old(inodes)[i].addrs[NDIRECT] != inodes[i].addrs[NDIRECT] then 1 else 0))
      ensures ok && inodes[i].addrs[NDIRECT] == 0 ==> log.indirect == old(log).indirect
      ensures ok ==> old(peak) <= peak <= Max(old(peak), log.Bound())
    {
      if bn < NDIRECT {
        ok, addr := BmapDirect(i, bn);
        return;
      }
      if bn - NDIRECT < NINDIRECT {
        var ind: nat;
        ghost var b0, i0 := blocks, inodes;
        ok, ind := LoadIndirect(i);
        if !ok {
          return false, 0;
        }
        ghost var b1, i1, l1 := blocks, inodes, log;
        assert SlotKept(b0, i0, b1, i1, i, bn);
        ok, addr := LoadEntry(i, bn);
        if ok {
          ExtendsTrans(b0, i0, b1, i1, blocks, inodes, i);
          BoundGrows(l1, log);
        }
        return;
      }
      return false, 0;
    }

    // ---- iupdate and itrunc ----

    /** Copies the in-memory inode to its place in its inode block, which holds seven others. */
    method Iupdate(i: nat)
      requires i < |inodes| && i / IPB < |iblocks| && Storable(inodes[i])
      modifies this`iblocks, this`log, this`peak
      ensures Updated(old(iblocks), iblocks, i, inodes[i])
      ensures log == old(log).(inode := old(log).inode + {IBlock(sb, i)})
      ensures old(peak) <= peak <= Max(old(peak), old(log).Bound())
    {
      PutUpdates(iblocks, i, inodes[i]);
      iblocks := iblocks[i / IPB := PutDinode(iblocks[i / IPB], i % IPB, inodes[i])];
      LogWrite(log.(inode := log.inode + {IBlock(sb, i)}));
    }

    /** The first loop of `itrunc`: frees and forgets the direct blocks. */
    method TruncDirect(i: nat) returns (ok: bool)
      requires Valid() && i < |inodes|
      modifies this`blocks, this`inodes, this`owner, this`log, this`peak
      ensures ok && Valid() && SameData(sb, old(blocks), blocks)
      ensures |inodes| == |old(inodes)| && inodes == old(inodes)[i := inodes[i]]
      ensures inodes[i].size == old(inodes)[i].size && inodes[i].addrs[NDIRECT] == old(inodes)[i].addrs[NDIRECT]
      ensures forall e | 0 <= e < NDIRECT :: inodes[i].addrs[e] == 0
      ensures Without(old(owner), owner, i, 0, NDIRECT)
    {
      var d := 0;
      while d < NDIRECT
        invariant 0 <= d <= NDIRECT && Valid() && SameData(sb, old(blocks), blocks)
        invariant |inodes| == |old(inodes)| && inodes == old(inodes)[i := inodes[i]]
        invariant inodes[i].size == old(inodes)[i].size && inodes[i].addrs[NDIRECT] == old(inodes)[i].addrs[NDIRECT]
        invariant forall e | 0 <= e < d :: inodes[i].addrs[e] == 0
        invariant Without(old(owner), owner, i, 0, d)
      {
        var a := inodes[i].addrs[d];
        FreeDirect(sb, blocks, inodes, owner, i, d);
        if a != 0 {
          ok := Bfree(a);
          if !ok {
            return;
          }
          inodes := SetAddr(inodes, i, d, 0);
          owner := owner - {a};
        }
        d := d + 1;
      }
      return true;
    }

    /** The second loop of `itrunc`: frees every block that the indirect block lists. */
    method TruncEntries(i: nat) returns (ok: bool)
      requires Valid() && i < |inodes| && inodes[i].addrs[NDIRECT] != 0
      modifies this`blocks, this`log, this`peak
      ensures ok && SameData(sb, old(blocks), blocks)
      ensures SlotsInv(sb, blocks, inodes, owner) && BitsInv(sb, blocks, OwnersAfter(owner, i, NINDIRECT))
    {
      var ind := inodes[i].addrs[NDIRECT];
      Ownership(sb, blocks, inodes, owner, i, INDIRECT, i, INDIRECT);
      var bp := blocks[ind];
      var j := 0;
      assert OwnersAfter(owner, i, 0) == owner;
      while j < NINDIRECT
        invariant 0 <= j <= NINDIRECT && SameData(sb, old(blocks), blocks)
        invariant SlotsInv(sb, blocks, inodes, owner) && BitsInv(sb, blocks, OwnersAfter(owner, i, j))
      {
        ok := TruncEntry(i, j, WordAt(bp, j));
        if !ok {
          return;
        }
        j := j + 1;
      }
      return true;
    }

    method TruncEntry(i: nat, j: nat, w: nat) returns (ok: bool)
      requires sb.Ok() && SlotsInv(sb, blocks, inodes, owner) && i < |inodes| && j < NINDIRECT
      requires BitsInv(sb, blocks, OwnersAfter(owner, i, j)) && w == Addr(blocks, inodes[i], NDIRECT + j)
      modifies this`blocks, this`log, this`peak
      ensures ok && SameData(sb, old(blocks), blocks)
      ensures SlotsInv(sb, blocks, inodes, owner) && BitsInv(sb, blocks, OwnersAfter(owner, i, j + 1))
    {
      OwnersStep(sb, blocks, inodes, owner, i, j);
      ok := true;
      if w != 0 {
        FreeOwned(sb, blocks, inodes, owner, OwnersAfter(owner, i, j), w);
        ok := Bfree(w);
      }
    }

    /** The part of `itrunc` for a file with an indirect block: what that lists, and then the block itself. */
    method TruncIndirect(i: nat) returns (ok: bool)
      requires Valid() && i < |inodes| && inodes[i].addrs[NDIRECT] != 0
      modifies this`blocks, this`inodes, this`owner, this`log, this`peak
      ensures ok && Valid() && SameData(sb, old(blocks), blocks)
      ensures inodes == SetAddr(old(inodes), i, NDIRECT, 0)
      ensures owner == map a | a in old(owner) && !(old(owner)[a].ino == i && old(owner)[a].k >= NDIRECT) ::
                old(owner)[a]
    {
      var ind := inodes[i].addrs[NDIRECT];
      ok := TruncEntries(i);
      FreeOwnedIndirect(sb, blocks, inodes, owner, i);
      ok := Bfree(ind);
      inodes := SetAddr(inodes, i, NDIRECT, 0);
      owner := map a | a in owner && !(owner[a].ino == i && owner[a].k >= NDIRECT) :: owner[a];
    }

    /** Discards a file's contents: exactly its own blocks become free, and no free block is freed. */
    method Itrunc(i: nat) returns (ok: bool)
      requires Sound() && i < |inodes| && i / IPB < |iblocks|
      modifies this
      ensures ok && Sound() && SameData(sb, old(blocks), blocks)
      ensures inodes == old(inodes)[i := Inode(0, seq(NDIRECT + 1, _ => 0))]
      ensures Updated(old(iblocks), iblocks, i, inodes[i])
      ensures Without(old(owner), owner, i, 0, INDIRECT + 1)
    {
      ok := TruncDirect(i);
      var ind := inodes[i].addrs[NDIRECT];
      if ind != 0 {
        ok := TruncIndirect(i);
      } else {
        NoEntries(sb, blocks, inodes, owner, i);
      }
      SizeKeepsInv(sb, blocks, inodes, owner, i, 0);
      inodes := inodes[i := inodes[i].(size := 0)];
      assert inodes[i].addrs == seq(NDIRECT + 1, _ => 0);
      EmptiedWhole(sb, old(blocks), old(inodes), old(owner), blocks, inodes, i);
      Iupdate(i);
    }

    // ---- readi ----

    /** Reads up to `n` bytes from offset `off`; None where the source returns -1. */
    method Readi(i: nat, off: nat, n: nat) returns (r: Option<seq<Byte>>)
      requires Sound() && i < |inodes| && off < UINT && n < UINT
      modifies this`blocks, this`inodes, this`owner, this`log, this`peak
      ensures blocks == old(blocks) && inodes == old(inodes) && owner == old(owner) && log == old(log)
              && peak == old(peak)
      ensures r.None? <==> off > inodes[i].size || off + n >= UINT
      ensures r.Some? ==> r.value == Content(blocks, inodes[i])[off..Min(off + n, inodes[i].size)]
    {
      assert NoHoles(blocks, inodes[i]);
      if off > inodes[i].size || (off + n) % UINT < off {
        return None;
      }
      var len := if off + n > inodes[i].size then inodes[i].size - off else n;
      var dst: seq<Byte> := [];
      while |dst| < len
        invariant |dst| <= len && Valid()
        invariant blocks == old(blocks) && inodes == old(inodes) && owner == old(owner) && log == old(log)
                  && peak == old(peak)
        invariant dst == Content(blocks, inodes[i])[off..off + |dst|]
        decreases len - |dst|
      {
        var at := off + |dst|;
        var m := Min(len - |dst|, BSIZE - at % BSIZE);
        var part := ReadTurn(i, at, m);
        SliceJoin(Content(blocks, inodes[i]), off, at, at + m);
        dst := dst + part;
      }
      return Some(dst);
    }

    /** One pass of the loop in `readi`: the bytes that lie in one block. */
    method ReadTurn(i: nat, at: nat, m: nat) returns (part: seq<Byte>)
      requires Valid() && i < |inodes| && NoHoles(blocks, inodes[i])
      requires 0 < m <= BSIZE - at % BSIZE && at + m <= inodes[i].size
      modifies this`blocks, this`inodes, this`owner, this`log, this`peak
      ensures blocks == old(blocks) && inodes == old(inodes) && owner == old(owner)
      ensures log == old(log) && peak == old(peak)
      ensures part == Content(blocks, inodes[i])[at..at + m]
    {
      assert HoleFree(blocks, inodes[i], at / BSIZE);
      var ok, addr := Bmap(i, at / BSIZE);
      Ownership(sb, blocks, inodes, owner, i, at / BSIZE, i, at / BSIZE);
      ReadPart(blocks, inodes[i], at, m);
      part := blocks[addr][at % BSIZE..at % BSIZE + m];
    }

    // ---- writei ----

    /** One pass of the loop in `writei`: the part of `src` that falls into one block. */
    method WritePart(i: nat, off: nat, src: seq<Byte>, tot: nat,
                     ghost b0: seq<Block>, ghost n0: seq<Inode>, ghost off0: nat) returns (ok: bool, m: nat)
      requires Valid() && i < |inodes| && tot < |src| && off == off0 + tot && off0 + |src| <= MAXFILE * BSIZE
      requires Progress(b0, n0, blocks, inodes, i, off0, off, src)
      modifies this`blocks, this`inodes, this`owner, this`log, this`peak
      ensures !ok ==> AllUsed(sb, blocks, sb.size)
      ensures ok ==> m == Min(|src| - tot, BSIZE - off % BSIZE)
      ensures ok ==> Valid() && Progress(b0, n0, blocks, inodes, i, off0, off + m, src)
      ensures ok ==> old(log).data <= log.data && |log.data| <= |old(log).data| + 1
      ensures ok ==> |log.bits| <= |old(log).bits| + (if Addr(old(blocks), old(inodes)[i], off / BSIZE) == 0 then 1
                                                      else 0)
                                   + (if old(inodes)[i].addrs[NDIRECT] != inodes[i].addrs[NDIRECT] then 1 else 0)
      ensures ok ==> log.indirect <= old(log).indirect + {inodes[i].addrs[NDIRECT]} && log.inode == old(log).inode
      ensures ok && inodes[i].addrs[NDIRECT] == 0 ==> log.indirect == old(log).indirect
      ensures ok && Addr(old(blocks), old(inodes)[i], off / BSIZE) != 0 ==> inodes == old(inodes)
      ensures ok && old(inodes)[i].addrs[NDIRECT] != 0 ==> inodes[i].addrs[NDIRECT] == old(inodes)[i].addrs[NDIRECT]
      ensures ok ==> old(log).Bound() <= log.Bound() && peak <= Max(old(peak), log.Bound())
    {
      var addr: nat;
      ghost var b1, n1, l1 := blocks, inodes, log;
      ok, addr := Bmap(i, off / BSIZE);
      if !ok {
        return false, 0;
      }
      BoundGrows(l1, log);
      ProgressExtends(b0, n0, b1, n1, blocks, inodes, i, off0, off, src);
      assert SlotKept(b1, n1, blocks, inodes, i, INDIRECT);
      m := Min(|src| - tot, BSIZE - off % BSIZE);
      Ownership(sb, blocks, inodes, owner, i, off / BSIZE, i, off / BSIZE);
      var data := Splice(blocks[addr], off % BSIZE, src[tot..tot + m]);
      DataWrite(sb, blocks, inodes, owner, i, off / BSIZE, data);
      ProgressWrite(sb, b0, n0, blocks, inodes, owner, i, off0, off, src, m);
      blocks := blocks[addr := data];
      ghost var mid := log;
      LogWrite(log.(data := log.data + {addr}));
      BoundGrows(mid, log);
      OneMore(old(log).data, log.data, addr);
    }

    /** The loop of `writei`. */
    method WriteLoop(i: nat, off0: nat, src: seq<Byte>) returns (ok: bool)
      requires Valid() && i < |inodes| && off0 + |src| <= MAXFILE * BSIZE && off0 <= inodes[i].size
               && NoHoles(blocks, inodes[i])
      modifies this`blocks, this`inodes, this`owner, this`log, this`peak
      ensures !ok ==> AllUsed(sb, blocks, sb.size)
      ensures ok ==> Valid() && Progress(old(blocks), old(inodes), blocks, inodes, i, off0, off0 + |src|, src)
      ensures ok ==> LogInv(old(log), log, off0, off0 + |src|, old(inodes)[i].addrs[NDIRECT], inodes[i].addrs[NDIRECT])
      ensures ok ==> peak <= Max(old(peak), log.Bound())
      ensures ok && off0 + |src| <= old(inodes)[i].size ==> inodes == old(inodes)
    {
      ghost var b0, n0, ind0 := blocks, inodes, inodes[i].addrs[NDIRECT];
      var tot := 0;
      ProgressStart(sb, blocks, inodes, i, off0, src);
      while tot < |src|
        invariant 0 <= tot <= |src| && Valid() && Progress(b0, n0, blocks, inodes, i, off0, off0 + tot, src)
        invariant tot == 0 || tot == |src| || (off0 + tot) % BSIZE == 0
        invariant LogInv(old(log), log, off0, off0 + tot, ind0, inodes[i].addrs[NDIRECT])
        invariant peak <= Max(old(peak), log.Bound())
        invariant off0 + |src| <= n0[i].size ==> inodes == n0
        decreases |src| - tot
      {
        var good, m := WriteTurn(i, off0, src, tot, b0, n0, old(log), ind0);
        if !good {
          return false;
        }
        tot := tot + m;
      }
      return true;
    }

    /** One turn of that loop, and what it adds to the log. */
    method WriteTurn(i: nat, off0: nat, src: seq<Byte>, tot: nat,
                     ghost b0: seq<Block>, ghost n0: seq<Inode>, ghost l0: OpLog, ghost ind0: nat)
      returns (ok: bool, m: nat)
      requires Valid() && i < |inodes| && tot < |src| && off0 + |src| <= MAXFILE * BSIZE
      requires i < |n0| && off0 <= n0[i].size && NoHoles(b0, n0[i])
      requires Progress(b0, n0, blocks, inodes, i, off0, off0 + tot, src) && (tot == 0 || (off0 + tot) % BSIZE == 0)
      requires LogInv(l0, log, off0, off0 + tot, ind0, inodes[i].addrs[NDIRECT])
      requires off0 + |src| <= n0[i].size ==> inodes == n0
      modifies this`blocks, this`inodes, this`owner, this`log, this`peak
      ensures !ok ==> AllUsed(sb, blocks, sb.size)
      ensures ok ==> 0 < m <= |src| - tot && (tot + m == |src| || (off0 + tot + m) % BSIZE == 0)
      ensures ok ==> Valid() && Progress(b0, n0, blocks, inodes, i, off0, off0 + tot + m, src)
      ensures ok ==> LogInv(l0, log, off0, off0 + tot + m, ind0, inodes[i].addrs[NDIRECT])
      ensures ok ==> old(log).Bound() <= log.Bound() && peak <= Max(old(peak), log.Bound())
      ensures ok && off0 + |src| <= n0[i].size ==> inodes == n0
    {
      ghost var l1, ind1 := log, inodes[i].addrs[NDIRECT];
      ghost var k := (off0 + tot) / BSIZE;
      assert SlotKept(b0, n0, blocks, inodes, i, k) && HoleFree(b0, n0[i], k);
      ghost var unmapped := Addr(blocks, inodes[i], k) == 0;
      assert unmapped ==> k * BSIZE >= n0[i].size;
      ok, m := WritePart(i, off0 + tot, src, tot, b0, n0, off0);
      if ok {
        LogStep(l0, l1, log, off0, off0 + tot, m, ind0, ind1, inodes[i].addrs[NDIRECT], unmapped);
      }
    }

    /**
     `writei` on a regular file: the contents become the old ones overwritten with `src` at `off`, every
     other file keeps its bytes, and the inode on disk agrees with the one in memory again.
     */
    method Writei(i: nat, off: nat, src: seq<Byte>) returns (r: WriteResult)
      requires Sound() && i < |inodes| && off < UINT && |src| < UINT
      requires OnDisk(i)
      modifies this
      ensures r.Fails? <==> off > old(inodes)[i].size || off + |src| > MAXFILE * BSIZE
      ensures r.Fails? ==> blocks == old(blocks) && inodes == old(inodes) && iblocks == old(iblocks)
      ensures r.Fails? ==> owner == old(owner) && log == old(log)
      ensures r.Panics? ==> AllUsed(sb, blocks, sb.size)
      ensures r.Wrote? ==> Sound() && Written(old(blocks), old(inodes), blocks, inodes, i, off, src)
      ensures r.Wrote? ==> Updated(old(iblocks), iblocks, i, inodes[i])
      ensures r.Wrote? && |src| <= CHUNK ==>
                log.Bound() <= old(log).Bound() + 10 && peak <= Max(old(peak), old(log).Bound() + 9)
    {
      assert NoHoles(blocks, inodes[i]);
      if off > inodes[i].size || (off + |src|) % UINT < off {
        return Fails;
      }
      if off + |src| > MAXFILE * BSIZE {
        return Fails;
      }
      var ok := WriteLoop(i, off, src);
      if !ok {
        return Panics;
      }
      ghost var n1 := inodes;
      var end := off + |src|;
      if |src| <= CHUNK {
        ChunkBound(old(log), log, off, |src|, old(inodes)[i].addrs[NDIRECT], inodes[i].addrs[NDIRECT]);
      }
      if |src| > 0 && end > inodes[i].size {
        SizeKeepsInv(sb, blocks, inodes, owner, i, end);
        inodes := inodes[i := inodes[i].(size := end)];
        ghost var l1 := log;
        InodeStorable(sb, blocks, inodes, owner, i);
        Iupdate(i);
        OneMore(l1.inode, log.inode, IBlock(sb, i));
      }
      WrittenAll(old(blocks), old(inodes), blocks, n1, inodes, i, off, src);
      WrittenWhole(old(blocks), old(inodes), blocks, inodes, i, off, src);
      return Wrote;
    }

    /** A read of the bytes that a write has just stored gives them back. */
    method WriteThenRead(i: nat, off: nat, src: seq<Byte>) returns (r: WriteResult, back: Option<seq<Byte>>)
      requires Sound() && i < |inodes| && off < UINT && |src| < UINT
      requires OnDisk(i)
      modifies this
      ensures r.Fails? <==> off > old(inodes)[i].size || off + |src| > MAXFILE * BSIZE
      ensures r.Panics? ==> AllUsed(sb, blocks, sb.size)
      ensures r.Wrote? ==> back == Some(src)
    {
      back := None;
      r := Writei(i, off, src);
      if r.Wrote? {
        back := Readi(i, off, |src|);
        OverwriteSlice(Content(old(blocks), old(inodes)[i]), off, src);
      }
    }

    /** One operation of `filewrite`, from begin_op to end_op. */
    method WriteChunk(i: nat, off: nat, src: seq<Byte>) returns (r: WriteResult)
      requires Sound() && i < |inodes| && off < UINT && |src| <= CHUNK
      requires OnDisk(i)
      modifies this
      ensures r.Fails? <==> off > old(inodes)[i].size || off + |src| > MAXFILE * BSIZE
      ensures r.Panics? ==> AllUsed(sb, blocks, sb.size)
      ensures !r.Panics? ==> Sound() && Updated(old(iblocks), iblocks, i, inodes[i]) && |inodes| == |old(inodes)|
      ensures r.Fails? ==> blocks == old(blocks) && inodes == old(inodes)
      ensures r.Wrote? ==> Written(old(blocks), old(inodes), blocks, inodes, i, off, src)
      ensures r.Wrote? ==> |log.All()| <= 10 && peak <= 9
    {
      log, peak := OpLog({}, {}, {}, {}), 0;
      r := Writei(i, off, src);
      LogBound(log);
    }

    /** The next chunk of `filewrite`, on top of the `w` bytes that it has written. */
    method WriteNext(i: nat, off: nat, addr: seq<Byte>, w: nat, n: nat, ghost b0: seq<Block>, ghost n0: seq<Inode>)
      returns (r: WriteResult)
      requires Sound() && i < |inodes| == |n0| && w + n <= |addr| && n <= CHUNK && off + w < UINT
      requires OnDisk(i)
      requires off <= n0[i].size ==> Written(b0, n0, blocks, inodes, i, off, addr[..w])
      requires off > n0[i].size ==> inodes[i].size < off + w
      modifies this
      ensures r.Fails? <==> off + w > old(inodes)[i].size || off + w + n > MAXFILE * BSIZE
      ensures r.Panics? ==> AllUsed(sb, blocks, sb.size)
      ensures !r.Panics? ==> Sound() && Updated(old(iblocks), iblocks, i, inodes[i]) && |inodes| == |old(inodes)|
      ensures r.Fails? ==> blocks == old(blocks) && inodes == old(inodes)
      ensures r.Wrote? ==> off <= n0[i].size && Written(b0, n0, blocks, inodes, i, off, addr[..w + n])
      ensures r.Wrote? ==> inodes[i].size == Max(old(inodes)[i].size, if n == 0 then 0 else off + w + n)
      ensures r.Wrote? ==> |log.All()| <= 10 && peak <= 9
    {
      r := WriteChunk(i, off + w, addr[w..w + n]);
      if r.Wrote? {
        WrittenTrans(b0, n0, old(blocks), old(inodes), blocks, inodes, i, off, addr[..w], addr[w..w + n]);
        assert addr[..w] + addr[w..w + n] == addr[..w + n];
      }
    }

    /**
     `filewrite` on an inode: each chunk is an operation of its own. `w` bytes have been written, all of
     them unless the source returns -1; every operation logs at most 10 distinct blocks, and has logged
     at most 9 when it makes any of its calls to log_write.
     */
    method Filewrite(i: nat, off: nat, addr: seq<Byte>)
      returns (panics: bool, w: nat, off': nat, ghost logs: seq<OpLog>, ghost peaks: seq<nat>)
      requires Sound() && i < |inodes| && off < UINT && |addr| < 0x8000_0000
      requires OnDisk(i)
      modifies this
      ensures panics ==> AllUsed(sb, blocks, sb.size)
      ensures !panics ==> w <= |addr| && off' == off + w && Sound() && |inodes| == |old(inodes)|
      ensures !panics ==> (w == |addr| <==>
                             addr == [] || (off <= old(inodes)[i].size && off + |addr| <= MAXFILE * BSIZE))
      ensures !panics && off <= old(inodes)[i].size ==>
                Written(old(blocks), old(inodes), blocks, inodes, i, off, addr[..w])
      ensures !panics && off > old(inodes)[i].size ==> blocks == old(blocks) && inodes == old(inodes)
      ensures !panics ==> Updated(old(iblocks), iblocks, i, inodes[i])
      ensures |peaks| == |logs| && forall k | 0 <= k < |logs| :: |logs[k].All()| <= 10 && peaks[k] <= 9
    {
      panics, w, off', logs, peaks := false, 0, off, [], [];
      ghost var b0, n0 := blocks, inodes;
      assert addr[..0] == [] && NoHoles(blocks, inodes[i]);
      if off <= inodes[i].size {
        WrittenNothing(sb, blocks, inodes, i, off);
      }
      while w < |addr|
        invariant w <= |addr| && off' == off + w && Sound() && |inodes| == |n0|
        invariant inodes[i].size == Max(n0[i].size, if w > 0 then off' else 0)
        invariant off <= n0[i].size ==> Written(b0, n0, blocks, inodes, i, off, addr[..w])
        invariant off > n0[i].size ==> w == 0 && blocks == b0 && inodes == n0
        invariant w > 0 ==> off <= n0[i].size && off' <= MAXFILE * BSIZE
        invariant Updated(old(iblocks), iblocks, i, inodes[i])
        invariant |peaks| == |logs| && forall k | 0 <= k < |logs| :: |logs[k].All()| <= 10 && peaks[k] <= 9
        decreases |addr| - w
      {
        var n1 := Min(|addr| - w, CHUNK);
        ghost var i1, x1 := iblocks, inodes[i];
        var r := WriteNext(i, off, addr, w, n1, b0, n0);
        if r.Panics? {
          return true, w, off', logs, peaks;
        }
        UpdatedTrans(old(iblocks), i1, iblocks, i, x1, inodes[i]);
        if r.Fails? {
          break;
        }
        logs, peaks := logs + [log], peaks + [peak];
        w, off' := w + n1, off' + n1;
      }
    }
  }

  /** The largest piece that `filewrite` passes to `writei`. */
  const CHUNK: nat := 1536

  datatype WriteResult = Wrote | Fails | Panics

  // ---- how much a write logs ----

  /** The number of blocks that the bytes from `off0` to `off - 1` lie in. */
  function Touched(off0: nat, off: nat): int
    requires off0 <= off
  {
    if off == off0 then 0 else (off - 1) / BSIZE - off0 / BSIZE + 1
  }

  /** How many of them can be new: not the first one, if the write starts inside it. */
  function CanBeNew(off0: nat, off: nat): int
    requires off0 <= off
  {
    Touched(off0, off) - if off0 % BSIZE != 0 && off0 < off then 1 else 0
  }

  ghost predicate LogInv(l0: OpLog, l: OpLog, off0: nat, off: nat, ind0: nat, ind: nat) {
    && off0 <= off
    && |l.data| <= |l0.data| + Touched(off0, off)
    && |l.bits| <= |l0.bits| + CanBeNew(off0, off) + (if ind0 != ind then 1 else 0)
    && l.indirect <= l0.indirect + {ind} && (ind == 0 ==> l.indirect == l0.indirect)
    && l.inode == l0.inode
    && (ind0 != 0 ==> ind == ind0)
  }

  lemma LogStep(l0: OpLog, l: OpLog, l': OpLog, off0: nat, off: nat, m: nat, ind0: nat, ind: nat, ind': nat,
                unmapped: bool)
    requires LogInv(l0, l, off0, off, ind0, ind) && 1 <= m && off % BSIZE + m <= BSIZE
    requires off == off0 || off % BSIZE == 0
    requires unmapped ==> off / BSIZE * BSIZE >= off0
    requires |l'.data| <= |l.data| + 1
    requires |l'.bits| <= |l.bits| + (if unmapped then 1 else 0) + (if ind != ind' then 1 else 0)
    requires l'.indirect <= l.indirect + {ind'} && l'.inode == l.inode && (ind' == 0 ==> l'.indirect == l.indirect)
    requires ind != 0 ==> ind' == ind
    ensures LogInv(l0, l', off0, off + m, ind0, ind')
  {
    assert (off + m - 1) / BSIZE == off / BSIZE;
    if off != off0 {
      assert (off - 1) / BSIZE == off / BSIZE - 1;
    }
  }

  /** A chunk of at most CHUNK bytes logs at most nine blocks before its inode. */
  lemma ChunkBound(l0: OpLog, l: OpLog, off0: nat, n: nat, ind0: nat, ind: nat)
    requires LogInv(l0, l, off0, off0 + n, ind0, ind) && n <= CHUNK
    ensures l.Bound() <= l0.Bound() + 9
  {
    OneMoreOf(l0.indirect, l.indirect, ind);
    if n > 0 {
      assert (off0 + n - 1) / BSIZE <= off0 / BSIZE + 3;
      if off0 % BSIZE == 0 {
        assert (off0 + n - 1) / BSIZE <= off0 / BSIZE + 2;
      }
    }
  }

  lemma OneMoreOf(a: set<nat>, b: set<nat>, x: nat)
    requires b <= a + {x}
    ensures |b| <= |a| + 1
  {
    UnionSize(a, {x});
    BoundGrows(OpLog(b, {}, {}, {}), OpLog(a + {x}, {}, {}, {}));
  }

  // ---- what a finished write means ----

  /** The file's contents are overwritten, it has no holes, and all other files are as before. */
  ghost predicate Written(b0: seq<Block>, n0: seq<Inode>, b: seq<Block>, n: seq<Inode>, i: nat, off: nat,
                          src: seq<Byte>)
  {
    && |n| == |n0| && i < |n0|
    && NoHoles(b0, n0[i]) && NoHoles(b, n[i]) && off <= n0[i].size
    && Content(b, n[i]) == Overwrite(Content(b0, n0[i]), off, src)
    && (forall j | 0 <= j < |n0| && j != i :: Untouched(b0, n0, b, n, j))
  }

  /** Inode `j` is the same, so are all its bytes, and it has no holes if it had none. */
  ghost predicate Untouched(b0: seq<Block>, n0: seq<Inode>, b: seq<Block>, n: seq<Inode>, j: int) {
    && 0 <= j < |n0| && j < |n| && n[j] == n0[j]
    && (forall x | 0 <= x < MAXFILE * BSIZE :: SameByte(b0, n0, b, n, j, x))
    && (NoHoles(b0, n0[j]) ==> NoHoles(b, n[j]))
  }

  lemma WrittenAll(b0: seq<Block>, n0: seq<Inode>, b: seq<Block>, n1: seq<Inode>, n: seq<Inode>, i: nat, off: nat,
                   src: seq<Byte>)
    requires Progress(b0, n0, b, n1, i, off, off + |src|, src) && NoHoles(b0, n0[i])
    requires off <= n0[i].size && off + |src| <= MAXFILE * BSIZE
    requires n == n1[i := n1[i].(size := if |src| > 0 && off + |src| > n1[i].size then off + |src| else n1[i].size)]
    ensures Written(b0, n0, b, n, i, off, src)
  {
    var end := off + |src|;
    forall k | 0 <= k < MAXFILE ensures HoleFree(b, n[i], k) {
      assert HoleFree(b0, n0[i], k) && SlotKept(b0, n0, b, n1, i, k) && MappedTo(b, n1[i], off, end, k);
    }
    assert MappedTo(b, n1[i], off, end, 0);
    var c0, c := Content(b0, n0[i]), Content(b, n[i]);
    forall x | 0 <= x < |c| ensures c[x] == Overwrite(c0, off, src)[x] {
      assert ProgressAt(b0, n0, b, n1, i, off, end, src, i, x);
    }
    assert |c| == |Overwrite(c0, off, src)|;
    forall j | 0 <= j < |n0| && j != i ensures Untouched(b0, n0, b, n, j) {
      UntouchedAt(b0, n0, b, n1, n, i, off, src, j);
    }
  }

  lemma WrittenNothing(sb: Super, b: seq<Block>, n: seq<Inode>, i: nat, off: nat)
    requires Shape(sb, b, n) && i < |n| && NoHoles(b, n[i]) && off <= n[i].size
    ensures Written(b, n, b, n, i, off, [])
  {
    assert Content(b, n[i]) == Overwrite(Content(b, n[i]), off, []);
  }

  /** Two writes, the second continuing where the first ended, are one write. */
  lemma WrittenTrans(b0: seq<Block>, n0: seq<Inode>, b1: seq<Block>, n1: seq<Inode>, b2: seq<Block>, n2: seq<Inode>,
                     i: nat, off: nat, s1: seq<Byte>, s2: seq<Byte>)
    requires Written(b0, n0, b1, n1, i, off, s1) && Written(b1, n1, b2, n2, i, off + |s1|, s2)
    ensures Written(b0, n0, b2, n2, i, off, s1 + s2)
  {
    var c0 := Content(b0, n0[i]);
    assert Overwrite(Overwrite(c0, off, s1), off + |s1|, s2) == Overwrite(c0, off, s1 + s2);
    forall j | 0 <= j < |n0| && j != i ensures Untouched(b0, n0, b2, n2, j) {
      assert Untouched(b0, n0, b1, n1, j) && Untouched(b1, n1, b2, n2, j);
      forall x | 0 <= x < MAXFILE * BSIZE ensures SameByte(b0, n0, b2, n2, j, x) {
        assert SameByte(b0, n0, b1, n1, j, x) && SameByte(b1, n1, b2, n2, j, x);
      }
    }
  }

  /** So no file has holes if none had. */
  lemma WrittenWhole(b0: seq<Block>, n0: seq<Inode>, b: seq<Block>, n: seq<Inode>, i: nat, off: nat, src: seq<Byte>)
    requires Written(b0, n0, b, n, i, off, src) && Whole(b0, n0)
    ensures Whole(b, n)
  {
    forall j | 0 <= j < |n| ensures NoHoles(b, n[j]) {
      assert j != i ==> Untouched(b0, n0, b, n, j) && NoHoles(b0, n0[j]);
    }
  }

  /** The slice of the new contents at `off` is what was written there. */
  lemma OverwriteSlice(c: seq<Byte>, off: nat, src: seq<Byte>)
    requires off <= |c|
    ensures Overwrite(c, off, src)[off..off + |src|] == src
  {
  }

  /** Truncation clears exactly the bits of the blocks that the inode owned. */
  lemma TruncatedBits(sb: Super, b0: seq<Block>, n0: seq<Inode>, owner0: map<nat, Slot>,
                      b: seq<Block>, n: seq<Inode>, owner: map<nat, Slot>, i: nat, c: nat)
    requires Inv(sb, b0, n0, owner0) && Inv(sb, b, n, owner) && Without(owner0, owner, i, 0, INDIRECT + 1)
             && c < sb.size
    ensures UsedAt(sb, b, c) <==> UsedAt(sb, b0, c) && !(c in owner0 && owner0[c].ino == i)
  {
    assert BitOk(sb, b0, owner0, c) && BitOk(sb, b, owner, c);
    if c in owner0 {
      assert OwnerOk(sb, b0, n0, owner0, c);
    }
  }

  lemma UntouchedAt(b0: seq<Block>, n0: seq<Inode>, b: seq<Block>, n1: seq<Inode>, n: seq<Inode>, i: nat, off: nat,
                    src: seq<Byte>, j: nat)
    requires Progress(b0, n0, b, n1, i, off, off + |src|, src) && j < |n0| && j != i
    requires |n| == |n1| && n[j] == n1[j]
    ensures Untouched(b0, n0, b, n, j)
  {
    var end := off + |src|;
    forall x | 0 <= x < MAXFILE * BSIZE ensures SameByte(b0, n0, b, n, j, x) {
      assert ProgressAt(b0, n0, b, n1, i, off, end, src, j, x);
    }
    if NoHoles(b0, n0[j]) {
      forall k | 0 <= k < MAXFILE ensures HoleFree(b, n[j], k) {
        assert HoleFree(b0, n0[j], k) && SlotKept(b0, n0, b, n1, j, k);
      }
    }
  }

  // ---- contents of files, in whole and in part ----

  /** `c` overwritten with `src` at `off`, and extended if `src` reaches past its end. */
  function Overwrite(c: seq<Byte>, off: nat, src: seq<Byte>): seq<Byte>
    requires off <= |c|
  {
    seq(Max(|c|, off + |src|), x requires 0 <= x < Max(|c|, off + |src|) =>
      if off <= x < off + |src| then src[x - off] else c[x])
  }

  /** Bytes of the content that lie in one block are bytes of the block that is mapped there. */
  lemma ReadPart(blocks: seq<Block>, ip: Inode, at: nat, m: nat)
    requires |ip.addrs| == NDIRECT + 1 && ip.size <= MAXFILE * BSIZE && at + m <= ip.size
    requires m <= BSIZE - at % BSIZE && 0 < m
    requires var a := Addr(blocks, ip, at / BSIZE); a != 0 && a < |blocks|
    ensures Content(blocks, ip)[at..at + m]
            == blocks[Addr(blocks, ip, at / BSIZE)][at % BSIZE..at % BSIZE + m]
  {
    var c, a := Content(blocks, ip), Addr(blocks, ip, at / BSIZE);
    var part := blocks[a][at % BSIZE..at % BSIZE + m];
    forall y | 0 <= y < m ensures c[at + y] == part[y] {
      SameBlock(at, y);
    }
    assert c[at..at + m] == part;
  }

  lemma SliceJoin(c: seq<Byte>, i: nat, j: nat, k: nat)
    requires i <= j <= k <= |c|
    ensures c[i..j] + c[j..k] == c[i..k]
  {
  }

  lemma SameBlock(at: nat, y: nat)
    requires at % BSIZE + y < BSIZE
    ensures (at + y) / BSIZE == at / BSIZE && (at + y) % BSIZE == at % BSIZE + y
  {
  }

  lemma OneMore(a: set<nat>, b: set<nat>, x: nat)
    requires a <= b <= a + {x}
    ensures |b| <= |a| + 1
  {
    if x in a {
      assert b == a;
    } else {
      assert b == a || b == a + {x};
    }
  }

  ghost predicate ProgressAt(b0: seq<Block>, n0: seq<Inode>, b: seq<Block>, n: seq<Inode>, i: nat, off0: nat,
                             off: nat, src: seq<Byte>, j: int, x: int)
  {
    && 0 <= j < |n0| && j < |n| && 0 <= x < MAXFILE * BSIZE && off <= off0 + |src|
    && |n0[j].addrs| == NDIRECT + 1 && |n[j].addrs| == NDIRECT + 1
    && FileByte(b, n[j], x) == if j == i && off0 <= x < off then src[x - off0] else FileByte(b0, n0[j], x)
  }

  ghost predicate MappedTo(b: seq<Block>, ip: Inode, off0: nat, off: nat, k: int) {
    0 <= k < MAXFILE && |ip.addrs| == NDIRECT + 1
    && (off0 / BSIZE <= k && k * BSIZE < off && off0 < off ==> Addr(b, ip, k) != 0)
  }

  /** A write to inode `i` that started at `off0` on the state `b0`, `n0` has reached `off`. */
  ghost predicate Progress(b0: seq<Block>, n0: seq<Inode>, b: seq<Block>, n: seq<Inode>, i: nat, off0: nat, off: nat,
                           src: seq<Byte>)
  {
    && |n| == |n0| && i < |n0| && off0 <= off <= off0 + |src|
    && (forall j | 0 <= j < |n0| && j != i :: n[j] == n0[j])
    && n[i].size == n0[i].size
    && (forall j, x | 0 <= j < |n0| && 0 <= x < MAXFILE * BSIZE :: ProgressAt(b0, n0, b, n, i, off0, off, src, j, x))
    && (forall j, l | 0 <= j < |n0| && 0 <= l <= INDIRECT :: SlotKept(b0, n0, b, n, j, l))
    && (forall k | 0 <= k < MAXFILE :: MappedTo(b, n[i], off0, off, k))
  }

  lemma ProgressStart(sb: Super, b: seq<Block>, n: seq<Inode>, i: nat, off: nat, src: seq<Byte>)
    requires Shape(sb, b, n) && i < |n|
    ensures Progress(b, n, b, n, i, off, off, src)
  {
  }

  lemma ProgressExtends(b0: seq<Block>, n0: seq<Inode>, b: seq<Block>, n: seq<Inode>, b': seq<Block>, n': seq<Inode>,
                        i: nat, off0: nat, off: nat, src: seq<Byte>)
    requires Progress(b0, n0, b, n, i, off0, off, src) && Extends(b, n, b', n', i)
    ensures Progress(b0, n0, b', n', i, off0, off, src)
  {
    forall j, x | 0 <= j < |n0| && 0 <= x < MAXFILE * BSIZE
      ensures ProgressAt(b0, n0, b', n', i, off0, off, src, j, x)
    {
      assert ProgressAt(b0, n0, b, n, i, off0, off, src, j, x) && SameByte(b, n, b', n', j, x);
    }
    forall j, l | 0 <= j < |n0| && 0 <= l <= INDIRECT ensures SlotKept(b0, n0, b', n', j, l) {
      assert SlotKept(b0, n0, b, n, j, l) && SlotKept(b, n, b', n', j, l);
    }
    forall k | 0 <= k < MAXFILE ensures MappedTo(b', n'[i], off0, off, k) {
      assert MappedTo(b, n[i], off0, off, k) && SlotKept(b, n, b', n', i, k);
    }
  }

  /** Writing the next part into its block moves the write forward by exactly that part. */
  lemma ProgressWrite(sb: Super, b0: seq<Block>, n0: seq<Inode>, b: seq<Block>, n: seq<Inode>, owner: map<nat, Slot>,
                      i: nat, off0: nat, off: nat, src: seq<Byte>, m: nat)
    requires Inv(sb, b, n, owner) && Progress(b0, n0, b, n, i, off0, off, src)
    requires off0 + |src| <= MAXFILE * BSIZE && off + m <= off0 + |src| && off % BSIZE + m <= BSIZE
             && off / BSIZE < MAXFILE
    requires Addr(b, n[i], off / BSIZE) != 0
    ensures Addr(b, n[i], off / BSIZE) < |b|
    ensures var a := Addr(b, n[i], off / BSIZE);
            Progress(b0, n0, b[a := Splice(b[a], off % BSIZE, src[off - off0..off - off0 + m])], n, i, off0, off + m,
                     src)
  {
    var k := off / BSIZE;
    var a := Addr(b, n[i], k);
    Ownership(sb, b, n, owner, i, k, i, k);
    var data := Splice(b[a], off % BSIZE, src[off - off0..off - off0 + m]);
    var b' := b[a := data];
    var end := off + m;
    forall j, x | 0 <= j < |n0| && 0 <= x < MAXFILE * BSIZE ensures ProgressAt(b0, n0, b', n, i, off0, end, src, j, x) {
      assert ProgressAt(b0, n0, b, n, i, off0, off, src, j, x);
      DataWriteBytes(sb, b, n, owner, i, k, data, j, x);
      SplitAt(off, x, m);
    }
    forall j, l | 0 <= j < |n0| && 0 <= l <= INDIRECT ensures SlotKept(b0, n0, b', n, j, l) {
      assert SlotKept(b0, n0, b, n, j, l);
      DataWriteAddr(sb, b, n, owner, i, k, data, j, l);
    }
    var ip := n[i];
    forall l | 0 <= l < MAXFILE ensures MappedTo(b', ip, off0, end, l) {
      assert MappedTo(b, n[i], off0, off, l);
      DataWriteAddr(sb, b, n, owner, i, k, data, i, l);
      BlockRange(off, m, l);
    }
  }

  /** A byte lies in the part written at `off` exactly if it is in the same block at an offset written. */
  lemma SplitAt(off: nat, x: nat, m: nat)
    requires off % BSIZE + m <= BSIZE
    ensures off <= x < off + m <==> x / BSIZE == off / BSIZE && off % BSIZE <= x % BSIZE < off % BSIZE + m
    ensures off <= x < off + m ==> x % BSIZE - off % BSIZE == x - off
  {
  }

  lemma BlockRange(off: nat, m: nat, l: nat)
    requires off % BSIZE + m <= BSIZE
    ensures l * BSIZE < off + m ==> l * BSIZE < off || l == off / BSIZE
  {
  }

  /** `owner'` is `owner` without the slots `lo` to `hi - 1` of inode `i`. */
  ghost predicate Without(owner: map<nat, Slot>, owner': map<nat, Slot>, i: nat, lo: nat, hi: nat) {
    && (forall a | a in owner' :: a in owner && owner'[a] == owner[a])
    && (forall a | a in owner :: a in owner' <==> !(owner[a].ino == i && lo <= owner[a].k < hi))
  }

  /** Freeing the block of one owner: its bit was set, and the rest of the free map keeps matching. */
  lemma FreeOwned(sb: Super, blocks: seq<Block>, inodes: seq<Inode>, owner: map<nat, Slot>, left: map<nat, Slot>,
                  a: nat)
    requires SlotsInv(sb, blocks, inodes, owner) && BitsInv(sb, blocks, left) && a in left && sb.nmeta <= a < sb.size
    ensures BBlock(sb, a) < |blocks| && Used(sb, blocks, a)
    ensures SlotsInv(sb, Unmarked(sb, blocks, a), inodes, owner)
    ensures BitsInv(sb, Unmarked(sb, blocks, a), left - {a})
    ensures SameData(sb, blocks, Unmarked(sb, blocks, a))
  {
    BBlockMeta(sb, a);
    assert BitOk(sb, blocks, left, a);
    UnmarkedSlots(sb, blocks, inodes, owner, a);
    UnmarkedBitsInv(sb, blocks, left, a);
  }

  lemma FreeDirect(sb: Super, blocks: seq<Block>, inodes: seq<Inode>, owner: map<nat, Slot>, i: nat, d: nat)
    requires Inv(sb, blocks, inodes, owner) && i < |inodes| && d < NDIRECT
    ensures var a := inodes[i].addrs[d];
            && (a != 0 ==>
                  && a < sb.size && BBlock(sb, a) < |blocks| && Used(sb, blocks, a)
                  && Inv(sb, Unmarked(sb, blocks, a), SetAddr(inodes, i, d, 0), owner - {a})
                  && SameData(sb, blocks, Unmarked(sb, blocks, a))
                  && a in owner && owner[a] == Slot(i, d))
            && (forall c | c in owner && owner[c] == Slot(i, d) :: a != 0 && c == a)
  {
    var a := inodes[i].addrs[d];
    assert SlotOk(blocks, inodes, owner, i, d);
    forall c | c in owner && owner[c] == Slot(i, d) ensures a != 0 && c == a {
      assert OwnerOk(sb, blocks, inodes, owner, c);
    }
    if a != 0 {
      assert OwnerOk(sb, blocks, inodes, owner, a);
      FreeOwned(sb, blocks, inodes, owner, owner, a);
      DropSlots(sb, Unmarked(sb, blocks, a), inodes, owner, owner - {a}, i, d);
    }
  }

  /** Freeing the indirect block itself, once all it lists is free. */
  lemma FreeOwnedIndirect(sb: Super, blocks: seq<Block>, inodes: seq<Inode>, owner: map<nat, Slot>, i: nat)
    requires SlotsInv(sb, blocks, inodes, owner) && i < |inodes| && inodes[i].addrs[NDIRECT] != 0
    requires BitsInv(sb, blocks, OwnersAfter(owner, i, NINDIRECT))
    ensures var a := inodes[i].addrs[NDIRECT];
            && a < sb.size && BBlock(sb, a) < |blocks| && Used(sb, blocks, a)
            && SameData(sb, blocks, Unmarked(sb, blocks, a))
            && Inv(sb, Unmarked(sb, blocks, a), SetAddr(inodes, i, NDIRECT, 0),
                   map c | c in owner && !(owner[c].ino == i && owner[c].k >= NDIRECT) :: owner[c])
  {
    var a := inodes[i].addrs[NDIRECT];
    var left := OwnersAfter(owner, i, NINDIRECT);
    var owner' := map c | c in owner && !(owner[c].ino == i && owner[c].k >= NDIRECT) :: owner[c];
    assert SlotOk(blocks, inodes, owner, i, INDIRECT);
    assert OwnerOk(sb, blocks, inodes, owner, a);
    FreeOwned(sb, blocks, inodes, owner, left, a);
    forall c | c in owner && owner[c].ino == i && owner[c].k >= NDIRECT && c != a
      ensures EntryBefore(owner, i, NINDIRECT, c)
    {
      assert OwnerOk(sb, blocks, inodes, owner, c);
    }
    assert left - {a} == owner';
    DropSlots(sb, Unmarked(sb, blocks, a), inodes, owner, owner', i, NDIRECT);
  }

  /** Without an indirect block, no slot from NDIRECT on owns anything. */
  lemma NoEntries(sb: Super, blocks: seq<Block>, inodes: seq<Inode>, owner: map<nat, Slot>, i: nat)
    requires SlotsInv(sb, blocks, inodes, owner) && i < |inodes| && inodes[i].addrs[NDIRECT] == 0
    ensures forall c | c in owner && owner[c].ino == i :: owner[c].k < NDIRECT
  {
    forall c | c in owner && owner[c].ino == i ensures owner[c].k < NDIRECT {
      assert OwnerOk(sb, blocks, inodes, owner, c);
    }
  }

  /** The invariant does not mention the size of a file. */
  lemma SizeKeepsInv(sb: Super, blocks: seq<Block>, inodes: seq<Inode>, owner: map<nat, Slot>, i: nat, size: nat)
    requires Inv(sb, blocks, inodes, owner) && i < |inodes|
    ensures Inv(sb, blocks, inodes[i := inodes[i].(size := size)], owner)
  {
    var inodes' := inodes[i := inodes[i].(size := size)];
    forall j, k | 0 <= j < |inodes'| && 0 <= k <= INDIRECT ensures SlotOk(blocks, inodes', owner, j, k) {
      assert SlotOk(blocks, inodes, owner, j, k);
    }
    forall a | a in owner ensures OwnerOk(sb, blocks, inodes', owner, a) {
      assert OwnerOk(sb, blocks, inodes, owner, a);
    }
  }

  lemma SameMapBlock(sb: Super, b: nat, bi: nat)
    requires b % BPB == 0 && bi < BPB
    ensures BBlock(sb, b + bi) == BBlock(sb, b) && (b + bi) % BPB == bi
  {
  }

  lemma BoundGrows(l: OpLog, m: OpLog)
    requires l.data <= m.data && l.bits <= m.bits && l.indirect <= m.indirect && l.inode <= m.inode
    ensures l.Bound() <= m.Bound()
  {
    assert m.data == l.data + (m.data - l.data) && m.bits == l.bits + (m.bits - l.bits);
    assert m.indirect == l.indirect + (m.indirect - l.indirect) && m.inode == l.inode + (m.inode - l.inode);
  }
}
