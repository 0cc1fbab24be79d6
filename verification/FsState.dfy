/**
 The state of the file layer: free map, inodes, direct and indirect block lists, and who owns which block.
 The blocks are those that the buffer cache shows, whether or not they have reached the disk.
 */
module FsState {
  import opened FsBytes

  const NDIRECT: nat := 12
  const MAXFILE: nat := 140
  /** Inodes per block. */
  const IPB: nat := 8

  /** The super block's numbers; blocks below `nmeta` hold everything but file contents. */
  datatype Super = Super(size: nat, ninodes: nat, inodestart: nat, bmapstart: nat, nmeta: nat) {
    ghost predicate Ok() {
      && 1 <= nmeta <= size < UINT
      && bmapstart + size / BPB < nmeta
      && inodestart + ninodes / IPB < nmeta
    }
  }

  datatype Inode = Inode(size: nat, addrs: seq<nat>)

  /** A place that can hold a block number: file block 0..139 of an inode, or its indirect block (140). */
  datatype Slot = Slot(ino: nat, k: nat)

  const INDIRECT: nat := 140

  function BBlock(sb: Super, b: nat): nat {
    b / BPB + sb.bmapstart
  }

  function IBlock(sb: Super, ino: nat): nat {
    ino / IPB + sb.inodestart
  }

  ghost predicate Shape(sb: Super, blocks: seq<Block>, inodes: seq<Inode>) {
    && sb.Ok()
    && |blocks| == sb.size && |inodes| == sb.ninodes
    && forall i | 0 <= i < |inodes| :: |inodes[i].addrs| == NDIRECT + 1
  }

  /** The block's bit in the free map. */
  predicate Used(sb: Super, blocks: seq<Block>, b: nat)
    requires BBlock(sb, b) < |blocks|
  {
    BlockBit(blocks[BBlock(sb, b)], b % BPB)
  }

  /** The block number in slot `k` of an inode, 0 if there is none. */
  function Addr(blocks: seq<Block>, ip: Inode, k: nat): nat
    requires |ip.addrs| == NDIRECT + 1 && k <= INDIRECT
  {
    if k < NDIRECT then ip.addrs[k]
    else if k == INDIRECT then ip.addrs[NDIRECT]
    else Entry(blocks, ip.addrs[NDIRECT], k - NDIRECT)
  }

  function Entry(blocks: seq<Block>, ind: nat, j: nat): nat
    requires j < NINDIRECT
  {
    if ind == 0 || ind >= |blocks| then 0 else WordAt(blocks[ind], j)
  }

  /** A block number in a slot is one that this slot owns. */
  ghost predicate SlotOk(blocks: seq<Block>, inodes: seq<Inode>, owner: map<nat, Slot>, i: int, k: int) {
    0 <= i < |inodes| && 0 <= k <= INDIRECT && |inodes[i].addrs| == NDIRECT + 1 &&
    var a := Addr(blocks, inodes[i], k);
    a == 0 || (a in owner && owner[a] == Slot(i, k))
  }

  ghost predicate OwnerOk(sb: Super, blocks: seq<Block>, inodes: seq<Inode>, owner: map<nat, Slot>, a: nat) {
    a in owner && sb.nmeta <= a < sb.size
    && var s := owner[a];
       s.ino < |inodes| && s.k <= INDIRECT && |inodes[s.ino].addrs| == NDIRECT + 1
       && Addr(blocks, inodes[s.ino], s.k) == a
  }

  ghost predicate BitOk(sb: Super, blocks: seq<Block>, owner: map<nat, Slot>, b: nat) {
    b < sb.size && BBlock(sb, b) < |blocks| && (Used(sb, blocks, b) <==> b < sb.nmeta || b in owner)
  }

  /** Every block number in a slot is owned by that slot, and every owner holds what it owns. */
  ghost predicate SlotsInv(sb: Super, blocks: seq<Block>, inodes: seq<Inode>, owner: map<nat, Slot>) {
    && Shape(sb, blocks, inodes)
    && (forall i, k | 0 <= i < |inodes| && 0 <= k <= INDIRECT :: SlotOk(blocks, inodes, owner, i, k))
    && (forall a | a in owner :: OwnerOk(sb, blocks, inodes, owner, a))
  }

  /** A block is marked used exactly if it is metadata or owned. */
  ghost predicate BitsInv(sb: Super, blocks: seq<Block>, owner: map<nat, Slot>) {
    forall b: nat | b < sb.size :: BitOk(sb, blocks, owner, b)
  }

  ghost predicate Inv(sb: Super, blocks: seq<Block>, inodes: seq<Inode>, owner: map<nat, Slot>) {
    SlotsInv(sb, blocks, inodes, owner) && BitsInv(sb, blocks, owner)
  }

  /** A fresh file system, as mkfs lays it out: empty inodes, and only the metadata marked used. */
  lemma FreshInv(sb: Super, blocks: seq<Block>, inodes: seq<Inode>)
    requires Shape(sb, blocks, inodes)
    requires forall i | 0 <= i < |inodes| :: inodes[i].addrs == seq(NDIRECT + 1, _ => 0)
    requires forall b: nat | b < sb.size :: BBlock(sb, b) < |blocks| && (Used(sb, blocks, b) <==> b < sb.nmeta)
    ensures Inv(sb, blocks, inodes, map[])
  {
    forall i, k | 0 <= i < |inodes| && 0 <= k <= INDIRECT ensures SlotOk(blocks, inodes, map[], i, k) {
      assert Addr(blocks, inodes[i], k) == 0;
    }
  }

  lemma BBlockMeta(sb: Super, b: nat)
    requires sb.Ok() && b < sb.size
    ensures BBlock(sb, b) < sb.nmeta
  {
    assert b / BPB <= sb.size / BPB;
  }

  // ---- the consequences a reader wants: disjoint, marked, in range ----

  /** Two different slots never hold the same block; every block held is a marked data block. */
  lemma Ownership(sb: Super, blocks: seq<Block>, inodes: seq<Inode>, owner: map<nat, Slot>, i: nat, k: nat, j: nat,
                  l: nat)
    requires Inv(sb, blocks, inodes, owner) && i < |inodes| && k <= INDIRECT && j < |inodes| && l <= INDIRECT
    ensures var a := Addr(blocks, inodes[i], k);
            a != 0 ==> && sb.nmeta <= a < sb.size && BBlock(sb, a) < |blocks| && Used(sb, blocks, a)
                       && (a == Addr(blocks, inodes[j], l) ==> i == j && k == l)
  {
    assert SlotOk(blocks, inodes, owner, i, k) && SlotOk(blocks, inodes, owner, j, l);
    var a := Addr(blocks, inodes[i], k);
    if a != 0 {
      assert OwnerOk(sb, blocks, inodes, owner, a);
      assert BitOk(sb, blocks, owner, a);
    }
  }

  // ---- changing the free map ----

  function Marked(sb: Super, blocks: seq<Block>, b: nat): seq<Block>
    requires BBlock(sb, b) < |blocks|
  {
    blocks[BBlock(sb, b) := SetBlockBit(blocks[BBlock(sb, b)], b % BPB)]
  }

  function Unmarked(sb: Super, blocks: seq<Block>, b: nat): seq<Block>
    requires BBlock(sb, b) < |blocks|
  {
    blocks[BBlock(sb, b) := ClearBlockBit(blocks[BBlock(sb, b)], b % BPB)]
  }

  lemma MarkBits(sb: Super, blocks: seq<Block>, b: nat, c: nat)
    requires sb.Ok() && |blocks| == sb.size && b < sb.size && c < sb.size && BBlock(sb, b) < |blocks|
             && BBlock(sb, c) < |blocks|
    ensures Used(sb, Marked(sb, blocks, b), c) <==> c == b || Used(sb, blocks, c)
    ensures Used(sb, Unmarked(sb, blocks, b), c) <==> c != b && Used(sb, blocks, c)
  {
    BlockBitChange(blocks[BBlock(sb, b)], b % BPB, c % BPB);
    if BBlock(sb, b) == BBlock(sb, c) && b % BPB == c % BPB {
      assert b / BPB == c / BPB;
    }
  }

  /** Blocks from `nmeta` on are not part of the free map. */
  lemma DataWriteKeepsBits(sb: Super, blocks: seq<Block>, a: nat, x: Block, c: nat)
    requires sb.Ok() && |blocks| == sb.size && sb.nmeta <= a < sb.size && c < sb.size && BBlock(sb, c) < |blocks|
    ensures Used(sb, blocks[a := x], c) <==> Used(sb, blocks, c)
  {
    BBlockMeta(sb, c);
  }

  /** Changing a block that is not an inode's indirect block leaves the inode's slots alone. */
  lemma AddrFrame(blocks: seq<Block>, blocks': seq<Block>, ip: Inode, k: nat)
    requires |ip.addrs| == NDIRECT + 1 && k <= INDIRECT && |blocks'| == |blocks|
    requires var ind := ip.addrs[NDIRECT]; ind != 0 && ind < |blocks| ==> blocks'[ind] == blocks[ind]
    ensures Addr(blocks', ip, k) == Addr(blocks, ip, k)
  {
  }

  // ---- allocation: mark a free block, zero it, and store its number in an empty slot ----

  /** The blocks after `balloc` returns `b`. */
  function Allocated(sb: Super, blocks: seq<Block>, b: nat): seq<Block>
    requires BBlock(sb, b) < |blocks| && b < |blocks|
  {
    Marked(sb, blocks, b)[b := ZeroBlock()]
  }

  lemma AllocatedBits(sb: Super, blocks: seq<Block>, b: nat, c: nat)
    requires sb.Ok() && |blocks| == sb.size && sb.nmeta <= b < sb.size && c < sb.size
    ensures BBlock(sb, b) < |blocks| && BBlock(sb, c) < |blocks|
    ensures Used(sb, Allocated(sb, blocks, b), c) <==> c == b || Used(sb, blocks, c)
  {
    BBlockMeta(sb, b);
    BBlockMeta(sb, c);
    MarkBits(sb, blocks, b, c);
    DataWriteKeepsBits(sb, Marked(sb, blocks, b), b, ZeroBlock(), c);
  }

  /** A free block is a data block that no slot owns. */
  lemma FreeBlock(sb: Super, blocks: seq<Block>, inodes: seq<Inode>, owner: map<nat, Slot>, b: nat)
    requires Inv(sb, blocks, inodes, owner) && b < sb.size && BBlock(sb, b) < |blocks| && !Used(sb, blocks, b)
    ensures sb.nmeta <= b && b !in owner
  {
    assert BitOk(sb, blocks, owner, b);
  }

  /** The blocks other than the free map and `b` are as before an allocation of `b`. */
  lemma AllocatedElsewhere(sb: Super, blocks: seq<Block>, b: nat, c: nat)
    requires sb.Ok() && |blocks| == sb.size && sb.nmeta <= b < sb.size
    requires sb.nmeta <= c < sb.size && c != b
    ensures BBlock(sb, b) < |blocks|
    ensures Allocated(sb, blocks, b)[c] == blocks[c]
  {
    BBlockMeta(sb, b);
  }

  /** Allocation of a free block leaves every slot as it was. */
  lemma AllocatedAddr(sb: Super, blocks: seq<Block>, inodes: seq<Inode>, owner: map<nat, Slot>, b: nat, i: nat, k: nat)
    requires Inv(sb, blocks, inodes, owner) && sb.nmeta <= b < sb.size && b !in owner && i < |inodes| && k <= INDIRECT
    ensures BBlock(sb, b) < |blocks|
    ensures Addr(Allocated(sb, blocks, b), inodes[i], k) == Addr(blocks, inodes[i], k)
  {
    BBlockMeta(sb, b);
    assert SlotOk(blocks, inodes, owner, i, INDIRECT);
    var ind := inodes[i].addrs[NDIRECT];
    if ind != 0 {
      assert OwnerOk(sb, blocks, inodes, owner, ind);
      AllocatedElsewhere(sb, blocks, b, ind);
    }
    AddrFrame(blocks, Allocated(sb, blocks, b), inodes[i], k);
  }

  /** Storing `b` in an empty direct slot, or as the indirect block. */
  function SetAddr(inodes: seq<Inode>, i: nat, d: nat, b: nat): seq<Inode>
    requires i < |inodes| && d < |inodes[i].addrs|
  {
    inodes[i := inodes[i].(addrs := inodes[i].addrs[d := b])]
  }

  /** The state of the slots after block `b` has been given to slot (`i`, `k`): that slot, and no other. */
  ghost predicate Gives(blocks: seq<Block>, inodes: seq<Inode>, blocks': seq<Block>, inodes': seq<Inode>, i: nat,
                        k: nat, b: nat)
  {
    && |blocks'| == |blocks| && |inodes'| == |inodes|
    && (forall j | 0 <= j < |inodes| :: |inodes[j].addrs| == NDIRECT + 1 && |inodes'[j].addrs| == NDIRECT + 1)
    && (forall j, l | 0 <= j < |inodes| && 0 <= l <= INDIRECT ::
          GivenAt(blocks, inodes, blocks', inodes', i, k, b, j, l))
  }

  ghost predicate GivenAt(blocks: seq<Block>, inodes: seq<Inode>, blocks': seq<Block>, inodes': seq<Inode>, i: nat,
                          k: nat, b: nat, j: int, l: int)
  {
    && 0 <= j < |inodes| && j < |inodes'| && 0 <= l <= INDIRECT
    && |inodes[j].addrs| == NDIRECT + 1 && |inodes'[j].addrs| == NDIRECT + 1
    && Addr(blocks', inodes'[j], l) == if j == i && l == k then b else Addr(blocks, inodes[j], l)
  }

  /** Allocation keeps the invariant, whatever the kind of slot. */
  lemma GiveKeepsInv(sb: Super, blocks: seq<Block>, inodes: seq<Inode>, owner: map<nat, Slot>,
                     blocks': seq<Block>, inodes': seq<Inode>, i: nat, k: nat, b: nat)
    requires Inv(sb, blocks, inodes, owner) && i < |inodes| && k <= INDIRECT
    requires sb.nmeta <= b < sb.size && b !in owner && Addr(blocks, inodes[i], k) == 0
    requires Gives(blocks, inodes, blocks', inodes', i, k, b)
    requires forall c: nat | c < sb.size ::
               BBlock(sb, c) < |blocks'| && (Used(sb, blocks', c) <==> c == b || Used(sb, blocks, c))
    ensures Inv(sb, blocks', inodes', owner[b := Slot(i, k)])
  {
    var owner' := owner[b := Slot(i, k)];
    forall j, l | 0 <= j < |inodes'| && 0 <= l <= INDIRECT ensures SlotOk(blocks', inodes', owner', j, l) {
      assert SlotOk(blocks, inodes, owner, j, l);
      assert GivenAt(blocks, inodes, blocks', inodes', i, k, b, j, l);
    }
    forall a | a in owner' ensures OwnerOk(sb, blocks', inodes', owner', a) {
      if a != b {
        assert OwnerOk(sb, blocks, inodes, owner, a);
        var s := owner[a];
        assert GivenAt(blocks, inodes, blocks', inodes', i, k, b, s.ino, s.k);
      } else {
        assert GivenAt(blocks, inodes, blocks', inodes', i, k, b, i, k);
      }
    }
    forall c: nat | c < sb.size ensures BitOk(sb, blocks', owner', c) {
      assert BitOk(sb, blocks, owner, c);
    }
  }

  lemma GiveDirect(sb: Super, blocks: seq<Block>, inodes: seq<Inode>, owner: map<nat, Slot>, i: nat, d: nat, b: nat)
    requires Inv(sb, blocks, inodes, owner) && i < |inodes| && d < NDIRECT && inodes[i].addrs[d] == 0
    requires sb.nmeta <= b < sb.size && b !in owner
    ensures BBlock(sb, b) < |blocks|
    ensures Inv(sb, Allocated(sb, blocks, b), SetAddr(inodes, i, d, b), owner[b := Slot(i, d)])
  {
    BBlockMeta(sb, b);
    var blocks', inodes' := Allocated(sb, blocks, b), SetAddr(inodes, i, d, b);
    forall j, l | 0 <= j < |inodes| && 0 <= l <= INDIRECT
      ensures GivenAt(blocks, inodes, blocks', inodes', i, d, b, j, l)
    {
      AllocatedAddr(sb, blocks, inodes, owner, b, j, l);
    }
    forall c: nat | c < sb.size
      ensures BBlock(sb, c) < |blocks'| && (Used(sb, blocks', c) <==> c == b || Used(sb, blocks, c))
    {
      AllocatedBits(sb, blocks, b, c);
    }
    GiveKeepsInv(sb, blocks, inodes, owner, blocks', inodes', i, d, b);
  }

  lemma GiveIndirect(sb: Super, blocks: seq<Block>, inodes: seq<Inode>, owner: map<nat, Slot>, i: nat, b: nat)
    requires Inv(sb, blocks, inodes, owner) && i < |inodes| && inodes[i].addrs[NDIRECT] == 0
    requires sb.nmeta <= b < sb.size && b !in owner
    ensures BBlock(sb, b) < |blocks|
    ensures Inv(sb, Allocated(sb, blocks, b), SetAddr(inodes, i, NDIRECT, b), owner[b := Slot(i, INDIRECT)])
  {
    BBlockMeta(sb, b);
    var blocks', inodes' := Allocated(sb, blocks, b), SetAddr(inodes, i, NDIRECT, b);
    forall j, l | 0 <= j < |inodes| && 0 <= l <= INDIRECT
      ensures GivenAt(blocks, inodes, blocks', inodes', i, INDIRECT, b, j, l)
    {
      AllocatedAddr(sb, blocks, inodes, owner, b, j, l);
      if j == i && NDIRECT <= l < INDIRECT {
        ZeroWords(l - NDIRECT);
      }
    }
    forall c: nat | c < sb.size
      ensures BBlock(sb, c) < |blocks'| && (Used(sb, blocks', c) <==> c == b || Used(sb, blocks, c))
    {
      AllocatedBits(sb, blocks, b, c);
    }
    GiveKeepsInv(sb, blocks, inodes, owner, blocks', inodes', i, INDIRECT, b);
  }

  /** The blocks after `b` has been allocated and entered as entry `j` of indirect block `ind`. */
  function Entered(sb: Super, blocks: seq<Block>, ind: nat, j: nat, b: nat): seq<Block>
    requires BBlock(sb, b) < |blocks| && b < |blocks| && ind < |blocks| && j < NINDIRECT && b < UINT
  {
    var blocks1 := Allocated(sb, blocks, b);
    blocks1[ind := PutWord(blocks1[ind], j, b)]
  }

  lemma EnteredAddr(sb: Super, blocks: seq<Block>, inodes: seq<Inode>, owner: map<nat, Slot>, i: nat, k: nat, b: nat,
                    j: nat, l: nat)
    requires Inv(sb, blocks, inodes, owner) && i < |inodes| && NDIRECT <= k < INDIRECT && j < |inodes| && l <= INDIRECT
    requires inodes[i].addrs[NDIRECT] != 0 && sb.nmeta <= b < sb.size && b !in owner
    ensures BBlock(sb, b) < |blocks| && inodes[i].addrs[NDIRECT] < |blocks|
    ensures Addr(Entered(sb, blocks, inodes[i].addrs[NDIRECT], k - NDIRECT, b), inodes[j], l)
            == if j == i && l == k then b else Addr(blocks, inodes[j], l)
  {
    BBlockMeta(sb, b);
    var ind := inodes[i].addrs[NDIRECT];
    Ownership(sb, blocks, inodes, owner, i, INDIRECT, j, INDIRECT);
    var blocks1, blocks2 := Allocated(sb, blocks, b), Entered(sb, blocks, ind, k - NDIRECT, b);
    AllocatedAddr(sb, blocks, inodes, owner, b, j, l);
    if j == i && NDIRECT <= l < INDIRECT {
      WordChange(blocks1[ind], k - NDIRECT, b, l - NDIRECT);
    } else {
      assert j != i ==> inodes[j].addrs[NDIRECT] != ind;
      if j != i {
        AddrFrame(blocks1, blocks2, inodes[j], l);
      }
    }
  }

  lemma GiveEntry(sb: Super, blocks: seq<Block>, inodes: seq<Inode>, owner: map<nat, Slot>, i: nat, k: nat, b: nat)
    requires Inv(sb, blocks, inodes, owner) && i < |inodes| && NDIRECT <= k < INDIRECT
    requires inodes[i].addrs[NDIRECT] != 0 && Addr(blocks, inodes[i], k) == 0
    requires sb.nmeta <= b < sb.size && b !in owner
    ensures BBlock(sb, b) < |blocks| && sb.nmeta <= inodes[i].addrs[NDIRECT] < |blocks|
    ensures Inv(sb, Entered(sb, blocks, inodes[i].addrs[NDIRECT], k - NDIRECT, b), inodes, owner[b := Slot(i, k)])
  {
    BBlockMeta(sb, b);
    var ind := inodes[i].addrs[NDIRECT];
    Ownership(sb, blocks, inodes, owner, i, INDIRECT, i, INDIRECT);
    var blocks1, blocks' := Allocated(sb, blocks, b), Entered(sb, blocks, ind, k - NDIRECT, b);
    forall j, l | 0 <= j < |inodes| && 0 <= l <= INDIRECT
      ensures GivenAt(blocks, inodes, blocks', inodes, i, k, b, j, l)
    {
      EnteredAddr(sb, blocks, inodes, owner, i, k, b, j, l);
    }
    forall c: nat | c < sb.size
      ensures BBlock(sb, c) < |blocks'| && (Used(sb, blocks', c) <==> c == b || Used(sb, blocks, c))
    {
      AllocatedBits(sb, blocks, b, c);
      DataWriteKeepsBits(sb, blocks1, ind, blocks'[ind], c);
    }
    GiveKeepsInv(sb, blocks, inodes, owner, blocks', inodes, i, k, b);
  }

  // ---- file contents ----

  /** Byte `x` of a file, whatever its size; 0 where no block is mapped. */
  function FileByte(blocks: seq<Block>, ip: Inode, x: nat): Byte
    requires |ip.addrs| == NDIRECT + 1 && x < MAXFILE * BSIZE
  {
    var a := Addr(blocks, ip, x / BSIZE);
    if a == 0 || a >= |blocks| then 0 else blocks[a][x % BSIZE]
  }

  /** The contents of a file. */
  function Content(blocks: seq<Block>, ip: Inode): (c: seq<Byte>)
    requires |ip.addrs| == NDIRECT + 1 && ip.size <= MAXFILE * BSIZE
    ensures |c| == ip.size
  {
    seq(ip.size, x requires 0 <= x < ip.size => FileByte(blocks, ip, x))
  }

  /** No byte of any file changes from one state to the other. */
  ghost predicate SameBytes(blocks: seq<Block>, inodes: seq<Inode>, blocks': seq<Block>, inodes': seq<Inode>) {
    && |inodes'| == |inodes|
    && forall j, x | 0 <= j < |inodes| && 0 <= x < MAXFILE * BSIZE :: SameByte(blocks, inodes, blocks', inodes', j, x)
  }

  ghost predicate SameByte(blocks: seq<Block>, inodes: seq<Inode>, blocks': seq<Block>, inodes': seq<Inode>, j: int,
                           x: int)
  {
    0 <= j < |inodes| && j < |inodes'| && 0 <= x < MAXFILE * BSIZE
    && |inodes[j].addrs| == NDIRECT + 1 && |inodes'[j].addrs| == NDIRECT + 1
    && FileByte(blocks', inodes'[j], x) == FileByte(blocks, inodes[j], x)
  }

  /** Allocation changes no byte of any file: the new block is zero, as the missing one read. */
  lemma GiveKeepsBytes(sb: Super, blocks: seq<Block>, inodes: seq<Inode>, owner: map<nat, Slot>,
                       blocks': seq<Block>, inodes': seq<Inode>, i: nat, k: nat, b: nat)
    requires Inv(sb, blocks, inodes, owner) && i < |inodes| && k <= INDIRECT
    requires sb.nmeta <= b < sb.size && Addr(blocks, inodes[i], k) == 0
    requires Gives(blocks, inodes, blocks', inodes', i, k, b)
    requires blocks'[b] == ZeroBlock()
    requires forall c | c in owner && owner[c].k < INDIRECT && c < |blocks| :: blocks'[c] == blocks[c]
    ensures SameBytes(blocks, inodes, blocks', inodes')
  {
    forall j, x | 0 <= j < |inodes| && 0 <= x < MAXFILE * BSIZE
      ensures SameByte(blocks, inodes, blocks', inodes', j, x)
    {
      var l := x / BSIZE;
      assert l < INDIRECT;
      assert GivenAt(blocks, inodes, blocks', inodes', i, k, b, j, l) && SlotOk(blocks, inodes, owner, j, l);
      var a := Addr(blocks, inodes[j], l);
      if a != 0 {
        assert OwnerOk(sb, blocks, inodes, owner, a);
      }
    }
  }

  /** Overwriting a data block keeps the invariant and changes only the bytes of its slot. */
  lemma DataWrite(sb: Super, blocks: seq<Block>, inodes: seq<Inode>, owner: map<nat, Slot>, i: nat, k: nat, x: Block)
    requires Inv(sb, blocks, inodes, owner) && i < |inodes| && k < INDIRECT && Addr(blocks, inodes[i], k) != 0
    ensures Addr(blocks, inodes[i], k) < |blocks|
    ensures Inv(sb, blocks[Addr(blocks, inodes[i], k) := x], inodes, owner)
  {
    var a := Addr(blocks, inodes[i], k);
    Ownership(sb, blocks, inodes, owner, i, k, i, k);
    var blocks' := blocks[a := x];
    forall j, l | 0 <= j < |inodes| && 0 <= l <= INDIRECT ensures SlotOk(blocks', inodes, owner, j, l) {
      DataWriteAddr(sb, blocks, inodes, owner, i, k, x, j, l);
      assert SlotOk(blocks, inodes, owner, j, l);
    }
    forall c | c in owner ensures OwnerOk(sb, blocks', inodes, owner, c) {
      assert OwnerOk(sb, blocks, inodes, owner, c);
      DataWriteAddr(sb, blocks, inodes, owner, i, k, x, owner[c].ino, owner[c].k);
    }
    forall c: nat | c < sb.size ensures BitOk(sb, blocks', owner, c) {
      assert BitOk(sb, blocks, owner, c);
      DataWriteKeepsBits(sb, blocks, a, x, c);
    }
  }

  lemma DataWriteAddr(sb: Super, blocks: seq<Block>, inodes: seq<Inode>, owner: map<nat, Slot>, i: nat, k: nat,
                      x: Block, j: nat, l: nat)
    requires Inv(sb, blocks, inodes, owner) && i < |inodes| && k < INDIRECT && Addr(blocks, inodes[i], k) != 0
    requires j < |inodes| && l <= INDIRECT
    ensures Addr(blocks, inodes[i], k) < |blocks|
    ensures Addr(blocks[Addr(blocks, inodes[i], k) := x], inodes[j], l) == Addr(blocks, inodes[j], l)
  {
    var a := Addr(blocks, inodes[i], k);
    Ownership(sb, blocks, inodes, owner, i, k, j, INDIRECT);
    AddrFrame(blocks, blocks[a := x], inodes[j], l);
  }

  lemma DataWriteBytes(sb: Super, blocks: seq<Block>, inodes: seq<Inode>, owner: map<nat, Slot>, i: nat, k: nat,
                       x: Block, j: nat, y: nat)
    requires Inv(sb, blocks, inodes, owner) && i < |inodes| && k < INDIRECT && Addr(blocks, inodes[i], k) != 0
    requires j < |inodes| && y < MAXFILE * BSIZE
    ensures Addr(blocks, inodes[i], k) < |blocks|
    ensures FileByte(blocks[Addr(blocks, inodes[i], k) := x], inodes[j], y)
            == if j == i && y / BSIZE == k then x[y % BSIZE] else FileByte(blocks, inodes[j], y)
  {
    DataWriteAddr(sb, blocks, inodes, owner, i, k, x, j, y / BSIZE);
    Ownership(sb, blocks, inodes, owner, i, k, j, y / BSIZE);
  }

  /** The three ways of giving a block, and that none of them changes a byte of any file. */
  lemma GiveDirectBytes(sb: Super, blocks: seq<Block>, inodes: seq<Inode>, owner: map<nat, Slot>, i: nat, d: nat,
                        b: nat)
    requires Inv(sb, blocks, inodes, owner) && i < |inodes| && d < NDIRECT && inodes[i].addrs[d] == 0
    requires sb.nmeta <= b < sb.size && b !in owner
    ensures BBlock(sb, b) < |blocks|
    ensures SameBytes(blocks, inodes, Allocated(sb, blocks, b), SetAddr(inodes, i, d, b))
  {
    BBlockMeta(sb, b);
    var blocks', inodes' := Allocated(sb, blocks, b), SetAddr(inodes, i, d, b);
    forall j, l | 0 <= j < |inodes| && 0 <= l <= INDIRECT
      ensures GivenAt(blocks, inodes, blocks', inodes', i, d, b, j, l)
    {
      AllocatedAddr(sb, blocks, inodes, owner, b, j, l);
    }
    forall c | c in owner && c < |blocks| ensures blocks'[c] == blocks[c] {
      assert OwnerOk(sb, blocks, inodes, owner, c);
      AllocatedElsewhere(sb, blocks, b, c);
    }
    GiveKeepsBytes(sb, blocks, inodes, owner, blocks', inodes', i, d, b);
  }

  lemma GiveIndirectBytes(sb: Super, blocks: seq<Block>, inodes: seq<Inode>, owner: map<nat, Slot>, i: nat, b: nat)
    requires Inv(sb, blocks, inodes, owner) && i < |inodes| && inodes[i].addrs[NDIRECT] == 0
    requires sb.nmeta <= b < sb.size && b !in owner
    ensures BBlock(sb, b) < |blocks|
    ensures SameBytes(blocks, inodes, Allocated(sb, blocks, b), SetAddr(inodes, i, NDIRECT, b))
  {
    BBlockMeta(sb, b);
    var blocks', inodes' := Allocated(sb, blocks, b), SetAddr(inodes, i, NDIRECT, b);
    forall j, l | 0 <= j < |inodes| && 0 <= l <= INDIRECT
      ensures GivenAt(blocks, inodes, blocks', inodes', i, INDIRECT, b, j, l)
    {
      AllocatedAddr(sb, blocks, inodes, owner, b, j, l);
      if j == i && NDIRECT <= l < INDIRECT {
        ZeroWords(l - NDIRECT);
      }
    }
    forall c | c in owner && c < |blocks| ensures blocks'[c] == blocks[c] {
      assert OwnerOk(sb, blocks, inodes, owner, c);
      AllocatedElsewhere(sb, blocks, b, c);
    }
    GiveKeepsBytes(sb, blocks, inodes, owner, blocks', inodes', i, INDIRECT, b);
  }

  lemma GiveEntryBytes(sb: Super, blocks: seq<Block>, inodes: seq<Inode>, owner: map<nat, Slot>, i: nat, k: nat, b: nat)
    requires Inv(sb, blocks, inodes, owner) && i < |inodes| && NDIRECT <= k < INDIRECT
    requires inodes[i].addrs[NDIRECT] != 0 && Addr(blocks, inodes[i], k) == 0
    requires sb.nmeta <= b < sb.size && b !in owner
    ensures BBlock(sb, b) < |blocks| && inodes[i].addrs[NDIRECT] < |blocks|
    ensures SameBytes(blocks, inodes, Entered(sb, blocks, inodes[i].addrs[NDIRECT], k - NDIRECT, b), inodes)
  {
    BBlockMeta(sb, b);
    Ownership(sb, blocks, inodes, owner, i, INDIRECT, i, INDIRECT);
    var ind := inodes[i].addrs[NDIRECT];
    assert SlotOk(blocks, inodes, owner, i, INDIRECT);
    var blocks' := Entered(sb, blocks, ind, k - NDIRECT, b);
    forall j, l | 0 <= j < |inodes| && 0 <= l <= INDIRECT
      ensures GivenAt(blocks, inodes, blocks', inodes, i, k, b, j, l)
    {
      EnteredAddr(sb, blocks, inodes, owner, i, k, b, j, l);
    }
    forall c | c in owner && owner[c].k < INDIRECT && c < |blocks| ensures blocks'[c] == blocks[c] {
      assert OwnerOk(sb, blocks, inodes, owner, c);
      AllocatedElsewhere(sb, blocks, b, c);
    }
    GiveKeepsBytes(sb, blocks, inodes, owner, blocks', inodes, i, k, b);
  }

  // ---- freeing ----

  /** Clearing a block's bit in the free map leaves every slot as it was. */
  lemma UnmarkedAddr(sb: Super, blocks: seq<Block>, inodes: seq<Inode>, owner: map<nat, Slot>, b: nat, i: nat, k: nat)
    requires SlotsInv(sb, blocks, inodes, owner) && b < sb.size && i < |inodes| && k <= INDIRECT
    ensures BBlock(sb, b) < |blocks|
    ensures Addr(Unmarked(sb, blocks, b), inodes[i], k) == Addr(blocks, inodes[i], k)
  {
    BBlockMeta(sb, b);
    assert SlotOk(blocks, inodes, owner, i, INDIRECT);
    var ind := inodes[i].addrs[NDIRECT];
    if ind != 0 {
      assert OwnerOk(sb, blocks, inodes, owner, ind);
    }
    AddrFrame(blocks, Unmarked(sb, blocks, b), inodes[i], k);
  }

  lemma UnmarkedSlots(sb: Super, blocks: seq<Block>, inodes: seq<Inode>, owner: map<nat, Slot>, b: nat)
    requires SlotsInv(sb, blocks, inodes, owner) && b < sb.size
    ensures BBlock(sb, b) < |blocks|
    ensures SlotsInv(sb, Unmarked(sb, blocks, b), inodes, owner)
  {
    BBlockMeta(sb, b);
    var blocks' := Unmarked(sb, blocks, b);
    forall i, k | 0 <= i < |inodes| && 0 <= k <= INDIRECT ensures SlotOk(blocks', inodes, owner, i, k) {
      UnmarkedAddr(sb, blocks, inodes, owner, b, i, k);
      assert SlotOk(blocks, inodes, owner, i, k);
    }
    forall a | a in owner ensures OwnerOk(sb, blocks', inodes, owner, a) {
      assert OwnerOk(sb, blocks, inodes, owner, a);
      UnmarkedAddr(sb, blocks, inodes, owner, b, owner[a].ino, owner[a].k);
    }
  }

  lemma UnmarkedBitsInv(sb: Super, blocks: seq<Block>, owner: map<nat, Slot>, b: nat)
    requires sb.Ok() && |blocks| == sb.size && BitsInv(sb, blocks, owner) && sb.nmeta <= b < sb.size
    ensures BBlock(sb, b) < |blocks|
    ensures BitsInv(sb, Unmarked(sb, blocks, b), owner - {b})
  {
    BBlockMeta(sb, b);
    forall c: nat | c < sb.size ensures BitOk(sb, Unmarked(sb, blocks, b), owner - {b}, c) {
      assert BitOk(sb, blocks, owner, c);
      MarkBits(sb, blocks, b, c);
    }
  }

  /** Emptying a slot whose block has been freed; if it is the indirect slot, its entries go with it. */
  lemma DropSlots(sb: Super, blocks: seq<Block>, inodes: seq<Inode>, owner: map<nat, Slot>, owner': map<nat, Slot>,
                  i: nat, d: nat)
    requires SlotsInv(sb, blocks, inodes, owner) && i < |inodes| && d <= NDIRECT
    requires forall a | a in owner' :: a in owner && owner'[a] == owner[a]
    requires forall a | a in owner ::
               a in owner' <==> !(owner[a].ino == i && (if d < NDIRECT then owner[a].k == d else owner[a].k >= NDIRECT))
    ensures SlotsInv(sb, blocks, SetAddr(inodes, i, d, 0), owner')
  {
    var inodes' := SetAddr(inodes, i, d, 0);
    forall j, k | 0 <= j < |inodes'| && 0 <= k <= INDIRECT ensures SlotOk(blocks, inodes', owner', j, k) {
      assert SlotOk(blocks, inodes, owner, j, k);
    }
    forall a | a in owner' ensures OwnerOk(sb, blocks, inodes', owner', a) {
      assert OwnerOk(sb, blocks, inodes, owner, a);
    }
  }

  /** The blocks that entries up to `j` of inode `i`'s indirect block own. */
  ghost predicate EntryBefore(owner: map<nat, Slot>, i: nat, j: nat, a: nat) {
    a in owner && owner[a].ino == i && NDIRECT <= owner[a].k < NDIRECT + j
  }

  /** The owners left when the first `j` entries of inode `i`'s indirect block have been freed. */
  ghost function OwnersAfter(owner: map<nat, Slot>, i: nat, j: nat): map<nat, Slot> {
    map a | a in owner && !EntryBefore(owner, i, j, a) :: owner[a]
  }

  lemma OwnersStep(sb: Super, blocks: seq<Block>, inodes: seq<Inode>, owner: map<nat, Slot>, i: nat, j: nat)
    requires SlotsInv(sb, blocks, inodes, owner) && i < |inodes| && j < NINDIRECT
    ensures var a := Addr(blocks, inodes[i], NDIRECT + j);
            && (a != 0 ==> a in OwnersAfter(owner, i, j) && sb.nmeta <= a < sb.size
                           && OwnersAfter(owner, i, j + 1) == OwnersAfter(owner, i, j) - {a})
            && (a == 0 ==> OwnersAfter(owner, i, j + 1) == OwnersAfter(owner, i, j))
  {
    var a := Addr(blocks, inodes[i], NDIRECT + j);
    assert SlotOk(blocks, inodes, owner, i, NDIRECT + j);
    if a != 0 {
      assert OwnerOk(sb, blocks, inodes, owner, a);
    }
    forall c | c in owner && owner[c] == Slot(i, NDIRECT + j) ensures c == a {
      assert OwnerOk(sb, blocks, inodes, owner, c);
    }
  }

  // ---- files without holes ----

  /** Every block that starts below the size is mapped. */
  ghost predicate NoHoles(blocks: seq<Block>, ip: Inode) {
    && |ip.addrs| == NDIRECT + 1 && ip.size <= MAXFILE * BSIZE
    && forall k | 0 <= k < MAXFILE :: HoleFree(blocks, ip, k)
  }

  ghost predicate HoleFree(blocks: seq<Block>, ip: Inode, k: int) {
    0 <= k < MAXFILE && |ip.addrs| == NDIRECT + 1 && (k * BSIZE < ip.size ==> Addr(blocks, ip, k) != 0)
  }

  /** All blocks that are not part of the metadata are the same. */
  ghost predicate SameData(sb: Super, blocks: seq<Block>, blocks': seq<Block>) {
    |blocks'| == |blocks| && forall c: nat | sb.nmeta <= c < |blocks| :: blocks'[c] == blocks[c]
  }

  /** No file has holes. */
  ghost predicate Whole(blocks: seq<Block>, inodes: seq<Inode>) {
    forall i | 0 <= i < |inodes| :: NoHoles(blocks, inodes[i])
  }

  /** An empty file has none. */
  lemma FreshWhole(blocks: seq<Block>, inodes: seq<Inode>)
    requires forall i | 0 <= i < |inodes| :: |inodes[i].addrs| == NDIRECT + 1 && inodes[i].size == 0
    ensures Whole(blocks, inodes)
  {
    forall i | 0 <= i < |inodes| ensures NoHoles(blocks, inodes[i]) {
      forall k | 0 <= k < MAXFILE ensures HoleFree(blocks, inodes[i], k) {
      }
    }
  }

  /** Emptying one file, with the data of all others in place, makes none. */
  lemma EmptiedWhole(sb: Super, b0: seq<Block>, n0: seq<Inode>, owner0: map<nat, Slot>,
                     b: seq<Block>, n: seq<Inode>, i: nat)
    requires Inv(sb, b0, n0, owner0) && Whole(b0, n0) && SameData(sb, b0, b) && i < |n0| == |n|
    requires n == n0[i := n[i]] && n[i].size == 0 && |n[i].addrs| == NDIRECT + 1
    ensures Whole(b, n)
  {
    forall j | 0 <= j < |n| ensures NoHoles(b, n[j]) {
      assert NoHoles(b0, n0[j]);
      var ip := n[j];
      forall k | 0 <= k < MAXFILE ensures HoleFree(b, ip, k) {
        assert HoleFree(b0, n0[j], k);
        Ownership(sb, b0, n0, owner0, j, INDIRECT, j, INDIRECT);
      }
    }
  }

  // ---- inodes in their blocks ----

  /** Words in one inode; the first two hold its type, its device and its link count. */
  const IWORDS: nat := 16

  ghost predicate Storable(ip: Inode) {
    |ip.addrs| == NDIRECT + 1 && ip.size < UINT && AreWords(ip.addrs)
  }

  /** Word `k` of the inode at place `t` of an inode block. */
  function DinodeWord(b: Block, t: nat, k: nat): nat
    requires t < IPB && k < IWORDS
  {
    WordAt(b, IWORDS * t + k)
  }

  function DinodeAt(b: Block, t: nat): (ip: Inode)
    requires t < IPB
  {
    Inode(DinodeWord(b, t, 2), seq<nat>(NDIRECT + 1, k requires 0 <= k < NDIRECT + 1 => DinodeWord(b, t, k + 3)))
  }

  function PutDinode(b: Block, t: nat, ip: Inode): Block
    requires t < IPB && Storable(ip)
  {
    PutWords(b, IWORDS * t + 2, [ip.size] + ip.addrs, NDIRECT + 2)
  }

  lemma DinodeWordChange(b: Block, t: nat, ip: Inode, u: nat, k: nat)
    requires t < IPB && u < IPB && k < IWORDS && Storable(ip)
    ensures DinodeWord(PutDinode(b, t, ip), u, k) ==
            if u != t || k < 2 then DinodeWord(b, u, k) else if k == 2 then ip.size else ip.addrs[k - 3]
  {
    WordsChange(b, IWORDS * t + 2, [ip.size] + ip.addrs, NDIRECT + 2, IWORDS * u + k);
  }

  /** Storing an inode changes no other in its block. */
  lemma DinodeChange(b: Block, t: nat, ip: Inode, u: nat)
    requires t < IPB && u < IPB && Storable(ip)
    ensures DinodeAt(PutDinode(b, t, ip), u) == if u == t then ip else DinodeAt(b, u)
  {
    var c := PutDinode(b, t, ip);
    DinodeWordChange(b, t, ip, u, 2);
    forall k | 0 <= k < NDIRECT + 1
      ensures DinodeAt(c, u).addrs[k] == if u == t then ip.addrs[k] else DinodeAt(b, u).addrs[k]
    {
      DinodeWordChange(b, t, ip, u, k + 3);
    }
  }

  /** The inode as the inode blocks hold it. */
  function Dinode(iblocks: seq<Block>, i: nat): Inode
    requires i / IPB < |iblocks|
  {
    DinodeAt(iblocks[i / IPB], i % IPB)
  }

  /** Between the two states of the inode blocks inode `i` became `ip`, and no other changed. */
  ghost predicate Updated(before: seq<Block>, after: seq<Block>, i: nat, ip: Inode) {
    && |after| == |before| && i / IPB < |before|
    && forall j: nat | j / IPB < |before| :: Dinode(after, j) == if j == i then ip else Dinode(before, j)
  }

  lemma PutUpdates(iblocks: seq<Block>, i: nat, ip: Inode)
    requires i / IPB < |iblocks| && Storable(ip)
    ensures Updated(iblocks, iblocks[i / IPB := PutDinode(iblocks[i / IPB], i % IPB, ip)], i, ip)
  {
    var after := iblocks[i / IPB := PutDinode(iblocks[i / IPB], i % IPB, ip)];
    forall j: nat | j / IPB < |iblocks| ensures Dinode(after, j) == if j == i then ip else Dinode(iblocks, j) {
      DinodeChange(iblocks[i / IPB], i % IPB, ip, j % IPB);
    }
  }

  lemma UpdatedTrans(a: seq<Block>, b: seq<Block>, c: seq<Block>, i: nat, x: Inode, y: Inode)
    requires Updated(a, b, i, x) && Updated(b, c, i, y)
    ensures Updated(a, c, i, y)
  {
  }

  lemma InodeStorable(sb: Super, blocks: seq<Block>, inodes: seq<Inode>, owner: map<nat, Slot>, i: nat)
    requires Inv(sb, blocks, inodes, owner) && i < |inodes| && inodes[i].size < UINT
    ensures Storable(inodes[i])
  {
    forall k | 0 <= k < NDIRECT + 1 ensures inodes[i].addrs[k] < UINT {
      var l := if k < NDIRECT then k else INDIRECT;
      Ownership(sb, blocks, inodes, owner, i, l, i, l);
    }
  }
}
