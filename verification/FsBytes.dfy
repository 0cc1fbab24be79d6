/** Disk blocks as bytes: the bits of a free-map block and the 32-bit words of an indirect block. */
module FsBytes {
  const BSIZE: nat := 512
  /** Bits in one block. */
  const BPB: nat := 4096
  /** Words in one block. */
  const NINDIRECT: nat := 128
  const UINT: nat := 0x1_0000_0000

  type Byte = b: int | 0 <= b < 256
  type Block = b: seq<Byte> | |b| == BSIZE witness seq(BSIZE, _ => 0)

  function ZeroBlock(): Block {
    seq(BSIZE, _ => 0)
  }

  // ---- bits of a number ----

  /** Bit `k` of `x`, counted from the least significant. */
  predicate Bit(x: nat, k: nat) {
    if k == 0 then x % 2 == 1 else Bit(x / 2, k - 1)
  }

  /** `x | (1 << k)` */
  function OrBit(x: nat, k: nat): nat {
    if k == 0 then x / 2 * 2 + 1 else OrBit(x / 2, k - 1) * 2 + x % 2
  }

  /** `x & ~(1 << k)` */
  function ClearBit(x: nat, k: nat): nat {
    if k == 0 then x / 2 * 2 else ClearBit(x / 2, k - 1) * 2 + x % 2
  }

  function Pow2(w: nat): nat {
    if w == 0 then 1 else 2 * Pow2(w - 1)
  }

  lemma {:induction false} BitRange(x: nat, k: nat, w: nat)
    requires x < Pow2(w) && k < w
    ensures OrBit(x, k) < Pow2(w) && ClearBit(x, k) < Pow2(w)
    decreases k
  {
    if k > 0 {
      BitRange(x / 2, k - 1, w - 1);
    }
  }

  lemma {:induction false} BitChange(x: nat, k: nat, j: nat)
    ensures Bit(OrBit(x, k), j) <==> j == k || Bit(x, j)
    ensures Bit(ClearBit(x, k), j) <==> j != k && Bit(x, j)
    decreases k
  {
    if k > 0 && j > 0 {
      BitChange(x / 2, k - 1, j - 1);
    }
  }

  // ---- bits of a block ----

  predicate BlockBit(b: Block, i: nat)
    requires i < BPB
  {
    Bit(b[i / 8], i % 8)
  }

  function SetBlockBit(b: Block, i: nat): Block
    requires i < BPB
  {
    BitRange(b[i / 8], i % 8, 8);
    assert Pow2(8) == 256;
    b[i / 8 := OrBit(b[i / 8], i % 8)]
  }

  function ClearBlockBit(b: Block, i: nat): Block
    requires i < BPB
  {
    BitRange(b[i / 8], i % 8, 8);
    assert Pow2(8) == 256;
    b[i / 8 := ClearBit(b[i / 8], i % 8)]
  }

  /** Setting or clearing a bit of a free-map block changes that bit and no other. */
  lemma BlockBitChange(b: Block, i: nat, j: nat)
    requires i < BPB && j < BPB
    ensures BlockBit(SetBlockBit(b, i), j) <==> j == i || BlockBit(b, j)
    ensures BlockBit(ClearBlockBit(b, i), j) <==> j != i && BlockBit(b, j)
  {
    BitChange(b[i / 8], i % 8, j % 8);
  }

  // ---- words of a block ----

  /** Word `j` of a block, little-endian. */
  function WordAt(b: Block, j: nat): nat
    requires j < NINDIRECT
  {
    var b0: int, b1: int, b2: int, b3: int := b[4 * j], b[4 * j + 1], b[4 * j + 2], b[4 * j + 3];
    b0 + 0x100 * b1 + 0x1_0000 * b2 + 0x100_0000 * b3
  }

  function PutWord(b: Block, j: nat, w: nat): Block
    requires j < NINDIRECT && w < UINT
  {
    var w1 := w / 0x100;
    var w2 := w1 / 0x100;
    b[4 * j := w % 0x100][4 * j + 1 := w1 % 0x100][4 * j + 2 := w2 % 0x100][4 * j + 3 := w2 / 0x100]
  }

  /** Storing a word changes that word and no other. */
  lemma WordChange(b: Block, j: nat, w: nat, i: nat)
    requires j < NINDIRECT && i < NINDIRECT && w < UINT
    ensures WordAt(PutWord(b, j, w), i) == if i == j then w else WordAt(b, i)
  {
    var c := PutWord(b, j, w);
    if i == j {
      var w1 := w / 0x100;
      var w2 := w1 / 0x100;
      assert c[4 * j] == w % 0x100 && c[4 * j + 1] == w1 % 0x100 && c[4 * j + 2] == w2 % 0x100
             && c[4 * j + 3] == w2 / 0x100;
    } else {
      assert c[4 * i] == b[4 * i] && c[4 * i + 1] == b[4 * i + 1];
      assert c[4 * i + 2] == b[4 * i + 2] && c[4 * i + 3] == b[4 * i + 3];
    }
  }

  ghost predicate AreWords(ws: seq<nat>) {
    forall k | 0 <= k < |ws| :: ws[k] < UINT
  }

  /** The block with the first `n` of the given words stored from word `at` on. */
  function PutWords(b: Block, at: nat, ws: seq<nat>, n: nat): Block
    requires n <= |ws| && at + n <= NINDIRECT && AreWords(ws)
  {
    if n == 0 then b else PutWord(PutWords(b, at, ws, n - 1), at + n - 1, ws[n - 1])
  }

  lemma {:induction false} WordsChange(b: Block, at: nat, ws: seq<nat>, n: nat, i: nat)
    requires n <= |ws| && at + n <= NINDIRECT && AreWords(ws) && i < NINDIRECT
    ensures WordAt(PutWords(b, at, ws, n), i) == if at <= i < at + n then ws[i - at] else WordAt(b, i)
  {
    if n > 0 {
      WordsChange(b, at, ws, n - 1, i);
      WordChange(PutWords(b, at, ws, n - 1), at + n - 1, ws[n - 1], i);
    }
  }

  // ---- byte ranges of a block ----

  /** The block after `memmove(data + at, bytes, |bytes|)`. */
  function Splice(b: Block, at: nat, bytes: seq<Byte>): Block
    requires at + |bytes| <= BSIZE
  {
    seq(BSIZE, x requires 0 <= x < BSIZE => if at <= x < at + |bytes| then bytes[x - at] else b[x])
  }

  lemma ZeroWords(j: nat)
    requires j < NINDIRECT
    ensures WordAt(ZeroBlock(), j) == 0
  {
  }
}
