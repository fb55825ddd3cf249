/** Disk blocks as 512 bytes, and the little-endian 32-bit words stored in them. */
module Blocks {
  const BSIZE: nat := 512
  const WORD_LIMIT: nat := 0x1_0000_0000

  type Byte = x: int | 0 <= x < 256
  type Block = b: seq<Byte> | |b| == BSIZE witness seq(BSIZE, _ => 0)
  type Word = x: int | 0 <= x < WORD_LIMIT

  /** The disk: one block per block number. */
  type Disk = seq<Block>

  function ZeroBlock(): (z: Block)
    ensures forall i :: 0 <= i < BSIZE ==> z[i] == 0
  {
    seq(BSIZE, _ => 0)
  }

  /** Word i of a block's data, on a little-endian machine. */
  function WordAt(b: Block, i: nat): Word
    requires i < 128
  {
    (b[4 * i] as int) + 256 * (b[4 * i + 1] as int) + 65536 * (b[4 * i + 2] as int) + 16777216 * (b[4 * i + 3] as int)
  }

  function PutWord(b: Block, i: nat, w: Word): Block
    requires i < 128
  {
    b[4 * i := w % 256][4 * i + 1 := w / 256 % 256][4 * i + 2 := w / 65536 % 256][4 * i + 3 := w / 16777216]
  }

  lemma WordOfPut(b: Block, i: nat, w: Word, j: nat)
    requires i < 128 && j < 128
    ensures WordAt(PutWord(b, i, w), j) == if i == j then w else WordAt(b, j)
  {
    hide WordAt;
    if i == j {
      WordBytes(PutWord(b, i, w), i, w % 256, w / 256 % 256, w / 65536 % 256, w / 16777216);
      BytesOfWord(w);
    } else {
      var b' := PutWord(b, i, w);
      assert forall k :: 4 * j <= k < 4 * j + 4 ==> b'[k] == b[k];
      SameWord(b, b', j);
    }
  }

  lemma WordBytes(b: Block, i: nat, w0: Byte, w1: Byte, w2: Byte, w3: Byte)
    requires i < 128 && b[4 * i] == w0 && b[4 * i + 1] == w1 && b[4 * i + 2] == w2 && b[4 * i + 3] == w3
    ensures WordAt(b, i) == w0 + 256 * w1 + 65536 * w2 + 16777216 * w3
  {
  }

  lemma SameWord(b: Block, b': Block, j: nat)
    requires j < 128 && forall k :: 4 * j <= k < 4 * j + 4 ==> b'[k] == b[k]
    ensures WordAt(b', j) == WordAt(b, j)
  {
  }

  /** The four bytes of a word. */
  lemma BytesOfWord(w: Word)
    ensures w == w % 256 + 256 * (w / 256 % 256) + 65536 * (w / 65536 % 256) + 16777216 * (w / 16777216)
  {
    var q1 := w / 256;
    assert w == 256 * q1 + w % 256;
    var q2 := q1 / 256;
    assert q1 == 256 * q2 + q1 % 256;
    assert q2 == w / 65536;
    var q3 := q2 / 256;
    assert q2 == 256 * q3 + q2 % 256;
    assert q3 == w / 16777216;
  }

  lemma WordOfZero(j: nat)
    requires j < 128
    ensures WordAt(ZeroBlock(), j) == 0
  {
  }
}
