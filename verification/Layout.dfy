/** The on-disk layout of the file system (fs.h): free map, inodes, and the words and bits in them. */
module Layout {
  import opened Blocks

  const BPB: nat := 8 * BSIZE
  const NDIRECT: nat := 12
  const NINDIRECT: nat := 128
  const MAXFILE: nat := NDIRECT + NINDIRECT
  const IPB: nat := 8

  /** The superblock.  Blocks below `datastart` hold metadata. */
  datatype Super = Super(size: nat, ninodes: nat, inodestart: nat, bmapstart: nat, datastart: nat) {
    predicate Valid() {
      && 0 < inodestart && inodestart + ninodes / IPB < bmapstart
      && bmapstart + size / BPB < datastart <= size < WORD_LIMIT
    }

    function Bblock(b: nat): nat { b / BPB + bmapstart }
    function Iblock(i: nat): nat { i / IPB + inodestart }
  }

  // ---------------------------------------------------------------- bits

  function Exp2(n: nat): nat { if n == 0 then 1 else 2 * Exp2(n - 1) }

  /** x & (1 << k) */
  predicate ByteBit(x: nat, k: nat) {
    if k == 0 then x % 2 == 1 else ByteBit(x / 2, k - 1)
  }

  /** x | (1 << k) on n-bit numbers, used only when the bit is clear. */
  function SetByteBit(n: nat, x: nat, k: nat): (y: nat)
    requires k < n && x < Exp2(n) && !ByteBit(x, k)
    ensures y < Exp2(n) && forall j: nat :: ByteBit(y, j) == (j == k || ByteBit(x, j))
  {
    if k == 0 then x + 1 else x % 2 + 2 * SetByteBit(n - 1, x / 2, k - 1)
  }

  /** x & ~(1 << k) on n-bit numbers, used only when the bit is set. */
  function ClearByteBit(n: nat, x: nat, k: nat): (y: nat)
    requires k < n && x < Exp2(n) && ByteBit(x, k)
    ensures y < Exp2(n) && forall j: nat :: ByteBit(y, j) == (j != k && ByteBit(x, j))
  {
    if k == 0 then x - 1 else x % 2 + 2 * ClearByteBit(n - 1, x / 2, k - 1)
  }

  lemma Exp2Of8()
    ensures Exp2(8) == 256
  {
    assert Exp2(4) == 16;
  }

  /** Bit i of a free-map block. */
  predicate BitOf(b: Block, i: nat)
    requires i < BPB
  {
    ByteBit(b[i / 8], i % 8)
  }

  function SetBitOf(b: Block, i: nat): (r: Block)
    requires i < BPB && !BitOf(b, i)
    ensures forall j :: 0 <= j < BPB ==> BitOf(r, j) == (j == i || BitOf(b, j))
  {
    Exp2Of8();
    b[i / 8 := SetByteBit(8, b[i / 8], i % 8)]
  }

  function ClearBitOf(b: Block, i: nat): (r: Block)
    requires i < BPB && BitOf(b, i)
    ensures forall j :: 0 <= j < BPB ==> BitOf(r, j) == (j != i && BitOf(b, j))
  {
    Exp2Of8();
    b[i / 8 := ClearByteBit(8, b[i / 8], i % 8)]
  }

  // ---------------------------------------------------------------- inodes

  type Half = x: int | 0 <= x < 65536

  datatype DInode = DInode(typ: Half, major: Half, minor: Half, nlink: Half, size: Word, addrs: seq<Word>) {
    predicate Valid() { |addrs| == NDIRECT + 1 }
  }

  function WordsOf(ip: DInode): (ws: seq<Word>)
    requires ip.Valid()
    ensures |ws| == 16
  {
    [ip.typ + 65536 * ip.major, ip.minor + 65536 * ip.nlink, ip.size] + ip.addrs
  }

  function OfWords(ws: seq<Word>): (ip: DInode)
    requires |ws| == 16
    ensures ip.Valid()
  {
    DInode(ws[0] % 65536, ws[0] / 65536, ws[1] % 65536, ws[1] / 65536, ws[2], ws[3..])
  }

  function PutWords(b: Block, base: nat, ws: seq<Word>): Block
    requires base + |ws| <= 128
  {
    if ws == [] then b else PutWord(PutWords(b, base, ws[..|ws| - 1]), base + |ws| - 1, ws[|ws| - 1])
  }

  lemma {:induction false} WordOfPutWords(b: Block, base: nat, ws: seq<Word>, j: nat)
    requires base + |ws| <= 128 && j < 128
    ensures WordAt(PutWords(b, base, ws), j) == if base <= j < base + |ws| then ws[j - base] else WordAt(b, j)
  {
    if ws != [] {
      var front := ws[..|ws| - 1];
      WordOfPutWords(b, base, front, j);
      WordOfPut(PutWords(b, base, front), base + |ws| - 1, ws[|ws| - 1], j);
    }
  }

  function GetWords(b: Block, base: nat, n: nat): (ws: seq<Word>)
    requires base + n <= 128
    ensures |ws| == n && forall j :: 0 <= j < n ==> ws[j] == WordAt(b, base + j)
  {
    if n == 0 then [] else GetWords(b, base, n - 1) + [WordAt(b, base + n - 1)]
  }

  /** Inode i as it is in its block. */
  function InodeIn(b: Block, i: nat): (ip: DInode)
    ensures ip.Valid()
  {
    OfWords(GetWords(b, i % IPB * 16, 16))
  }

  function PutInode(b: Block, i: nat, ip: DInode): Block
    requires ip.Valid()
  {
    PutWords(b, i % IPB * 16, WordsOf(ip))
  }

  lemma InodeWords(ip: DInode)
    requires ip.Valid()
    ensures OfWords(WordsOf(ip)) == ip
  {
    assert WordsOf(ip)[3..] == ip.addrs;
  }

  function HalfAt(b: Block, o: nat): int
    requires o + 2 <= BSIZE
  {
    (b[o] as int) + 256 * (b[o + 1] as int)
  }

  /** The two halves of a word. */
  lemma Halves(b: Block, j: nat, low: Half, high: Half)
    requires j < 128 && WordAt(b, j) == low + 65536 * high
    ensures HalfAt(b, 4 * j) == low && HalfAt(b, 4 * j + 2) == high
  {
    var x, y := HalfAt(b, 4 * j), HalfAt(b, 4 * j + 2);
    assert WordAt(b, j) == x + 65536 * y && 0 <= x < 65536;
  }

  /** struct dinode: where each field of inode i lies in its block. */
  lemma InodeFields(b: Block, i: nat, ip: DInode)
    requires ip.Valid()
    ensures var o, b' := 64 * (i % IPB), PutInode(b, i, ip);
            && HalfAt(b', o) == ip.typ && HalfAt(b', o + 2) == ip.major && HalfAt(b', o + 4) == ip.minor && HalfAt(b', o + 6) == ip.nlink
            && HalfAt(b', o + 8) + 65536 * HalfAt(b', o + 10) == ip.size
            && forall k :: 0 <= k <= NDIRECT ==> HalfAt(b', o + 12 + 4 * k) + 65536 * HalfAt(b', o + 14 + 4 * k) == ip.addrs[k]
  {
    hide PutWords, WordAt, HalfAt;
    var base, ws, b' := i % IPB * 16, WordsOf(ip), PutInode(b, i, ip);
    WordOfPutWords(b, base, ws, base);
    WordOfPutWords(b, base, ws, base + 1);
    WordOfPutWords(b, base, ws, base + 2);
    Halves(b', base, ip.typ, ip.major);
    Halves(b', base + 1, ip.minor, ip.nlink);
    WholeWord(b', base + 2);
    assert WordAt(b', base + 2) == ip.size;
    forall k | 0 <= k <= NDIRECT
      ensures HalfAt(b', 4 * base + 12 + 4 * k) + 65536 * HalfAt(b', 4 * base + 14 + 4 * k) == ip.addrs[k]
    {
      WholeWord(b', base + 3 + k);
      WordOfPutWords(b, base, ws, base + 3 + k);
    }
  }

  lemma WholeWord(b: Block, j: nat)
    requires j < 128
    ensures WordAt(b, j) == HalfAt(b, 4 * j) + 65536 * HalfAt(b, 4 * j + 2)
  {
  }

  /** ilock reads back what iupdate wrote, and the other inodes of the block are untouched. */
  lemma InodeRoundTrip(b: Block, i: nat, ip: DInode, j: nat)
    requires ip.Valid()
    ensures InodeIn(PutInode(b, i, ip), j) == if i % IPB == j % IPB then ip else InodeIn(b, j)
  {
    hide GetWords, PutWords, WordAt, OfWords;
    var b' := PutInode(b, i, ip);
    var base, to := i % IPB * 16, j % IPB * 16;
    assert base != to ==> base + 16 <= to || to + 16 <= base;
    forall w | 0 <= w < 16
      ensures GetWords(b', to, 16)[w] == if base == to then WordsOf(ip)[w] else GetWords(b, to, 16)[w]
    {
      WordOfPutWords(b, base, WordsOf(ip), to + w);
    }
    if base == to {
      assert GetWords(b', to, 16) == WordsOf(ip);
      InodeWords(ip);
    } else {
      assert GetWords(b', to, 16) == GetWords(b, to, 16);
    }
  }
}
