/**
 filewrite (file.c): a write cut into chunks, one log transaction each.  The chunks are run on
 the log machine, one operation alone in the log after another, and every point at which the
 machine may stop is looked at.
 */
module FileWrite {
  import opened Common
  import opened Blocks
  import opened Layout
  import opened Ownership
  import opened FileSpec
  import opened Files
  import opened Transaction
  import LogMachine
  import LogRuns

  /** ((LOGSIZE - 1 - 1 - 2) / 2) * 512 */
  const CHUNK: nat := (LOGSIZE - 1 - 1 - 2) / 2 * 512

  class OpenFile {
    const writable: bool
    const ip: Inode
    var off: Word

    constructor (ip: Inode, off: Word, writable: bool)
      ensures this.ip == ip && this.off == off && this.writable == writable
    {
      this.ip, this.off, this.writable := ip, off, writable;
    }
  }

  /** How much of the n bytes the first k chunks carry. */
  function Sent(n: int, k: nat): nat {
    if n <= 0 then 0 else if k * CHUNK < n then k * CHUNK else n
  }

  /** The number of chunks that fit below the largest file size. */
  function Fitting(off: nat, n: int): nat
    requires off <= MAXFILE * BSIZE
  {
    if n <= 0 then 0 else if off + n <= MAXFILE * BSIZE then (n + CHUNK - 1) / CHUNK else (MAXFILE * BSIZE - off) / CHUNK
  }

  /** No chunk logs more than 14 data blocks, the indirect table, the inode and the free map. */
  lemma ChunkFits(sb: Super, logged: set<nat>, data: set<nat>, table: set<nat>, iblock: nat, off: nat, n: nat)
    requires sb.Valid() && n <= CHUNK && |table| <= 1 && |data| <= Span(off, n)
    requires logged <= BitmapBlocks(sb) + data + table + {iblock}
    ensures |logged| <= 16 + (sb.datastart - sb.bmapstart)
  {
    hide Range, Span;
    ChunkSpan(off, n);
    Subset(logged, BitmapBlocks(sb) + data + table + {iblock});
    assert |BitmapBlocks(sb)| == sb.datastart - sb.bmapstart;
    Union(BitmapBlocks(sb), data);
    Union(BitmapBlocks(sb) + data, table);
    Union(BitmapBlocks(sb) + data + table, {iblock});
  }

  lemma ChunkSpan(off: nat, n: nat)
    requires n <= CHUNK
    ensures Span(off, n) <= 14
  {
    var x := off % BSIZE + n + BSIZE - 1;
    assert CHUNK == 13 * BSIZE;
    assert x < 15 * BSIZE;
    assert x == BSIZE * (x / BSIZE) + x % BSIZE;
  }

  lemma Subset(a: set<nat>, b: set<nat>)
    requires a <= b
    ensures |a| <= |b|
  {
    assert b == a + (b - a);
  }

  lemma Union(a: set<nat>, b: set<nat>)
    ensures |a + b| <= |a| + |b|
  {
    assert a + b == a + (b - a);
    Subset(b - a, b);
  }

  /** A chunk alone in the log always fits. */
  predicate ChunkRoom(sb: Super, c: LogMachine.Config)
    requires c.Valid()
  {
    16 + (sb.datastart - sb.bmapstart) < c.Capacity()
  }

  /** mkfs: 1000 blocks, 30 of them the log, 200 inodes, one free-map block. */
  lemma MkfsRoom()
    ensures var sb, c := Super(1000, 200, 32, 58, 59), LogMachine.Config(2, 30, 1000);
            sb.Valid() && Placed(sb, c) && ChunkRoom(sb, c)
  {
    assert 1000 / BPB == 0 && 200 / IPB == 25;
  }

  /** The number of chunks that are written before one is refused. */
  function Chunks(size: nat, off: nat, n: int): nat
    requires size <= MAXFILE * BSIZE
  {
    if off > size then 0 else Fitting(off, n)
  }

  /** The old bytes overwritten by the first k whole chunks; all of nothing if off is past the end. */
  function AfterChunks(bytes: seq<Byte>, off: nat, addr: seq<Byte>, n: int, k: nat): seq<Byte>
    requires n <= |addr|
  {
    if off <= |bytes| then Overwrite(bytes, off, addr[..Sent(n, k)]) else bytes
  }

  /** Image k holds the old bytes overwritten by the first k whole chunks. */
  predicate PrefixImages(sb: Super, images: seq<Disk>, inum: nat, bytes: seq<Byte>, off: nat, addr: seq<Byte>, n: int)
    requires n <= |addr|
  {
    forall k :: 0 <= k < |images| ==>
      Stored(sb, images[k], inum) == Some(AfterChunks(bytes, off, addr, n, k))
  }

  lemma ChunkQuotient(k: nat, n: nat)
    ensures k * CHUNK <= n <==> k <= n / CHUNK
    ensures n <= k * CHUNK <==> (n + CHUNK - 1) / CHUNK <= k
  {
    assert CHUNK == 6656;
  }

  lemma SentNext(off: nat, n: int, k: nat)
    requires off <= MAXFILE * BSIZE && Sent(n, k) < n
    ensures Sent(n, k) == k * CHUNK
    ensures Sent(n, k + 1) == Sent(n, k) + (if n - Sent(n, k) > CHUNK then CHUNK else n - Sent(n, k))
    ensures off + Sent(n, k + 1) <= MAXFILE * BSIZE <==> k < Fitting(off, n)
  {
    assert CHUNK == 6656;
    ChunkQuotient(k + 1, MAXFILE * BSIZE - off);
    ChunkQuotient(k, n);
  }

  lemma SentAll(off: nat, n: int, k: nat)
    requires off <= MAXFILE * BSIZE && k <= Fitting(off, n) && 0 <= n <= Sent(n, k)
    ensures k == Fitting(off, n) && Sent(n, k) == n && off + n <= MAXFILE * BSIZE
  {
    assert CHUNK == 6656;
    ChunkQuotient(k, MAXFILE * BSIZE - off);
    ChunkQuotient(k, n);
  }

  /** begin_op, ilock, writei of one chunk, iunlock, end_op. */
  method WriteChunk(fs: FileSystem, f: OpenFile, src: seq<Byte>) returns (r: IoResult<nat>)
    requires Placed(fs.sb, fs.c) && fs.Sound(f.ip) && 0 < |src| <= CHUNK
    modifies fs`d, fs`owner, fs`pending, fs`logged, fs`base, fs`writes, f`off, f.ip`addrs, f.ip`size
    ensures fs.InOp() && fs.base == old(fs.d)
    ensures r.Failed? <==> old(f.off > f.ip.size || f.off + |src| > MAXFILE * BSIZE)
    ensures r.Failed? ==> fs.Sound(f.ip) && fs.d == old(fs.d) && f.off == old(f.off)
    ensures r.Failed? ==> f.ip.Value() == old(f.ip.Value())
    ensures r.Done? ==>
      && fs.Sound(f.ip) && r.value == |src|
      && f.ip.size == Max(old(f.ip.size), old(f.off) + |src|) && f.off == old(f.off) + |src|
      && FileBytes(fs.d, f.ip.Value(), f.ip.size)
         == Overwrite(old(FileBytes(fs.d, f.ip.Value(), f.ip.size)), old(f.off), src)
    ensures r.Panicked? ==> Full(fs.sb, fs.d) || !ChunkRoom(fs.sb, fs.c)
  {
    hide Full, Owned, HoleFree, FileBytes, Overwrite, OthersKept, Range, InodeIn, Ran, Span;
    OwnedShape(fs.sb, fs.d, f.ip.AsHeld(), fs.owner, {});
    fs.BeginOp();
    ghost var data;
    r, data := fs.Writei(f.ip, f.off, src);
    if r.Done? && r.value > 0 {
      f.off := f.off + r.value;
    }
    if r.Panicked? && !Full(fs.sb, fs.d) {
      ChunkFits(fs.sb, fs.logged, data, f.ip.Table(), fs.sb.Iblock(f.ip.inum), f.off, |src|);
    }
  }

  /** What the loop of filewrite keeps after k whole chunks of the write at `off`. */
  ghost predicate Progress(fs: FileSystem, f: OpenFile, images: seq<Disk>, bytes: seq<Byte>, off: nat,
                           addr: seq<Byte>, n: int)
    reads fs, f, f.ip
    requires n <= |addr|
  {
    && Placed(fs.sb, fs.c) && fs.Sound(f.ip) && 0 < |images| && fs.d == images[|images| - 1]
    && PrefixImages(fs.sb, images, f.ip.inum, bytes, off, addr, n)
    && f.off == off + Sent(n, |images| - 1)
    && f.ip.size == (if off <= |bytes| then Max(|bytes|, f.off) else |bytes|)
    && |bytes| <= MAXFILE * BSIZE && |images| <= 1 + Chunks(|bytes|, off, n)
  }

  lemma ImageOf(fs: FileSystem, f: OpenFile)
    requires fs.Sound(f.ip)
    ensures Stored(fs.sb, fs.d, f.ip.inum) == Some(FileBytes(fs.d, f.ip.Value(), f.ip.size))
  {
    hide Owned, HoleFree, FileBytes, InodeIn;
  }

  lemma FirstImage(sb: Super, d: Disk, inum: nat, bytes: seq<Byte>, off: nat, addr: seq<Byte>, n: int)
    requires n <= |addr| && Stored(sb, d, inum) == Some(bytes)
    ensures Sent(n, 0) == 0 && PrefixImages(sb, [d], inum, bytes, off, addr, n)
  {
    hide Stored;
    assert addr[..0] == [];
    if off <= |bytes| { OverwriteNothing(bytes, off); }
  }

  /** One turn of filewrite's loop. */
  method WriteNext(fs: FileSystem, f: OpenFile, addr: seq<Byte>, n: int, ghost images: seq<Disk>,
                   ghost bytes: seq<Byte>, ghost off: nat, i: nat)
    returns (r: IoResult<nat>, ghost images': seq<Disk>)
    requires n <= |addr| && Progress(fs, f, images, bytes, off, addr, n) && i == Sent(n, |images| - 1) < n
    modifies fs`d, fs`owner, fs`pending, fs`logged, fs`base, fs`writes, f`off, f.ip`addrs, f.ip`size
    ensures fs.InOp() && fs.base == images[|images| - 1]
    ensures r.Failed? <==> |images| == 1 + Chunks(|bytes|, off, n)
    ensures r.Failed? ==> images' == images && fs.d == fs.base && Progress(fs, f, images, bytes, off, addr, n)
    ensures r.Done? ==> images' == images + [fs.d] && r.value == Sent(n, |images|) - i > 0
                        && Progress(fs, f, images', bytes, off, addr, n)
    ensures r.Panicked? ==> images' == images && (Full(fs.sb, fs.d) || !ChunkRoom(fs.sb, fs.c))
  {
    hide Full, Owned, HoleFree, FileBytes, Overwrite, InodeIn, Stored, Sent, Ran, ChunkRoom;
    var n1 := n - i;
    if n1 > CHUNK { n1 := CHUNK; }
    images' := images;
    ImageOf(fs, f);
    if off <= |bytes| {
      SentNext(off, n, |images| - 1);
      OverwriteMore(bytes, off, addr, i, n1);
    }
    r := WriteChunk(fs, f, addr[i..i + n1]);
    if r.Done? {
      ImageOf(fs, f);
      images' := images + [fs.d];
    }
  }

  /** In this image the file is the old bytes overwritten by at most so many whole chunks. */
  ghost predicate WholeChunks(sb: Super, image: Disk, inum: nat, bytes: seq<Byte>, off: nat, addr: seq<Byte>, n: int,
                              chunks: nat)
    requires n <= |addr|
  {
    exists k :: 0 <= k <= chunks && Stored(sb, image, inum) == Some(AfterChunks(bytes, off, addr, n, k))
  }

  /** A stop after any number of steps leaves the old bytes overwritten by some number of whole chunks. */
  ghost predicate CrashSafe(sb: Super, c: LogMachine.Config, s: LogMachine.State, steps: seq<LogMachine.Step>,
                            inum: nat, bytes: seq<Byte>, off: nat, addr: seq<Byte>, n: int, chunks: nat)
    requires c.Valid() && LogMachine.Inv(c, s) && n <= |addr|
  {
    forall j :: 0 <= j <= |steps| ==>
      && LogRuns.Exec(c, s, steps[..j]).Some?
      && WholeChunks(sb, LogMachine.Committed(c, LogRuns.Exec(c, s, steps[..j]).value), inum, bytes, off, addr, n, chunks)
  }

  lemma ImagesAreChunks(sb: Super, c: LogMachine.Config, s: LogMachine.State, steps: seq<LogMachine.Step>,
                        images: seq<Disk>, inum: nat, bytes: seq<Byte>, off: nat, addr: seq<Byte>, n: int)
    requires c.Valid() && LogMachine.Inv(c, s) && n <= |addr| && images != []
    requires Recovers(c, s, steps, ImageSet(images)) && PrefixImages(sb, images, inum, bytes, off, addr, n)
    ensures CrashSafe(sb, c, s, steps, inum, bytes, off, addr, n, |images| - 1)
  {
    hide LogMachine.RunInv, LogMachine.LoggedOk, LogRuns.Exec, LogMachine.Committed, Stored, AfterChunks;
    forall j | 0 <= j <= |steps|
      ensures LogRuns.Exec(c, s, steps[..j]).Some?
      ensures WholeChunks(sb, LogMachine.Committed(c, LogRuns.Exec(c, s, steps[..j]).value), inum, bytes, off, addr, n,
                          |images| - 1)
    {
      var k :| 0 <= k < |images| && images[k] == LogMachine.Committed(c, LogRuns.Exec(c, s, steps[..j]).value);
    }
  }

  /**
   A write of n bytes is one abstract write of the concatenated chunks.  The file goes through
   the images: the old contents overwritten by 0, 1, 2, ... whole chunks; wherever the machine
   stops, recovery yields one of them.  The call returns n exactly when the whole write fits;
   otherwise it returns -1 and has written the whole chunks that did fit.  The kernel panics only
   on a full disk, if a chunk has room in the log.
   */
  method FileWrite(fs: FileSystem, f: OpenFile, addr: seq<Byte>, n: int, ghost s: LogMachine.State, ghost p: nat)
    returns (r: int, panicked: bool, ghost images: seq<Disk>, ghost steps: seq<LogMachine.Step>)
    requires Placed(fs.sb, fs.c) && fs.Sound(f.ip) && n <= |addr|
    requires Quiet(fs.c, s) && LogMachine.Current(fs.c, s) == fs.d
    modifies fs`d, fs`owner, fs`pending, fs`logged, fs`base, fs`writes, f`off, f.ip`addrs, f.ip`size
    ensures PrefixImages(fs.sb, images, f.ip.inum, old(FileBytes(fs.d, f.ip.Value(), f.ip.size)), old(f.off), addr, n)
    ensures 0 < |images| && images[0] == old(fs.d)
    ensures CrashSafe(fs.sb, fs.c, s, steps, f.ip.inum, old(FileBytes(fs.d, f.ip.Value(), f.ip.size)), old(f.off),
                      addr, n, |images| - 1)
    ensures !panicked ==> fs.Sound(f.ip) && fs.d == images[|images| - 1] && f.off == old(f.off) + Sent(n, |images| - 1)
    ensures !panicked ==> Tied(fs.c, s, steps, images)
    ensures !panicked && f.writable ==>
      && |images| == 1 + old(Chunks(f.ip.size, f.off, n))
      && r == if n <= 0 then (if n == 0 then 0 else -1)
              else if old(f.off <= f.ip.size && f.off + n <= MAXFILE * BSIZE) then n else -1
    ensures !panicked && f.writable && r == n > 0 ==>
      && f.off == old(f.off) + n && old(f.off <= f.ip.size)
      && Stored(fs.sb, fs.d, f.ip.inum) == Some(Overwrite(old(FileBytes(fs.d, f.ip.Value(), f.ip.size)), old(f.off), addr[..n]))
    ensures !f.writable ==> !panicked && r == -1 && |images| == 1
    ensures panicked ==> Full(fs.sb, fs.d) || !ChunkRoom(fs.sb, fs.c)
  {
    hide Full, Owned, HoleFree, FileBytes, AfterChunks, Sent, PrefixImages, InodeIn, Stored, Chunks, Ran, ChunkRoom, Tied, Quiet,
         LogMachine.Inv, LogMachine.Current, LogRuns.Exec, OpSteps, OpenSteps, CrashSafe, Recovers;
    ghost var bytes, off := FileBytes(fs.d, f.ip.Value(), f.ip.size), f.off;
    images, steps := [fs.d], [];
    TiedStart(fs.c, s);
    ImageOf(fs, f);
    FirstImage(fs.sb, fs.d, f.ip.inum, bytes, off, addr, n);
    if !f.writable {
      Safe(fs.sb, fs.c, s, steps, images, f.ip.inum, bytes, off, addr, n);
      return -1, false, images, steps;
    }
    var i := 0;
    while i < n
      invariant 0 < |images| && images[0] == old(fs.d) && Progress(fs, f, images, bytes, off, addr, n)
      invariant i == Sent(n, |images| - 1) && Tied(fs.c, s, steps, images)
      decreases n - i
    {
      var w;
      ghost var before := images;
      w, images := WriteNext(fs, f, addr, n, images, bytes, off, i);
      if w.Panicked? {
        TiedStop(fs.c, s, steps, images, p, fs.writes, fs.d, fs.logged);
        steps := steps + OpenSteps(p, fs.writes);
        ImagesAreChunks(fs.sb, fs.c, s, steps, images, f.ip.inum, bytes, off, addr, n);
        return -1, true, images, steps;
      }
      TiedOp(fs.c, s, steps, before, p, fs.writes, fs.d, fs.logged);
      steps := steps + OpSteps(p, fs.writes);
      if w.Failed? {
        break;
      }
      i := i + w.value;
    }
    Finished(|bytes|, off, n, |images| - 1, i);
    if i == n && n > 0 {
      AllSent(fs.sb, images, f.ip.inum, bytes, off, addr, n);
    }
    Safe(fs.sb, fs.c, s, steps, images, f.ip.inum, bytes, off, addr, n);
    return if i == n then n else -1, false, images, steps;
  }

  lemma Safe(sb: Super, c: LogMachine.Config, s: LogMachine.State, steps: seq<LogMachine.Step>,
             images: seq<Disk>, inum: nat, bytes: seq<Byte>, off: nat, addr: seq<Byte>, n: int)
    requires Tied(c, s, steps, images) && n <= |addr| && PrefixImages(sb, images, inum, bytes, off, addr, n)
    ensures c.Valid() && LogMachine.Inv(c, s) && CrashSafe(sb, c, s, steps, inum, bytes, off, addr, n, |images| - 1)
  {
    hide LogMachine.Inv, LogRuns.Exec, LogMachine.Committed, Stored, PrefixImages, CrashSafe, Recovers;
    ImagesAreChunks(sb, c, s, steps, images, inum, bytes, off, addr, n);
  }

  lemma AllSent(sb: Super, images: seq<Disk>, inum: nat, bytes: seq<Byte>, off: nat, addr: seq<Byte>, n: nat)
    requires n <= |addr| && images != [] && PrefixImages(sb, images, inum, bytes, off, addr, n) && Sent(n, |images| - 1) == n
    requires off <= |bytes|
    ensures Stored(sb, images[|images| - 1], inum) == Some(Overwrite(bytes, off, addr[..n]))
  {
    hide Stored, Overwrite;
  }

  lemma Finished(size: nat, off: nat, n: int, k: nat, i: nat)
    requires size <= MAXFILE * BSIZE && k <= Chunks(size, off, n) && i == Sent(n, k)
    requires i >= n || k == Chunks(size, off, n)
    ensures k == Chunks(size, off, n)
    ensures n > 0 ==> (i == n <==> off <= size && off + n <= MAXFILE * BSIZE)
    ensures n <= 0 ==> i == 0
  {
    if n > 0 && off <= size {
      if i >= n {
        SentAll(off, n, k);
      } else if off + n <= MAXFILE * BSIZE {
        SentNext(off, n, k);
      }
    }
  }
}
