/** The formatter fs/fsformat.c and the reader that has to undo it: directory lookup, path walk and
    file reads of fs/fs.c over the bytes of the image. */
module Format {
  import opened BlockCache
  import FS = FileSystem

  newtype byte = x: int | 0 <= x < 256

  const FILESIZE: nat := 256            // sizeof(struct File)
  const MAXNAMELEN: nat := 128
  const MAXENTS: nat := 128             // MAX_DIR_ENTS
  const SIZE: nat := 128                // offsets in struct File
  const TYPE: nat := 132
  const DIRECT: nat := 136
  const INDIRECT: nat := 176            // DIRECT + 4 * FS.NDIRECT: f_indirect follows f_direct
  const FTYPE_REG: nat := 0
  const FTYPE_DIR: nat := 1
  const WORD: nat := 0x1_0000_0000
  const SLASH: byte := 47

  // Bytes in place

  function Le(w: nat): seq<byte>
    requires w < WORD
  {
    [(w % 256) as byte, (w / 256 % 256) as byte, (w / 0x10000 % 256) as byte, (w / 0x100_0000) as byte]
  }

  function Word(buf: seq<byte>, at: nat): nat
    requires at + 4 <= |buf|
  {
    buf[at] as nat + 256 * (buf[at + 1] as nat) + 0x10000 * (buf[at + 2] as nat) + 0x100_0000 * (buf[at + 3] as nat)
  }

  lemma SpliceAt(buf: seq<byte>, at: nat, data: seq<byte>)
    requires at + |data| <= |buf|
    ensures |Splice(buf, at, data)| == |buf| && Splice(buf, at, data)[at..at + |data|] == data
  {
  }

  lemma SpliceAway(buf: seq<byte>, at: nat, data: seq<byte>, lo: nat, hi: nat)
    requires lo <= hi <= |buf| && (hi <= at || at + |data| <= lo)
    ensures |Splice(buf, at, data)| == |buf| && Splice(buf, at, data)[lo..hi] == buf[lo..hi]
  {
  }

  lemma WordPut(buf: seq<byte>, at: nat, w: nat)
    requires at + 4 <= |buf| && w < WORD
    ensures |Splice(buf, at, Le(w))| == |buf| && Word(Splice(buf, at, Le(w)), at) == w
  {
    var b := Splice(buf, at, Le(w));
    assert b[at] == Le(w)[0] && b[at + 1] == Le(w)[1] && b[at + 2] == Le(w)[2] && b[at + 3] == Le(w)[3];
    LeDigits(w);
  }

  lemma LeDigits(w: nat)
    ensures w == w % 256 + 256 * (w / 256 % 256) + 0x10000 * (w / 0x10000 % 256) + 0x100_0000 * (w / 0x100_0000)
  {
    assert w / 256 / 256 == w / 0x10000 && w / 0x10000 / 256 == w / 0x100_0000;
    assert w == 256 * (w / 256) + w % 256;
    assert w / 256 == 256 * (w / 256 / 256) + w / 256 % 256;
    assert w / 0x10000 == 256 * (w / 0x10000 / 256) + w / 0x10000 % 256;
  }

  lemma WordKept(buf: seq<byte>, at: nat, w: nat, off: nat)
    requires at + 4 <= |buf| && w < WORD && off + 4 <= |buf| && (off + 4 <= at || at + 4 <= off)
    ensures |Splice(buf, at, Le(w))| == |buf| && Word(Splice(buf, at, Le(w)), off) == Word(buf, off)
  {
  }

  // Directory entries

  /** strcmp(f_name, name) == 0 for a name that fits. */
  predicate Named(e: seq<byte>, name: seq<byte>)
    requires |e| == FILESIZE && |name| < MAXNAMELEN
  {
    e[..|name|] == name && e[|name|] == 0
  }

  predicate GoodName(name: seq<byte>) {
    0 < |name| < MAXNAMELEN && 0 !in name && SLASH !in name
  }

  /** An entry for a file of a size whose blocks, the indirect one included, are start, start + 1, and so on. */
  ghost predicate EntryIs(e: seq<byte>, name: seq<byte>, ftype: nat, size: nat, start: nat) {
    && |e| == FILESIZE && |name| < MAXNAMELEN && Named(e, name)
    && Word(e, SIZE) == size && Word(e, TYPE) == ftype
    && BlocksFrom(e, start, Taken(size))
  }

  ghost predicate BlocksFrom(e: seq<byte>, start: nat, n: nat)
    requires |e| == FILESIZE
  {
    forall k: nat :: k < n && k <= FS.NDIRECT ==> Word(e, DIRECT + 4 * k) == start + k
  }

  /** The block words of e from the n-th on are those of f. */
  ghost predicate SamePast(f: seq<byte>, e: seq<byte>, n: nat)
    requires |f| == |e| == FILESIZE
  {
    forall k: nat :: n <= k <= FS.NDIRECT ==> Word(e, DIRECT + 4 * k) == Word(f, DIRECT + 4 * k)
  }

  /** The block words of e from the n-th on are 0. */
  ghost predicate ZeroPast(e: seq<byte>, n: nat)
    requires |e| == FILESIZE
  {
    forall k: nat :: n <= k <= FS.NDIRECT ==> Word(e, DIRECT + 4 * k) == 0
  }

  lemma SetSize(e: seq<byte>, len: nat)
    requires |e| == FILESIZE && len < WORD
    ensures var g := Splice(e, SIZE, Le(len));
            && |g| == FILESIZE && g[..MAXNAMELEN] == e[..MAXNAMELEN] && Word(g, SIZE) == len && Word(g, TYPE) == Word(e, TYPE)
            && SamePast(e, g, 0)
  {
    hide Le;
    WordPut(e, SIZE, len);
    WordKept(e, SIZE, len, TYPE);
    forall k: nat | k <= FS.NDIRECT
      ensures Word(Splice(e, SIZE, Le(len)), DIRECT + 4 * k) == Word(e, DIRECT + 4 * k)
    {
      WordKept(e, SIZE, len, DIRECT + 4 * k);
    }
  }

  lemma SetBlock(e: seq<byte>, i: nat, start: nat)
    requires |e| == FILESIZE && i <= FS.NDIRECT && start + i < WORD && BlocksFrom(e, start, i)
    ensures var g := Splice(e, DIRECT + 4 * i, Le(start + i));
            && |g| == FILESIZE && g[..MAXNAMELEN] == e[..MAXNAMELEN] && Word(g, SIZE) == Word(e, SIZE) && Word(g, TYPE) == Word(e, TYPE)
            && BlocksFrom(g, start, i + 1) && SamePast(e, g, i + 1)
  {
    hide Le;
    var at := DIRECT + 4 * i;
    var g := Splice(e, at, Le(start + i));
    WordPut(e, at, start + i);
    WordKept(e, at, start + i, SIZE);
    WordKept(e, at, start + i, TYPE);
    forall k: nat | k <= FS.NDIRECT && k != i
      ensures Word(g, DIRECT + 4 * k) == Word(e, DIRECT + 4 * k)
    {
      WordKept(e, at, start + i, DIRECT + 4 * k);
    }
  }

  lemma SetName(e: seq<byte>, name: seq<byte>, ftype: nat)
    requires |e| == FILESIZE && |name| < MAXNAMELEN && ftype < WORD
    ensures var g := Splice(Splice(e, 0, name + [0]), TYPE, Le(ftype));
            |g| == FILESIZE && Named(g, name) && Word(g, TYPE) == ftype && SamePast(e, g, 0)
  {
    hide Le;
    var h := Splice(e, 0, name + [0]);
    WordPut(h, TYPE, ftype);
    var g := Splice(h, TYPE, Le(ftype));
    forall k: nat | k <= FS.NDIRECT
      ensures Word(g, DIRECT + 4 * k) == Word(e, DIRECT + 4 * k)
    {
      WordKept(h, TYPE, ftype, DIRECT + 4 * k);
    }
    assert g[..MAXNAMELEN] == h[..MAXNAMELEN];
    NamePrefix(h, g, name);
  }

  lemma NamePrefix(e: seq<byte>, g: seq<byte>, name: seq<byte>)
    requires |e| == |g| == FILESIZE && |name| < MAXNAMELEN && g[..MAXNAMELEN] == e[..MAXNAMELEN]
    ensures Named(g, name) == Named(e, name)
  {
    assert g[..|name|] == g[..MAXNAMELEN][..|name|] && e[..|name|] == e[..MAXNAMELEN][..|name|];
    assert g[|name|] == g[..MAXNAMELEN][|name|] && e[|name|] == e[..MAXNAMELEN][|name|];
  }

  /** Blocks a file takes: its data, and an indirect block when it fills all direct slots. */
  function Taken(len: nat): nat {
    FS.Nblk(len) + if FS.Nblk(len) == FS.NDIRECT then 1 else 0
  }

  /** finishfile, for a file within its direct blocks, which were allocated from start on; one more is
      taken for the indirect block when all direct slots fill.  Out of blocks: ok is false.  The words
      past the blocks stay what they were. */
  method FinishFile(f: seq<byte>, start: nat, len: nat, pos: nat, nblocks: nat) returns (ok: bool, e: seq<byte>, end: nat)
    requires |f| == FILESIZE && len <= FS.NDIRECT * BLKSIZE && pos == start + FS.Nblk(len) < nblocks <= 1024
    ensures ok <==> start + Taken(len) < nblocks
    ensures ok ==> end == start + Taken(len)
    ensures ok ==> |e| == FILESIZE && e[..MAXNAMELEN] == f[..MAXNAMELEN] && Word(e, TYPE) == Word(f, TYPE)
    ensures ok ==> Word(e, SIZE) == len && BlocksFrom(e, start, Taken(len)) && SamePast(f, e, Taken(len))
  {
    hide Le, Word, Splice, BlocksFrom, SamePast;
    end := pos;
    SetSize(f, len);
    e := Splice(f, SIZE, Le(len));
    BlocksFromNone(e, start);
    NblkBound(len);
    var i := 0;
    while i < FS.Nblk(len) && i < FS.NDIRECT
      invariant i <= FS.Nblk(len) && |e| == FILESIZE && e[..MAXNAMELEN] == f[..MAXNAMELEN]
      invariant Word(e, TYPE) == Word(f, TYPE) && Word(e, SIZE) == len && BlocksFrom(e, start, i) && SamePast(f, e, i)
    {
      ghost var g := e;
      SetBlock(e, i, start);
      e := Splice(e, DIRECT + 4 * i, Le(start + i));
      PastThrough(f, g, e, i);
      i := i + 1;
    }
    if i == FS.NDIRECT {
      end := pos + 1;
      if end >= nblocks {
        return false, e, end;
      }
      ghost var g := e;
      SetBlock(e, i, start);
      e := Splice(e, INDIRECT, Le(pos));
      PastThrough(f, g, e, i);
    }
    ok := true;
  }

  lemma PastThrough(f: seq<byte>, g: seq<byte>, e: seq<byte>, n: nat)
    requires |f| == |g| == |e| == FILESIZE && SamePast(f, g, n) && SamePast(g, e, n + 1)
    ensures SamePast(f, e, n + 1)
  {
  }

  lemma ZeroKeptPast(f: seq<byte>, e: seq<byte>, n: nat)
    requires |f| == |e| == FILESIZE && SamePast(f, e, n)
    ensures ZeroPast(e, n) == ZeroPast(f, n)
  {
    if ZeroPast(e, n) {
      forall k: nat | n <= k <= FS.NDIRECT
        ensures Word(f, DIRECT + 4 * k) == 0
      {
        assert Word(e, DIRECT + 4 * k) == 0;
      }
    }
  }

  lemma BlocksFromNone(e: seq<byte>, start: nat)
    requires |e| == FILESIZE
    ensures BlocksFrom(e, start, 0)
  {
  }

  lemma NblkBound(len: nat)
    requires len <= FS.NDIRECT * BLKSIZE
    ensures FS.Nblk(len) <= FS.NDIRECT && len <= FS.Nblk(len) * BLKSIZE
  {
  }

  // The layout

  datatype Source = Source(name: seq<byte>, data: seq<byte>)

  /** A formatted disk: the super block's count and root node, the bitmap, all bytes, and the first unused block. */
  datatype Image = Image(nblocks: nat, root: seq<byte>, bitmap: seq<bv32>, disk: seq<byte>, used: nat)

  ghost predicate At(disk: seq<byte>, off: nat, data: seq<byte>) {
    off + |data| <= |disk| && disk[off..off + |data|] == data
  }

  ghost predicate ZeroFrom(disk: seq<byte>, pos: nat) {
    forall k: nat :: pos * BLKSIZE <= k < |disk| ==> disk[k] == 0
  }

  /** File k has its entry, and its data from block starts[k] on. */
  ghost predicate FileLaid(disk: seq<byte>, e: seq<byte>, f: Source, start: nat, pos: nat) {
    && EntryIs(e, f.name, FTYPE_REG, |f.data|, start)
    && At(disk, start * BLKSIZE, f.data) && 3 <= start && start + Taken(|f.data|) <= pos && |f.data| <= FS.NDIRECT * BLKSIZE
  }

  ghost predicate Laid(disk: seq<byte>, ents: seq<seq<byte>>, files: seq<Source>, starts: seq<nat>, pos: nat) {
    && |starts| == |files| <= |ents|
    && (forall k: nat :: k < |files| ==> FileLaid(disk, ents[k], files[k], starts[k], pos))
    && (forall j: nat, k: nat :: j < k < |files| ==> Apart(files, starts, j, k))
  }

  /** The blocks of an earlier file lie before those of a later one. */
  ghost predicate Apart(files: seq<Source>, starts: seq<nat>, j: nat, k: nat)
    requires j < |files| == |starts| && k < |files|
  {
    starts[j] + Taken(|files[j].data|) <= starts[k]
  }

  /** Writing at or past the first unused block leaves a file alone. */
  lemma FileKept(disk: seq<byte>, e: seq<byte>, f: Source, start: nat, pos: nat, at: nat, data: seq<byte>, later: nat)
    requires FileLaid(disk, e, f, start, pos) && pos * BLKSIZE <= at && at + |data| <= |disk| && pos <= later
    ensures FileLaid(Splice(disk, at, data), e, f, start, later)
  {
    hide EntryIs, Splice;
    DataEnd(start, |f.data|, pos);
    SpliceAway(disk, at, data, start * BLKSIZE, start * BLKSIZE + |f.data|);
  }

  lemma DataEnd(start: nat, len: nat, pos: nat)
    requires start + FS.Nblk(len) <= pos
    ensures start * BLKSIZE + len <= pos * BLKSIZE
  {
  }

  lemma LaidMore(disk: seq<byte>, ents: seq<seq<byte>>, files: seq<Source>, starts: seq<nat>, pos: nat, f: Source, e: seq<byte>, later: nat)
    requires Laid(disk, ents, files, starts, pos) && |files| < |ents| && 3 <= pos
    requires EntryIs(e, f.name, FTYPE_REG, |f.data|, pos) && later >= pos + Taken(|f.data|) && later * BLKSIZE <= |disk| && |f.data| <= FS.NDIRECT * BLKSIZE
    ensures Laid(Splice(disk, pos * BLKSIZE, f.data), ents[|files| := e], files + [f], starts + [pos], later)
  {
    hide EntryIs, Splice, FileLaid;
    DataEnd(pos, |f.data|, later);
    var d := Splice(disk, pos * BLKSIZE, f.data);
    var es, fs, ss := ents[|files| := e], files + [f], starts + [pos];
    forall k: nat | k < |fs|
      ensures FileLaid(d, es[k], fs[k], ss[k], later)
    {
      if k < |files| {
        assert FileLaid(disk, ents[k], files[k], starts[k], pos);
        FileKept(disk, ents[k], files[k], starts[k], pos, pos * BLKSIZE, f.data, later);
      } else {
        NewFile(disk, e, f, pos, later);
      }
    }
    forall j: nat, k: nat | j < k < |fs|
      ensures Apart(fs, ss, j, k)
    {
      if k < |files| {
        assert Apart(files, starts, j, k);
      } else {
        LaidBefore(disk, ents[j], files[j], starts[j], pos);
      }
    }
  }

  lemma LaidBefore(disk: seq<byte>, e: seq<byte>, f: Source, start: nat, pos: nat)
    requires FileLaid(disk, e, f, start, pos)
    ensures start + Taken(|f.data|) <= pos
  {
  }

  lemma NewFile(disk: seq<byte>, e: seq<byte>, f: Source, pos: nat, later: nat)
    requires EntryIs(e, f.name, FTYPE_REG, |f.data|, pos) && later >= pos + Taken(|f.data|) && 3 <= pos && later * BLKSIZE <= |disk| && |f.data| <= FS.NDIRECT * BLKSIZE
    ensures FileLaid(Splice(disk, pos * BLKSIZE, f.data), e, f, pos, later)
  {
    hide EntryIs, Splice;
    DataEnd(pos, |f.data|, later);
    SpliceAt(disk, pos * BLKSIZE, f.data);
  }

  lemma ZeroKept(disk: seq<byte>, pos: nat, data: seq<byte>, later: nat)
    requires ZeroFrom(disk, pos) && pos + FS.Nblk(|data|) <= later && later * BLKSIZE <= |disk|
    ensures ZeroFrom(Splice(disk, pos * BLKSIZE, data), later)
  {
    DataEnd(pos, |data|, later);
  }

  // The directory

  function Flat(es: seq<seq<byte>>): seq<byte>
    decreases |es|
  {
    if es == [] then [] else Flat(es[..|es| - 1]) + es[|es| - 1]
  }

  lemma {:induction false} FlatAt(es: seq<seq<byte>>, k: nat)
    requires k < |es| && forall i: nat :: i < |es| ==> |es[i]| == FILESIZE
    ensures |Flat(es)| == FILESIZE * |es|
    ensures Flat(es)[FILESIZE * k..FILESIZE * k + FILESIZE] == es[k]
    decreases |es|
  {
    var front := es[..|es| - 1];
    if |es| == 1 {
      assert Flat(front) == [];
    } else {
      FlatAt(front, if k < |front| then k else 0);
    }
    if k < |front| {
      assert Flat(es)[FILESIZE * k..FILESIZE * k + FILESIZE] == Flat(front)[FILESIZE * k..FILESIZE * k + FILESIZE];
    }
  }

  /** The k-th entry of a directory that starts at a byte offset. */
  function EntryAt(disk: seq<byte>, off: nat, k: nat): seq<byte>
    requires off + FILESIZE * k + FILESIZE <= |disk|
  {
    disk[off + FILESIZE * k..off + FILESIZE * k + FILESIZE]
  }

  lemma EntryCopied(disk: seq<byte>, off: nat, es: seq<seq<byte>>, k: nat)
    requires k < |es| && (forall i: nat :: i < |es| ==> |es[i]| == FILESIZE) && off + FILESIZE * |es| <= |disk|
    ensures |Flat(es)| == FILESIZE * |es| && |Splice(disk, off, Flat(es))| == |disk|
    ensures EntryAt(Splice(disk, off, Flat(es)), off, k) == es[k]
  {
    FlatAt(es, k);
    var d := Splice(disk, off, Flat(es));
    SpliceAt(disk, off, Flat(es));
    assert EntryAt(d, off, k) == d[off..off + |Flat(es)|][FILESIZE * k..FILESIZE * k + FILESIZE];
  }

  predicate EmptyEntry(e: seq<byte>) {
    |e| == FILESIZE && forall i: nat :: i < FILESIZE ==> e[i] == 0
  }

  /** The directory of an image: the files' entries in order, then empty names to the end of its blocks. */
  ghost predicate DirLaid(disk: seq<byte>, dir: nat, nblk: nat, files: seq<Source>, starts: seq<nat>) {
    && (dir + nblk) * BLKSIZE <= |disk| && |starts| == |files| <= 16 * nblk
    && (forall k: nat :: k < |files| ==> FileLaid(disk, EntryAt(disk, dir * BLKSIZE, k), files[k], starts[k], dir))
    && (forall k: nat :: |files| <= k < 16 * nblk ==> EmptyEntry(EntryAt(disk, dir * BLKSIZE, k)))
    && (forall j: nat, k: nat :: j < k < |files| ==> Apart(files, starts, j, k))
  }

  lemma DirWritten(disk: seq<byte>, ents: seq<seq<byte>>, files: seq<Source>, starts: seq<nat>, pos: nat)
    requires Laid(disk, ents, files, starts, pos) && ZeroFrom(disk, pos) && files != []
    requires (pos + FS.Nblk(FILESIZE * |files|)) * BLKSIZE <= |disk| && forall k: nat :: k < |ents| ==> |ents[k]| == FILESIZE
    ensures DirLaid(Splice(disk, pos * BLKSIZE, Flat(ents[..|files|])), pos, FS.Nblk(FILESIZE * |files|), files, starts)
  {
    hide FileLaid, Splice, Flat;
    var es := ents[..|files|];
    var off, nblk := pos * BLKSIZE, FS.Nblk(FILESIZE * |files|);
    var d := Splice(disk, off, Flat(es));
    DirRoom(|files|);
    EntryCopied(disk, off, es, 0);
    forall k: nat | k < |files|
      ensures FileLaid(d, EntryAt(d, off, k), files[k], starts[k], pos)
    {
      EntryCopied(disk, off, es, k);
      assert FileLaid(disk, ents[k], files[k], starts[k], pos);
      FileKept(disk, ents[k], files[k], starts[k], pos, off, Flat(es), pos);
    }
    forall k: nat | |files| <= k < 16 * nblk
      ensures EmptyEntry(EntryAt(d, off, k))
    {
      forall i: nat | i < FILESIZE
        ensures EntryAt(d, off, k)[i] == 0
      {
        PastSplice(disk, off, Flat(es), off + FILESIZE * k + i);
      }
    }
  }

  lemma DirRoom(n: nat)
    ensures n <= 16 * FS.Nblk(FILESIZE * n) && FILESIZE * n <= FS.Nblk(FILESIZE * n) * BLKSIZE
    ensures n <= MAXENTS ==> FS.Nblk(FILESIZE * n) <= 8
    ensures n > 0 ==> FS.Nblk(FILESIZE * n) > 0
  {
  }

  lemma PastSplice(disk: seq<byte>, at: nat, data: seq<byte>, k: nat)
    requires at + |data| <= k < |disk|
    ensures |Splice(disk, at, data)| == |disk| && Splice(disk, at, data)[k] == disk[k]
  {
  }

  // The formatter

  /** Blocks used before the directory: boot block, super block, one bitmap block and the files. */
  function UsedBy(files: seq<Source>): nat
    decreases |files|
  {
    if files == [] then 3 else UsedBy(files[..|files| - 1]) + Taken(|files[|files| - 1].data|)
  }

  ghost predicate GoodSource(f: Source) {
    GoodName(f.name) && |f.data| <= FS.NDIRECT * BLKSIZE
  }

  /** The bitmap marks as in use exactly the blocks below used. */
  ghost predicate InUseBelow(bitmap: seq<bv32>, nblocks: nat, used: nat) {
    && nblocks <= 32 * |bitmap|
    && forall b: nat :: b < nblocks ==> (FS.BitOf(bitmap[b / 32], b % 32) <==> used <= b)
  }

  /** What the formatter produces. */
  ghost predicate Formatted(img: Image, files: seq<Source>, starts: seq<nat>, dir: nat) {
    var nblk := FS.Nblk(FILESIZE * |files|);
    && files != [] && |files| <= MAXENTS && |img.disk| == img.nblocks * BLKSIZE
    && 3 <= dir && dir + nblk <= img.used < img.nblocks <= 1024
    && EntryIs(img.root, [SLASH], FTYPE_DIR, nblk * BLKSIZE, dir) && ZeroPast(img.root, nblk)
    && DirLaid(img.disk, dir, nblk, files, starts)
    && InUseBelow(img.bitmap, img.nblocks, img.used)
  }

  lemma AllOnes(nblocks: nat)
    requires nblocks <= 1024
    ensures InUseBelow(seq(1024, _ => 0xFFFF_FFFF), nblocks, 0)
  {
    forall k: nat | k < 32
      ensures FS.BitOf(0xFFFF_FFFF, k)
    {
      OneBit(k);
    }
  }

  lemma OneBit(k: nat)
    requires k < 32
    ensures FS.BitOf(0xFFFF_FFFF, k)
  {
  }

  lemma MarkUsed(bitmap: seq<bv32>, nblocks: nat, i: nat)
    requires InUseBelow(bitmap, nblocks, i) && i < nblocks
    ensures InUseBelow(bitmap[i / 32 := FS.WithBit(bitmap[i / 32], i % 32, false)], nblocks, i + 1)
  {
    hide FS.BitOf, FS.WithBit;
    var next := bitmap[i / 32 := FS.WithBit(bitmap[i / 32], i % 32, false)];
    forall b: nat | b < nblocks
      ensures FS.BitOf(next[b / 32], b % 32) <==> i + 1 <= b
    {
      if b / 32 == i / 32 {
        FS.WithBitOf(bitmap[i / 32], i % 32, false, b % 32);
        if b % 32 == i % 32 {
          FS.SameWordBit(b, i);
        }
      }
    }
  }

  class Formatter {
    const nblocks: nat
    var diskpos: nat                      // in blocks
    var disk: seq<byte>
    var bitmap: seq<bv32>
    var root: seq<byte>
    var ents: seq<seq<byte>>
    var n: nat
    ghost const garbage: seq<seq<byte>>   // what the entries held before
    ghost var files: seq<Source>
    ghost var starts: seq<nat>

    ghost predicate Valid()
      reads this
    {
      && 3 <= diskpos < nblocks <= 1024 && |disk| == nblocks * BLKSIZE && ZeroFrom(disk, diskpos)
      && n == |files| <= MAXENTS == |ents| && (forall k: nat :: k < |ents| ==> |ents[k]| == FILESIZE)
      && Laid(disk, ents, files, starts, diskpos) && diskpos == UsedBy(files)
      && Leftover(garbage, ents, files)
      && |root| == FILESIZE && Named(root, [SLASH]) && Word(root, TYPE) == FTYPE_DIR && ZeroPast(root, 0)
      && InUseBelow(bitmap, nblocks, 0)
    }

    /** opendisk and startdir; a disk of three blocks or fewer has no room for more than the headers. */
    constructor OpenDisk(nblocks: nat, garbage: seq<seq<byte>>)
      requires 3 < nblocks <= 1024 && |garbage| == MAXENTS && forall k: nat :: k < MAXENTS ==> |garbage[k]| == FILESIZE
      ensures Valid() && files == [] && this.nblocks == nblocks && this.garbage == garbage
    {
      hide Laid, Word, Le, Named, ZeroPast, SamePast, Leftover;
      this.nblocks := nblocks;
      this.garbage := garbage;
      diskpos := 3;
      disk := seq(nblocks * BLKSIZE, _ => 0);
      bitmap := seq(1024, _ => 0xFFFF_FFFF);
      root := Splice(Splice(seq(FILESIZE, _ => 0), 0, [SLASH] + [0]), TYPE, Le(FTYPE_DIR));
      ents := garbage;
      n := 0;
      files, starts := [], [];
      new;
      AllOnes(nblocks);
      SetName(seq(FILESIZE, _ => 0), [SLASH], FTYPE_DIR);
      LaidNone(disk, ents);
      ZeroNode();
      ZeroKeptPast(seq(FILESIZE, _ => 0), root, 0);
      LeftoverAll(garbage);
    }

    /** writefile: an entry in the directory under construction, and the data at the bump pointer. */
    method WriteFile(f: Source) returns (ok: bool)
      requires Valid() && GoodSource(f)
      modifies this`diskpos, this`disk, this`ents, this`n, this`files, this`starts
      ensures ok <==> |old(files)| < MAXENTS && UsedBy(old(files) + [f]) < nblocks
      ensures ok ==> Valid() && files == old(files) + [f]
    {
      hide Laid, Word, Le, Named, Splice, EntryIs, ZeroFrom, FS.Nblk, BlocksFrom, InUseBelow, ZeroPast, SamePast, Leftover,
        UsedBy, Taken, GoodName;
      UsedMore(files, f);
      TakenMore(|f.data|);
      GoodLength(f);
      if n == MAXENTS {
        return false;
      }
      ghost var d, es, fs, ss, pos := disk, ents, files, starts, diskpos;
      SetName(ents[n], f.name, FTYPE_REG);
      var e := Splice(Splice(ents[n], 0, f.name + [0]), TYPE, Le(FTYPE_REG));
      var start := diskpos;
      diskpos := diskpos + FS.Nblk(|f.data|);
      if diskpos >= nblocks {
        return false;
      }
      Fits(start, |f.data|, diskpos, nblocks);
      disk := Splice(disk, start * BLKSIZE, f.data);
      SpliceLength(d, start * BLKSIZE, f.data);
      var g;
      ok, g, diskpos := FinishFile(e, start, |f.data|, diskpos, nblocks);
      if !ok {
        return;
      }
      ents := ents[n := g];
      n := n + 1;
      EntryMade(e, g, f.name, FTYPE_REG, |f.data|, start);
      LaidMore(d, es, fs, ss, pos, f, g, diskpos);
      LeftoverMore(garbage, es, fs, f, e, g);
      ZeroKept(d, pos, f.data, diskpos);
      files := files + [f];
      starts := starts + [start];
    }

    /** finishdir: the directory's own blocks after all the files, recorded in the root node. */
    method FinishDir() returns (ok: bool, ghost dir: nat)
      requires Valid() && files != []
      modifies this`diskpos, this`disk, this`root
      ensures dir == old(diskpos) && (ok <==> UsedBy(files) + FS.Nblk(FILESIZE * |files|) < nblocks)
      ensures ok ==> diskpos == dir + FS.Nblk(FILESIZE * |files|) && |disk| == nblocks * BLKSIZE
      ensures ok ==> DirLaid(disk, dir, FS.Nblk(FILESIZE * |files|), files, starts)
      ensures ok ==> EntryIs(root, [SLASH], FTYPE_DIR, FS.Nblk(FILESIZE * |files|) * BLKSIZE, dir)
      ensures ok ==> ZeroPast(root, FS.Nblk(FILESIZE * |files|)) && n <= |ents| && DirHolds(disk, dir, ents[..n])
    {
      hide Laid, Word, Le, Named, Splice, EntryIs, ZeroFrom, FS.Nblk, BlocksFrom, InUseBelow, DirLaid, Flat;
      hide ZeroPast, SamePast, Leftover, DirHolds;
      dir := diskpos;
      var size := n * FILESIZE;
      var start := diskpos;
      diskpos := diskpos + FS.Nblk(size);
      if diskpos >= nblocks {
        return false, dir;
      }
      DirRoom(n);
      DirWritten(disk, ents, files, starts, dir);
      EntryCopied(disk, start * BLKSIZE, ents[..n], 0);
      DirCopied(disk, start, ents[..n]);
      disk := Splice(disk, start * BLKSIZE, Flat(ents[..n]));
      WholeBlocks(FS.Nblk(size));
      ghost var f := root;
      ok, root, diskpos := FinishFile(root, start, FS.Nblk(size) * BLKSIZE, diskpos, nblocks);
      EntryMade(f, root, [SLASH], FTYPE_DIR, FS.Nblk(size) * BLKSIZE, start);
      ZeroFromOn(f, FS.Nblk(size));
      ZeroKeptPast(f, root, FS.Nblk(size));
    }

    /** finishdisk: mark everything below the bump pointer as in use. */
    method FinishDisk()
      requires diskpos <= nblocks <= 1024 && InUseBelow(bitmap, nblocks, 0)
      modifies this`bitmap
      ensures InUseBelow(bitmap, nblocks, diskpos)
    {
      hide FS.Bit;
      for i := 0 to diskpos
        invariant InUseBelow(bitmap, nblocks, i)
      {
        MarkUsed(bitmap, nblocks, i);
        bitmap := bitmap[i / 32 := bitmap[i / 32] & !FS.Bit(i % 32)];
      }
    }
  }

  /** The whole program: it succeeds exactly when there are not too many files and everything, plus
      one more block, fits. */
  method MakeImage(nblocks: nat, files: seq<Source>, garbage: seq<seq<byte>>)
    returns (ok: bool, img: Image, ghost starts: seq<nat>, ghost dir: nat)
    requires 2 <= nblocks <= 1024 && |garbage| == MAXENTS && forall k: nat :: k < MAXENTS ==> |garbage[k]| == FILESIZE
    requires files != [] && forall k: nat :: k < |files| ==> GoodSource(files[k])
    ensures ok <==> |files| <= MAXENTS && UsedBy(files) + FS.Nblk(FILESIZE * |files|) < nblocks
    ensures ok ==> Formatted(img, files, starts, dir) && img.used == UsedBy(files) + FS.Nblk(FILESIZE * |files|)
    ensures ok ==> |img.root| == FILESIZE
    ensures ok ==> (FS.Ok(AsFs(img)) <==> forall k: nat :: k < |files| ==> ZeroPast(garbage[k], Taken(|files[k].data|)))
  {
    hide AsFs, FS.Ok, ZeroPast, Taken, Leftover, DirHolds, UsedBy, FS.Nblk, EntryIs, DirLaid, Laid, InUseBelow, ZeroFrom, Named, Word, GoodSource;
    img, starts, dir := Image(0, [], [], [], 0), [], 0;
    if nblocks <= 3 {
      HeadersFirst(files);
      return false, img, starts, dir;
    }
    var w := new Formatter.OpenDisk(nblocks, garbage);
    for i := 0 to |files|
      invariant w.Valid() && w.files == files[..i] && w.nblocks == nblocks && w.garbage == garbage
    {
      assert files[..i + 1] == files[..i] + [files[i]];
      ok := w.WriteFile(files[i]);
      if !ok {
        TooMuch(files, i + 1);
        return;
      }
    }
    assert files[..|files|] == files;
    ok, dir := w.FinishDir();
    if !ok {
      return;
    }
    w.FinishDisk();
    starts := w.starts;
    img := Image(nblocks, w.root, w.bitmap, w.disk, w.diskpos);
    LeftoverOkIff(img, files, starts, dir, garbage, w.ents);
  }

  /** In the entries of the files only the words past their blocks are still what malloc returned. */
  ghost predicate Leftover(garbage: seq<seq<byte>>, ents: seq<seq<byte>>, files: seq<Source>) {
    && |files| <= |ents| == |garbage|
    && (forall k: nat :: k < |ents| ==> |garbage[k]| == |ents[k]| == FILESIZE)
    && (forall k: nat :: |files| <= k < |ents| ==> ents[k] == garbage[k])
    && (forall k: nat :: k < |files| ==> SamePast(garbage[k], ents[k], Taken(|files[k].data|)))
  }

  lemma LeftoverAll(garbage: seq<seq<byte>>)
    requires forall k: nat :: k < |garbage| ==> |garbage[k]| == FILESIZE
    ensures Leftover(garbage, garbage, [])
  {
  }

  lemma LeftoverMore(garbage: seq<seq<byte>>, ents: seq<seq<byte>>, files: seq<Source>, f: Source, e: seq<byte>, g: seq<byte>)
    requires Leftover(garbage, ents, files) && |files| < |ents| && |e| == |g| == FILESIZE
    requires SamePast(ents[|files|], e, 0) && SamePast(e, g, Taken(|f.data|))
    ensures Leftover(garbage, ents[|files| := g], files + [f])
  {
    hide Word, Taken;
  }

  lemma ZeroNode()
    ensures ZeroPast(seq(FILESIZE, _ => 0), 0)
  {
  }

  lemma ZeroFromOn(e: seq<byte>, n: nat)
    requires |e| == FILESIZE && ZeroPast(e, 0)
    ensures ZeroPast(e, n)
  {
  }

  ghost predicate EntryHeld(disk: seq<byte>, dir: nat, k: nat, e: seq<byte>) {
    dir * BLKSIZE + FILESIZE * k + FILESIZE <= |disk| && EntryAt(disk, dir * BLKSIZE, k) == e
  }

  ghost predicate DirHolds(disk: seq<byte>, dir: nat, es: seq<seq<byte>>) {
    forall k: nat :: k < |es| ==> EntryHeld(disk, dir, k, es[k])
  }

  lemma DirCopied(disk: seq<byte>, dir: nat, es: seq<seq<byte>>)
    requires (forall i: nat :: i < |es| ==> |es[i]| == FILESIZE) && dir * BLKSIZE + FILESIZE * |es| <= |disk|
    ensures DirHolds(Splice(disk, dir * BLKSIZE, Flat(es)), dir, es)
  {
    hide Splice, Flat, EntryAt;
    var d := Splice(disk, dir * BLKSIZE, Flat(es));
    forall k: nat | k < |es|
      ensures EntryHeld(d, dir, k, es[k])
    {
      EntryCopied(disk, dir * BLKSIZE, es, k);
    }
  }

  lemma LaidNone(disk: seq<byte>, ents: seq<seq<byte>>)
    ensures Laid(disk, ents, [], [], 3)
  {
  }

  lemma TakenMore(len: nat)
    ensures FS.Nblk(len) <= Taken(len)
  {
  }

  lemma GoodLength(f: Source)
    requires GoodSource(f)
    ensures |f.name| < MAXNAMELEN && |f.data| <= FS.NDIRECT * BLKSIZE
  {
  }

  lemma UsedMore(files: seq<Source>, f: Source)
    ensures UsedBy(files + [f]) == UsedBy(files) + Taken(|f.data|)
  {
    assert (files + [f])[..|files|] == files;
  }

  lemma {:induction false} TooMuch(files: seq<Source>, i: nat)
    requires i <= |files|
    ensures UsedBy(files[..i]) <= UsedBy(files)
    decreases |files| - i
  {
    if i < |files| {
      assert files[..i + 1] == files[..i] + [files[i]];
      UsedMore(files[..i], files[i]);
      TooMuch(files, i + 1);
    } else {
      assert files[..i] == files;
    }
  }

  lemma Fits(start: nat, len: nat, pos: nat, nblocks: nat)
    requires pos == start + FS.Nblk(len) && pos <= nblocks
    ensures start * BLKSIZE + len <= nblocks * BLKSIZE
  {
  }

  lemma SpliceLength(buf: seq<byte>, at: nat, data: seq<byte>)
    ensures |Splice(buf, at, data)| == |buf|
  {
  }

  lemma WholeBlocks(n: nat)
    ensures FS.Nblk(n * BLKSIZE) == n
  {
  }

  lemma EntryMade(f: seq<byte>, e: seq<byte>, name: seq<byte>, ftype: nat, size: nat, start: nat)
    requires |f| == |e| == FILESIZE && |name| < MAXNAMELEN && Named(f, name) && Word(f, TYPE) == ftype
    requires e[..MAXNAMELEN] == f[..MAXNAMELEN] && Word(e, TYPE) == Word(f, TYPE) && Word(e, SIZE) == size && BlocksFrom(e, start, Taken(size))
    ensures EntryIs(e, name, ftype, size, start)
  {
    NamePrefix(f, e, name);
  }

  lemma {:induction false} HeadersFirst(files: seq<Source>)
    ensures UsedBy(files) >= 3
    decreases |files|
  {
    if files != [] {
      HeadersFirst(files[..|files| - 1]);
    }
  }

  // The reader

  const E_BAD_PATH: int := 12
  const E_NOT_FOUND: int := 11

  function Slot(e: seq<byte>, i: nat): nat
    requires |e| == FILESIZE && i < FS.NDIRECT
  {
    Word(e, DIRECT + 4 * i)
  }

  /** A node whose first n blocks are on the disk. */
  ghost predicate Readable(img: Image, e: seq<byte>, n: nat) {
    && |e| == FILESIZE && n <= FS.NDIRECT && |img.disk| == img.nblocks * BLKSIZE
    && forall i: nat :: i < n ==> 0 < Slot(e, i) < img.nblocks
  }

  /** The k-th entry of a directory node, 16 to a block. */
  function DirEntry(img: Image, e: seq<byte>, k: nat): (r: seq<byte>)
    ensures |r| == FILESIZE
  {
    if |e| == FILESIZE && k / 16 < FS.NDIRECT && Slot(e, k / 16) * BLKSIZE + FILESIZE * (k % 16) + FILESIZE <= |img.disk| then
      var at := Slot(e, k / 16) * BLKSIZE + FILESIZE * (k % 16);
      img.disk[at..at + FILESIZE]
    else
      seq(FILESIZE, _ => 0)
  }

  lemma EntryOnDisk(img: Image, e: seq<byte>, n: nat, k: nat)
    requires Readable(img, e, n) && k < 16 * n
    ensures k / 16 < n && Slot(e, k / 16) * BLKSIZE + FILESIZE * (k % 16) + FILESIZE <= |img.disk|
  {
    hide Slot;
    assert 0 < Slot(e, k / 16) < img.nblocks;
  }

  ghost predicate EntryNamed(img: Image, e: seq<byte>, n: nat, k: nat, name: seq<byte>)
    requires Readable(img, e, n) && |name| < MAXNAMELEN
  {
    k < 16 * n && Named(DirEntry(img, e, k), name)
  }

  /** dir_lookup: the first entry of that name. */
  method DirLookup(img: Image, e: seq<byte>, name: seq<byte>) returns (r: int, f: seq<byte>, ghost k: nat)
    requires |e| == FILESIZE && Word(e, SIZE) % BLKSIZE == 0 && Readable(img, e, Word(e, SIZE) / BLKSIZE) && |name| < MAXNAMELEN
    ensures r == 0 || r == -E_NOT_FOUND
    ensures r == 0 ==> EntryNamed(img, e, Word(e, SIZE) / BLKSIZE, k, name) && k / 16 < FS.NDIRECT
    ensures r == 0 ==> f == DirEntry(img, e, k)
    ensures r == 0 ==> forall m: nat :: m < k ==> !EntryNamed(img, e, Word(e, SIZE) / BLKSIZE, m, name)
    ensures r != 0 ==> forall m: nat :: !EntryNamed(img, e, Word(e, SIZE) / BLKSIZE, m, name)
  {
    hide Slot, Word;
    k, f := 0, [];
    var nblock := Word(e, SIZE) / BLKSIZE;
    for i := 0 to nblock
      invariant forall m: nat :: m < 16 * i ==> !EntryNamed(img, e, nblock, m, name)
    {
      for j := 0 to 16
        invariant forall m: nat :: m < 16 * i + j ==> !EntryNamed(img, e, nblock, m, name)
      {
        EntryOnDisk(img, e, nblock, 16 * i + j);
        BlockAndEntry(i, j);
        f := img.disk[Slot(e, i) * BLKSIZE + FILESIZE * j..Slot(e, i) * BLKSIZE + FILESIZE * j + FILESIZE];
        assert f == DirEntry(img, e, 16 * i + j);
        if Named(f, name) {
          k := 16 * i + j;
          return 0, f, k;
        }
      }
    }
    return -E_NOT_FOUND, [], k;
  }

  lemma BlockAndEntry(i: nat, j: nat)
    requires j < 16
    ensures (16 * i + j) / 16 == i && (16 * i + j) % 16 == j
  {
  }

  // Paths

  function Skip(path: seq<byte>): (p: seq<byte>)
    ensures |p| <= |path| && (p != [] ==> p[0] != SLASH)
  {
    if path != [] && path[0] == SLASH then Skip(path[1..]) else path
  }

  /** How long the first component is. */
  function Span(path: seq<byte>): (n: nat)
    ensures n <= |path| && SLASH !in path[..n] && (n < |path| ==> path[n] == SLASH)
  {
    if path == [] || path[0] == SLASH then 0 else
    var n := Span(path[1..]);
    assert path[..n + 1] == [path[0]] + path[1..][..n];
    n + 1
  }

  /** The names between the slashes. */
  function Components(path: seq<byte>): seq<seq<byte>>
    decreases |path|
  {
    var p := Skip(path);
    if p == [] then [] else [p[..Span(p)]] + Components(p[Span(p)..])
  }

  method SkipSlash(path: seq<byte>) returns (p: seq<byte>)
    ensures p == Skip(path)
  {
    p := path;
    while p != [] && p[0] == SLASH
      invariant Skip(p) == Skip(path)
      decreases |p|
    {
      p := p[1..];
    }
  }

  /** A directory without subdirectories, as the formatter makes it. */
  ghost predicate FlatRoot(img: Image) {
    && |img.root| == FILESIZE && Word(img.root, TYPE) == FTYPE_DIR && Word(img.root, SIZE) % BLKSIZE == 0
    && Readable(img, img.root, Word(img.root, SIZE) / BLKSIZE)
    && forall k: nat :: k < 16 * (Word(img.root, SIZE) / BLKSIZE) ==>
         Word(DirEntry(img, img.root, k), TYPE) != FTYPE_DIR
  }

  ghost predicate FirstNamed(img: Image, name: seq<byte>, k: nat)
    requires FlatRoot(img) && |name| < MAXNAMELEN
  {
    var n := Word(img.root, SIZE) / BLKSIZE;
    EntryNamed(img, img.root, n, k, name) && forall m: nat :: m < k ==> !EntryNamed(img, img.root, n, m, name)
  }

  ghost predicate Absent(img: Image, name: seq<byte>)
    requires FlatRoot(img) && |name| < MAXNAMELEN
  {
    forall m: nat :: !EntryNamed(img, img.root, Word(img.root, SIZE) / BLKSIZE, m, name)
  }

  /** walk_path over such a directory: no component is the root, one is looked up, more cannot exist. */
  method WalkPath(img: Image, path: seq<byte>) returns (r: int, f: seq<byte>, ghost k: nat)
    requires FlatRoot(img)
    ensures Components(path) == [] ==> r == 0 && f == img.root
    ensures |Components(path)| > 0 && |Components(path)[0]| >= MAXNAMELEN ==> r == -E_BAD_PATH
    ensures |Components(path)| == 1 && |Components(path)[0]| < MAXNAMELEN ==>
              if r == 0
              then k / 16 < FS.NDIRECT && FirstNamed(img, Components(path)[0], k) &&
                f == DirEntry(img, img.root, k)
              else r == -E_NOT_FOUND && Absent(img, Components(path)[0])
    ensures |Components(path)| > 1 ==> r == -E_BAD_PATH || r == -E_NOT_FOUND
  {
    hide Word, Named, Readable;
    k := 0;
    f := img.root;
    var p := SkipSlash(path);
    ghost var comps := Components(path);
    ghost var done := 0;
    while p != []
      invariant done <= 1 && done <= |comps| && |f| == FILESIZE && p == Skip(p)
      invariant Components(p) == comps[done..] && (p == [] ==> comps[done..] == [])
      invariant done == 0 ==> f == img.root
      invariant done == 1 ==> |comps[0]| < MAXNAMELEN && FirstNamed(img, comps[0], k) && k / 16 < FS.NDIRECT
      invariant done == 1 ==> f == DirEntry(img, img.root, k)
      decreases 1 - done, |p|
    {
      ghost var was := p;
      var len := Span(p);
      if len >= MAXNAMELEN {
        return -E_BAD_PATH, [], k;
      }
      var name := p[..len];
      p := SkipSlash(p[len..]);
      SkipTwice(was[len..]);
      if Word(f, TYPE) != FTYPE_DIR {
        return -E_NOT_FOUND, [], k;
      }
      assert comps[done..][1..] == comps[done + 1..];
      r, f, k := DirLookup(img, f, name);
      if r < 0 {
        return;
      }
      done := done + 1;
    }
    r := 0;
  }

  lemma SkipTwice(path: seq<byte>)
    ensures Skip(Skip(path)) == Skip(path) && Components(Skip(path)) == Components(path)
  {
  }

  /** A plain name, with or without slashes before it, is one component. */
  lemma OneComponent(name: seq<byte>)
    requires GoodName(name)
    ensures Components(name) == [name] && Components([SLASH] + name) == [name]
  {
    assert Skip(name) == name;
    WholeSpan(name);
    assert name[..|name|] == name && name[|name|..] == [] && Components([]) == [];
    assert Components(name) == [name[..|name|]] + Components(name[|name|..]);
    assert ([SLASH] + name)[1..] == name;
    assert Skip([SLASH] + name) == name;
  }

  lemma {:induction false} WholeSpan(name: seq<byte>)
    requires SLASH !in name
    ensures Span(name) == |name|
  {
    if name != [] {
      WholeSpan(name[1..]);
    }
  }

  // Reading a file

  ghost predicate BlocksOnDisk(img: Image, e: seq<byte>) {
    && |e| == FILESIZE && Word(e, SIZE) <= FS.NDIRECT * BLKSIZE && Readable(img, e, FS.Nblk(Word(e, SIZE)))
  }

  lemma ByteOnDisk(img: Image, e: seq<byte>, off: nat)
    requires BlocksOnDisk(img, e) && off < Word(e, SIZE)
    ensures off / BLKSIZE < FS.NDIRECT && 0 < Slot(e, off / BLKSIZE) < img.nblocks
    ensures Slot(e, off / BLKSIZE) * BLKSIZE + BLKSIZE <= |img.disk|
  {
    hide Word;
    InNblk(off, Word(e, SIZE));
  }

  lemma InNblk(off: nat, size: nat)
    requires off < size <= FS.NDIRECT * BLKSIZE
    ensures off / BLKSIZE < FS.Nblk(size) <= FS.NDIRECT
  {
  }

  /** A byte of a file, found through its block slots. */
  function FileByte(img: Image, e: seq<byte>, off: nat): byte
    requires BlocksOnDisk(img, e) && off < Word(e, SIZE)
  {
    ByteOnDisk(img, e, off);
    img.disk[Slot(e, off / BLKSIZE) * BLKSIZE + off % BLKSIZE]
  }

  lemma SameBlock(pos: nat, n: nat, off: nat)
    requires pos % BLKSIZE + n <= BLKSIZE && pos <= off < pos + n
    ensures off / BLKSIZE == pos / BLKSIZE && off % BLKSIZE == pos % BLKSIZE + (off - pos)
  {
  }

  /** file_read on an image. */
  method ReadFile(img: Image, e: seq<byte>, count: nat, offset: nat) returns (r: nat, buf: seq<byte>)
    requires BlocksOnDisk(img, e)
    ensures r == |buf| == if offset >= Word(e, SIZE) then 0 else FS.Min(count, Word(e, SIZE) - offset)
    ensures forall i: nat :: i < r ==> buf[i] == FileByte(img, e, offset + i)
  {
    hide Word, Readable, Slot;
    buf := [];
    if offset >= Word(e, SIZE) {
      return 0, [];
    }
    var n := FS.Min(count, Word(e, SIZE) - offset);
    var pos := offset;
    while pos < offset + n
      invariant offset <= pos <= offset + n && |buf| == pos - offset
      invariant forall i: nat :: i < |buf| ==> buf[i] == FileByte(img, e, offset + i)
    {
      ByteOnDisk(img, e, pos);
      var blk := Slot(e, pos / BLKSIZE) * BLKSIZE;
      var bn := FS.Min(BLKSIZE - pos % BLKSIZE, offset + n - pos);
      var chunk := img.disk[blk + pos % BLKSIZE..blk + pos % BLKSIZE + bn];
      forall i: nat | i < |buf| + bn
        ensures (buf + chunk)[i] == FileByte(img, e, offset + i)
      {
        if i >= |buf| {
          SameBlock(pos, bn, offset + i);
        }
      }
      buf := buf + chunk;
      pos := pos + bn;
    }
    return n, buf;
  }

  // Formatting, then reading

  ghost predicate DistinctNames(files: seq<Source>) {
    forall j: nat, k: nat :: j < k < |files| ==> files[j].name != files[k].name
  }

  /** Entries of the root node are the entries of the directory that was laid out. */
  lemma RootEntry(img: Image, files: seq<Source>, starts: seq<nat>, dir: nat, k: nat)
    requires Formatted(img, files, starts, dir) && k < 16 * FS.Nblk(FILESIZE * |files|)
    ensures var n := FS.Nblk(FILESIZE * |files|);
            && |img.root| == FILESIZE && Word(img.root, SIZE) == n * BLKSIZE && Readable(img, img.root, n) && k / 16 < n <= FS.NDIRECT
            && dir * BLKSIZE + FILESIZE * k + FILESIZE <= |img.disk|
            && Slot(img.root, k / 16) * BLKSIZE + FILESIZE * (k % 16) + FILESIZE <= |img.disk|
            && DirEntry(img, img.root, k) == EntryAt(img.disk, dir * BLKSIZE, k)
  {
    hide Word, Named, InUseBelow, FileLaid;
    var n := FS.Nblk(FILESIZE * |files|);
    DirRoom(|files|);
    WholeBlocks(n);
    forall i: nat | i < n
      ensures Slot(img.root, i) == dir + i
    {
    }
    EntryOnDisk(img, img.root, n, k);
    EntryOffset(dir, k);
  }

  lemma EntryOffset(dir: nat, k: nat)
    ensures (dir + k / 16) * BLKSIZE + FILESIZE * (k % 16) == dir * BLKSIZE + FILESIZE * k
  {
    assert k == 16 * (k / 16) + k % 16;
  }

  /** Two names of an entry are the same name. */
  lemma NameUnique(e: seq<byte>, a: seq<byte>, b: seq<byte>)
    requires |e| == FILESIZE && GoodName(a) && GoodName(b) && Named(e, a) && Named(e, b)
    ensures a == b
  {
  }

  lemma EntryKind(img: Image, files: seq<Source>, starts: seq<nat>, dir: nat, k: nat)
    requires Formatted(img, files, starts, dir) && k < 16 * FS.Nblk(FILESIZE * |files|)
    ensures dir * BLKSIZE + FILESIZE * k + FILESIZE <= |img.disk|
    ensures var e := EntryAt(img.disk, dir * BLKSIZE, k);
            if k < |files| then FileLaid(img.disk, e, files[k], starts[k], dir) else EmptyEntry(e)
  {
    hide EntryIs, InUseBelow, FileLaid, EmptyEntry;
  }

  lemma RootIsFlat(img: Image, files: seq<Source>, starts: seq<nat>, dir: nat)
    requires Formatted(img, files, starts, dir)
    ensures FlatRoot(img) && Word(img.root, SIZE) / BLKSIZE == FS.Nblk(FILESIZE * |files|)
  {
    hide Formatted, Named, Readable, DirEntry, EntryAt, FS.Nblk, Slot;
    var n := FS.Nblk(FILESIZE * |files|);
    SomeEntries(img, files, starts, dir);
    RootEntry(img, files, starts, dir, 0);
    assert n * BLKSIZE % BLKSIZE == 0 && n * BLKSIZE / BLKSIZE == n;
    forall k: nat | k < 16 * n
      ensures Word(DirEntry(img, img.root, k), TYPE) != FTYPE_DIR
    {
      RootEntry(img, files, starts, dir, k);
      EntryKind(img, files, starts, dir, k);
    }
  }

  lemma SomeEntries(img: Image, files: seq<Source>, starts: seq<nat>, dir: nat)
    requires Formatted(img, files, starts, dir)
    ensures FS.Nblk(FILESIZE * |files|) > 0 && |files| <= 16 * FS.Nblk(FILESIZE * |files|) && |starts| == |files|
    ensures |img.root| == FILESIZE && Word(img.root, TYPE) == FTYPE_DIR
  {
    hide Word, Named, FileLaid, InUseBelow;
    DirRoom(|files|);
  }

  /** The first entry with the name of file k is its own. */
  lemma FoundIsOwn(img: Image, files: seq<Source>, starts: seq<nat>, dir: nat, k: nat, m: nat)
    requires Formatted(img, files, starts, dir) && k < |files| && DistinctNames(files) && m < 16 * FS.Nblk(FILESIZE * |files|)
    requires forall i: nat :: i < |files| ==> GoodSource(files[i])
    ensures dir * BLKSIZE + FILESIZE * m + FILESIZE <= |img.disk|
    ensures Named(EntryAt(img.disk, dir * BLKSIZE, m), files[k].name) <==> m == k
  {
    hide Formatted, EntryAt, FS.Nblk, Word, Named;
    EntryKind(img, files, starts, dir, m);
    SomeEntries(img, files, starts, dir);
    var e := EntryAt(img.disk, dir * BLKSIZE, m);
    assert GoodSource(files[k]);
    if m < |files| {
      assert GoodSource(files[m]);
      if Named(e, files[k].name) {
        NameUnique(e, files[k].name, files[m].name);
      }
    } else {
      EmptyUnnamed(e, files[k].name);
    }
  }

  lemma EmptyUnnamed(e: seq<byte>, name: seq<byte>)
    requires EmptyEntry(e) && GoodName(name)
    ensures !Named(e, name)
  {
    assert e[..|name|][0] == e[0];
  }

  lemma DataThere(img: Image, files: seq<Source>, starts: seq<nat>, dir: nat, k: nat)
    requires Formatted(img, files, starts, dir) && k < |files| && |files[k].data| <= FS.NDIRECT * BLKSIZE
    ensures dir * BLKSIZE + FILESIZE * k + FILESIZE <= |img.disk|
    ensures var e := EntryAt(img.disk, dir * BLKSIZE, k);
            && BlocksOnDisk(img, e) && Word(e, SIZE) == |files[k].data|
            && forall off: nat :: off < |files[k].data| ==> FileByte(img, e, off) == files[k].data[off]
  {
    hide Formatted, EntryAt, FS.Nblk, Word, Named;
    SomeEntries(img, files, starts, dir);
    EntryKind(img, files, starts, dir, k);
    DirPlace(img, files, starts, dir);
    var e, data, start := EntryAt(img.disk, dir * BLKSIZE, k), files[k].data, starts[k];
    NblkBound(|data|);
    forall off: nat | off < |data|
      ensures FileByte(img, e, off) == data[off]
    {
      InNblk(off, |data|);
      assert Word(e, DIRECT + 4 * (off / BLKSIZE)) == start + off / BLKSIZE;
      LinearOffset(start, off);
      assert data[off] == img.disk[start * BLKSIZE..start * BLKSIZE + |data|][off];
    }
  }

  lemma LinearOffset(start: nat, off: nat)
    ensures (start + off / BLKSIZE) * BLKSIZE + off % BLKSIZE == start * BLKSIZE + off
  {
  }

  lemma DirPlace(img: Image, files: seq<Source>, starts: seq<nat>, dir: nat)
    requires Formatted(img, files, starts, dir)
    ensures |img.disk| == img.nblocks * BLKSIZE && dir < img.nblocks
  {
  }

  /** Every file of a formatted disk is found by its name and read back byte for byte. */
  method FindAndRead(img: Image, files: seq<Source>, ghost starts: seq<nat>, ghost dir: nat, k: nat) returns (r: int, data: seq<byte>)
    requires Formatted(img, files, starts, dir) && k < |files| && DistinctNames(files)
    requires forall i: nat :: i < |files| ==> GoodSource(files[i])
    ensures r == |files[k].data| && data == files[k].data
  {
    hide Formatted, EntryAt, FS.Nblk, Word, Named, Readable, DirEntry, Slot, FileByte, Components;
    RootIsFlat(img, files, starts, dir);
    assert GoodSource(files[k]);
    OneComponent(files[k].name);
    var e;
    ghost var m;
    r, e, m := WalkPath(img, [SLASH] + files[k].name);
    OwnEntry(img, files, starts, dir, k, r, e, m);
    DataThere(img, files, starts, dir, k);
    r, data := ReadFile(img, e, |files[k].data|, 0);
    assert forall i: nat :: i < r ==> data[i] == FileByte(img, e, 0 + i);
  }

  lemma OwnEntry(img: Image, files: seq<Source>, starts: seq<nat>, dir: nat, k: nat, r: int, e: seq<byte>, m: nat)
    requires Formatted(img, files, starts, dir) && k < |files| && DistinctNames(files) && FlatRoot(img)
    requires forall i: nat :: i < |files| ==> GoodSource(files[i])
    requires |files[k].name| < MAXNAMELEN
    requires if r == 0
             then m / 16 < FS.NDIRECT && FirstNamed(img, files[k].name, m) &&
               e == DirEntry(img, img.root, m)
             else Absent(img, files[k].name)
    ensures r == 0 && m == k
    ensures dir * BLKSIZE + FILESIZE * k + FILESIZE <= |img.disk| && e == EntryAt(img.disk, dir * BLKSIZE, k)
  {
    hide Formatted, EntryAt, FS.Nblk, Word, Named, Readable, DirEntry, Slot;
    RootIsFlat(img, files, starts, dir);
    SomeEntries(img, files, starts, dir);
    RootEntry(img, files, starts, dir, k);
    FoundIsOwn(img, files, starts, dir, k, k);
    assert EntryNamed(img, img.root, Word(img.root, SIZE) / BLKSIZE, k, files[k].name);
    if r == 0 {
      RootEntry(img, files, starts, dir, m);
      FoundIsOwn(img, files, starts, dir, k, m);
    }
  }

  // The image as the file server finds it

  function Bits(data: seq<byte>): seq<bv8> {
    seq(|data|, i requires 0 <= i < |data| => data[i] as bv8)
  }

  function NodeOf(e: seq<byte>): FS.File
    requires |e| == FILESIZE
  {
    FS.File(Word(e, SIZE), seq(FS.NDIRECT + 1, i requires 0 <= i <= FS.NDIRECT => Word(e, DIRECT + 4 * i)))
  }

  function BlockBytes(disk: seq<byte>, b: nat): seq<bv8> {
    if (b + 1) * BLKSIZE <= |disk| then Bits(disk[b * BLKSIZE..(b + 1) * BLKSIZE]) else []
  }

  /** The nodes of an image: the root, then every entry of its directory. */
  function NodeAt(img: Image, j: nat): FS.File
    requires |img.root| == FILESIZE
  {
    if j == 0 then NodeOf(img.root) else NodeOf(DirEntry(img, img.root, j - 1))
  }

  /** What the file server's block cache shows of an image. */
  function AsFs(img: Image): FS.Fs
    requires |img.root| == FILESIZE
  {
    FS.Fs(img.nblocks, img.bitmap, seq(img.nblocks, b requires 0 <= b => BlockBytes(img.disk, b)),
          seq(1 + 16 * (Word(img.root, SIZE) / BLKSIZE), j requires 0 <= j => NodeAt(img, j)))
  }

  /** Where the blocks of node j begin, and how many it has. */
  ghost function Base(files: seq<Source>, starts: seq<nat>, dir: nat, j: nat): nat {
    if 0 < j <= |files| && |starts| == |files| then starts[j - 1] else dir
  }

  ghost function Count(files: seq<Source>, j: nat): nat {
    if j == 0 then FS.Nblk(FILESIZE * |files|) else if j <= |files| then Taken(|files[j - 1].data|) else 0
  }

  ghost function SizeOf(files: seq<Source>, j: nat): nat {
    if j == 0 then FS.Nblk(FILESIZE * |files|) * BLKSIZE else if j <= |files| then |files[j - 1].data| else 0
  }

  /** The words past a file's blocks are 0 in its entry. */
  ghost predicate CleanEntry(img: Image, files: seq<Source>, dir: nat, k: nat) {
    k < |files| && dir * BLKSIZE + FILESIZE * k + FILESIZE <= |img.disk| ==>
      ZeroPast(EntryAt(img.disk, dir * BLKSIZE, k), Taken(|files[k].data|))
  }

  lemma Shape(img: Image, files: seq<Source>, starts: seq<nat>, dir: nat)
    requires Formatted(img, files, starts, dir)
    ensures |img.root| == FILESIZE && |starts| == |files| <= 16 * FS.Nblk(FILESIZE * |files|) && FS.Nblk(FILESIZE * |files|) <= 8
    ensures |AsFs(img).files| == 1 + 16 * FS.Nblk(FILESIZE * |files|)
  {
    hide Formatted, DirEntry, FS.Nblk, Word;
    SomeEntries(img, files, starts, dir);
    RootIsFlat(img, files, starts, dir);
    FewEntries(img, files, starts, dir);
    DirRoom(|files|);
  }

  lemma FewEntries(img: Image, files: seq<Source>, starts: seq<nat>, dir: nat)
    requires Formatted(img, files, starts, dir)
    ensures |files| <= MAXENTS && 3 <= dir && dir + FS.Nblk(FILESIZE * |files|) <= img.used < img.nblocks <= 1024
    ensures |img.disk| == img.nblocks * BLKSIZE && InUseBelow(img.bitmap, img.nblocks, img.used)
  {
  }

  /** Node j: its size and, for a clean one, exactly its blocks. */
  lemma NodeFacts(img: Image, files: seq<Source>, starts: seq<nat>, dir: nat, j: nat, i: nat)
    requires Formatted(img, files, starts, dir) && j < 1 + 16 * FS.Nblk(FILESIZE * |files|) && i <= FS.NDIRECT
    ensures |img.root| == FILESIZE
    ensures NodeAt(img, j).size == SizeOf(files, j) && |NodeAt(img, j).slots| == FS.NDIRECT + 1
    ensures i < Count(files, j) ==> NodeAt(img, j).slots[i] == Base(files, starts, dir, j) + i
    ensures i >= Count(files, j) && (0 < j <= |files| ==> CleanEntry(img, files, dir, j - 1)) ==> NodeAt(img, j).slots[i] == 0
    ensures 0 < j <= |files| ==> dir * BLKSIZE + FILESIZE * (j - 1) + FILESIZE <= |img.disk|
    ensures 0 < j <= |files| ==> NodeAt(img, j).slots[i] == Word(EntryAt(img.disk, dir * BLKSIZE, j - 1), DIRECT + 4 * i)
  {
    hide Formatted, DirEntry, FS.Nblk, Named, EntryAt, At, Word;
    Shape(img, files, starts, dir);
    if j == 0 {
      RootFacts(img, files, starts, dir, i);
    } else {
      RootEntry(img, files, starts, dir, j - 1);
      EntryKind(img, files, starts, dir, j - 1);
      if j > |files| {
        EmptyWords(DirEntry(img, img.root, j - 1), i);
      }
    }
  }

  lemma RootFacts(img: Image, files: seq<Source>, starts: seq<nat>, dir: nat, i: nat)
    requires Formatted(img, files, starts, dir) && i <= FS.NDIRECT
    ensures |img.root| == FILESIZE && Word(img.root, SIZE) == FS.Nblk(FILESIZE * |files|) * BLKSIZE
    ensures Word(img.root, DIRECT + 4 * i) == if i < FS.Nblk(FILESIZE * |files|) then dir + i else 0
  {
    hide DirLaid, InUseBelow, Word, Named;
    DirRoom(|files|);
    WholeBlocks(FS.Nblk(FILESIZE * |files|));
  }

  lemma EmptyWords(e: seq<byte>, i: nat)
    requires EmptyEntry(e) && i <= FS.NDIRECT
    ensures Word(e, SIZE) == 0 && Word(e, DIRECT + 4 * i) == 0
  {
  }

  /** Blocks of different nodes lie apart, all of them allocated and past the headers. */
  lemma BasesApart(img: Image, files: seq<Source>, starts: seq<nat>, dir: nat, j: nat, k: nat)
    requires Formatted(img, files, starts, dir) && j <= |files| && k <= |files|
    ensures 3 <= Base(files, starts, dir, j) && Base(files, starts, dir, j) + Count(files, j) <= img.used
    ensures 0 < j < k ==> Base(files, starts, dir, j) + Count(files, j) <= Base(files, starts, dir, k)
    ensures 0 < j ==> Base(files, starts, dir, j) + Count(files, j) <= dir == Base(files, starts, dir, 0)
  {
    hide EntryIs, InUseBelow, FS.Nblk, Taken, EntryAt, ZeroPast;
    if 0 < j {
      assert FileLaid(img.disk, EntryAt(img.disk, dir * BLKSIZE, j - 1), files[j - 1], starts[j - 1], dir);
      if j < k {
        assert Apart(files, starts, j - 1, k - 1);
      }
    }
  }

  lemma InSize(files: seq<Source>, j: nat, i: nat)
    requires i < Count(files, j) && i <= FS.NDIRECT
    ensures FS.FirstByte(i) < SizeOf(files, j)
  {
  }

  lemma PastSize(files: seq<Source>, j: nat, i: nat)
    requires 0 < j <= |files| && Count(files, j) <= i <= FS.NDIRECT
    ensures SizeOf(files, j) <= FS.FirstByte(i)
  {
  }

  lemma UsedNotFree(img: Image, b: nat)
    requires |img.root| == FILESIZE && InUseBelow(img.bitmap, img.nblocks, img.used) && b < img.used
    ensures !FS.Free(AsFs(img), b)
  {
    hide FS.BitOf, NodeAt, BlockBytes;
  }

  lemma HeldNode(img: Image, x: FS.Slot)
    requires |img.root| == FILESIZE
    ensures var s := AsFs(img);
            FS.Held(s, x) == if x.f < |s.files| && x.i < |NodeAt(img, x.f).slots| then NodeAt(img, x.f).slots[x.i] else 0
  {
    hide NodeAt, BlockBytes, Word;
  }

  /** The slots of a clean image. */
  lemma CleanHeld(img: Image, files: seq<Source>, starts: seq<nat>, dir: nat, x: FS.Slot)
    requires Formatted(img, files, starts, dir) && forall k: nat :: CleanEntry(img, files, dir, k)
    ensures |img.root| == FILESIZE
    ensures var h := FS.Held(AsFs(img), x);
            h != 0 ==> x.f <= |files| && x.i < Count(files, x.f) && x.i <= FS.NDIRECT && h == Base(files, starts, dir, x.f) + x.i
                       && x.f < |AsFs(img).files| && AsFs(img).files[x.f].size == SizeOf(files, x.f)
  {
    hide Formatted, NodeAt, CleanEntry, FS.Nblk, BlockBytes, Word;
    Shape(img, files, starts, dir);
    HeldNode(img, x);
    if x.f < |AsFs(img).files| {
      NodeFacts(img, files, starts, dir, x.f, 0);
      if x.i <= FS.NDIRECT {
        NodeFacts(img, files, starts, dir, x.f, x.i);
      }
    }
  }

  lemma CleanSlotOk(img: Image, files: seq<Source>, starts: seq<nat>, dir: nat, x: FS.Slot)
    requires Formatted(img, files, starts, dir) && forall k: nat :: CleanEntry(img, files, dir, k)
    ensures |img.root| == FILESIZE && FS.SlotOk(AsFs(img), x)
  {
    hide Formatted, NodeAt, CleanEntry, FS.Nblk, BlockBytes, Word, FS.Free, FS.Held, FS.FirstByte, Count, Base, InUseBelow;
    CleanHeld(img, files, starts, dir, x);
    FewEntries(img, files, starts, dir);
    var h := FS.Held(AsFs(img), x);
    if h != 0 {
      BasesApart(img, files, starts, dir, x.f, x.f);
      InSize(files, x.f, x.i);
      UsedNotFree(img, h);
    }
  }

  lemma CleanDistinct(img: Image, files: seq<Source>, starts: seq<nat>, dir: nat, x: FS.Slot, y: FS.Slot)
    requires Formatted(img, files, starts, dir) && forall k: nat :: CleanEntry(img, files, dir, k)
    ensures |img.root| == FILESIZE && FS.Distinct(AsFs(img), x, y)
  {
    hide Formatted, NodeAt, CleanEntry, FS.Nblk, AsFs, Word, FS.Held, Count, Base;
    CleanHeld(img, files, starts, dir, x);
    CleanHeld(img, files, starts, dir, y);
    if FS.Held(AsFs(img), x) != 0 && FS.Held(AsFs(img), y) != 0 {
      BasesApart(img, files, starts, dir, x.f, y.f);
      BasesApart(img, files, starts, dir, y.f, x.f);
    }
  }

  lemma ShapeOk(img: Image, files: seq<Source>, starts: seq<nat>, dir: nat)
    requires Formatted(img, files, starts, dir)
    ensures |img.root| == FILESIZE
    ensures var s := AsFs(img);
            && |s.blocks| == s.nblocks <= |s.bitmap| * 32
            && (forall b: nat :: b < s.nblocks ==> |s.blocks[b]| == BLKSIZE)
            && (forall f: nat :: f < |s.files| ==> |s.files[f].slots| == FS.NDIRECT + 1 && s.files[f].size <= FS.LIMIT)
            && (forall b: nat :: FS.Reserved(s, b) ==> !FS.Free(s, b))
  {
    hide Formatted, NodeAt, FS.Nblk, Word, FS.Free;
    Shape(img, files, starts, dir);
    FewEntries(img, files, starts, dir);
    var s := AsFs(img);
    forall f: nat | f < |s.files|
      ensures |s.files[f].slots| == FS.NDIRECT + 1 && s.files[f].size <= FS.LIMIT
    {
      NodeFacts(img, files, starts, dir, f, 0);
      SmallFile(img, files, starts, dir, f);
    }
    forall b: nat | FS.Reserved(s, b)
      ensures !FS.Free(s, b)
    {
      UsedNotFree(img, b);
    }
  }

  lemma SmallFile(img: Image, files: seq<Source>, starts: seq<nat>, dir: nat, j: nat)
    requires Formatted(img, files, starts, dir)
    ensures SizeOf(files, j) <= FS.NDIRECT * BLKSIZE
  {
    hide EntryIs, InUseBelow, EntryAt, ZeroPast;
    DirRoom(|files|);
    if 0 < j <= |files| {
      assert FileLaid(img.disk, EntryAt(img.disk, dir * BLKSIZE, j - 1), files[j - 1], starts[j - 1], dir);
    }
  }

  /** A formatted image is a state the file server's operations start from if and only if the words
      past each file's blocks are 0 in its entry. */
  lemma FormattedOkIff(img: Image, files: seq<Source>, starts: seq<nat>, dir: nat)
    requires Formatted(img, files, starts, dir)
    ensures |img.root| == FILESIZE
    ensures FS.Ok(AsFs(img)) <==> forall k: nat :: CleanEntry(img, files, dir, k)
  {
    hide Formatted, AsFs, CleanEntry, FS.SlotOk, FS.Distinct, FS.Reserved, FS.Free;
    ShapeOk(img, files, starts, dir);
    if forall k: nat :: CleanEntry(img, files, dir, k) {
      forall x
        ensures FS.SlotOk(AsFs(img), x)
      {
        CleanSlotOk(img, files, starts, dir, x);
      }
      forall x, y
        ensures FS.Distinct(AsFs(img), x, y)
      {
        CleanDistinct(img, files, starts, dir, x, y);
      }
    }
    if FS.Ok(AsFs(img)) {
      forall k: nat
        ensures CleanEntry(img, files, dir, k)
      {
        OkIsClean(img, files, starts, dir, k);
      }
    }
  }

  lemma OkIsClean(img: Image, files: seq<Source>, starts: seq<nat>, dir: nat, k: nat)
    requires Formatted(img, files, starts, dir) && |img.root| == FILESIZE && forall x :: FS.SlotOk(AsFs(img), x)
    ensures CleanEntry(img, files, dir, k)
  {
    hide Formatted, NodeAt, FS.Nblk, BlockBytes, Word, FS.Free, FS.Held, FS.Reserved, FS.FirstByte, Count, SizeOf;
    if k < |files| && dir * BLKSIZE + FILESIZE * k + FILESIZE <= |img.disk| {
      var e, j := EntryAt(img.disk, dir * BLKSIZE, k), k + 1;
      Shape(img, files, starts, dir);
      CountOf(files, j);
      forall i: nat | Taken(|files[k].data|) <= i <= FS.NDIRECT
        ensures Word(e, DIRECT + 4 * i) == 0
      {
        NodeFacts(img, files, starts, dir, j, i);
        PastSize(files, j, i);
        HeldNode(img, FS.Slot(j, i));
        assert FS.SlotOk(AsFs(img), FS.Slot(j, i));
      }
    }
  }

  lemma CountOf(files: seq<Source>, j: nat)
    requires 0 < j <= |files|
    ensures Count(files, j) == Taken(|files[j - 1].data|)
  {
  }

  /** Clean or not, the file server reads every file's own bytes from its node. */
  lemma ServerHasData(img: Image, files: seq<Source>, starts: seq<nat>, dir: nat, k: nat)
    requires Formatted(img, files, starts, dir) && k < |files|
    ensures |img.root| == FILESIZE && FS.Has(AsFs(img), k + 1, 0, Bits(files[k].data))
  {
    hide Formatted, AsFs, FS.ByteAt;
    Shape(img, files, starts, dir);
    var data := files[k].data;
    forall off: nat | off < |data|
      ensures FS.ByteAt(AsFs(img), k + 1, off) == FS.Val(Bits(data)[off])
    {
      ServedByte(img, files, starts, dir, k, off);
    }
  }

  lemma ServedByte(img: Image, files: seq<Source>, starts: seq<nat>, dir: nat, k: nat, off: nat)
    requires Formatted(img, files, starts, dir) && k < |files| && off < |files[k].data|
    ensures |img.root| == FILESIZE && FS.ByteAt(AsFs(img), k + 1, off) == FS.Val(files[k].data[off] as bv8)
  {
    hide Formatted, NodeAt, FS.Nblk, Word, Count, Base, FS.Held, BlockBytes;
    Shape(img, files, starts, dir);
    FewEntries(img, files, starts, dir);
    DataPlaced(img, files, starts, dir, k);
    var j, i := k + 1, off / BLKSIZE;
    InNblk(off, |files[k].data|);
    DataBlock(files, starts, dir, k, i);
    NodeFacts(img, files, starts, dir, j, i);
    HeldNode(img, FS.Slot(j, i));
    BasesApart(img, files, starts, dir, j, j);
    LinearOffset(starts[k], off);
    BlockByte(img.disk, img.nblocks, starts[k] + i, off % BLKSIZE);
  }

  lemma BlockByte(disk: seq<byte>, nblocks: nat, b: nat, at: nat)
    requires |disk| == nblocks * BLKSIZE && b < nblocks && at < BLKSIZE
    ensures b * BLKSIZE + at < |disk|
    ensures |BlockBytes(disk, b)| == BLKSIZE && BlockBytes(disk, b)[at] == disk[b * BLKSIZE + at] as bv8
  {
  }

  lemma DataBlock(files: seq<Source>, starts: seq<nat>, dir: nat, k: nat, i: nat)
    requires k < |files| == |starts| && |files[k].data| <= FS.NDIRECT * BLKSIZE && i < FS.Nblk(|files[k].data|)
    ensures i < FS.NDIRECT && i < Count(files, k + 1) && Base(files, starts, dir, k + 1) == starts[k]
  {
  }

  lemma DataPlaced(img: Image, files: seq<Source>, starts: seq<nat>, dir: nat, k: nat)
    requires Formatted(img, files, starts, dir) && k < |files|
    ensures |starts| == |files| && |files[k].data| <= FS.NDIRECT * BLKSIZE
    ensures starts[k] * BLKSIZE + |files[k].data| <= |img.disk|
    ensures forall off: nat :: off < |files[k].data| ==> img.disk[starts[k] * BLKSIZE + off] == files[k].data[off]
  {
    hide EntryIs, InUseBelow, EntryAt, FS.Nblk, ZeroPast;
    var data := files[k].data;
    assert FileLaid(img.disk, EntryAt(img.disk, dir * BLKSIZE, k), files[k], starts[k], dir);
    forall off: nat | off < |data|
      ensures img.disk[starts[k] * BLKSIZE + off] == data[off]
    {
      assert data[off] == img.disk[starts[k] * BLKSIZE..starts[k] * BLKSIZE + |data|][off];
    }
  }

  /** The same condition on what the entries held before: the caller of the formatter can read it off. */
  lemma LeftoverOkIff(img: Image, files: seq<Source>, starts: seq<nat>, dir: nat, garbage: seq<seq<byte>>, ents: seq<seq<byte>>)
    requires Formatted(img, files, starts, dir) && Leftover(garbage, ents, files) && DirHolds(img.disk, dir, ents[..|files|])
    ensures |img.root| == FILESIZE
    ensures FS.Ok(AsFs(img)) <==> forall k: nat :: k < |files| ==> ZeroPast(garbage[k], Taken(|files[k].data|))
  {
    hide Formatted, AsFs, FS.Ok, Taken, ZeroPast, SamePast, EntryAt;
    FormattedOkIff(img, files, starts, dir);
    forall k: nat | k < |files|
      ensures CleanEntry(img, files, dir, k) == ZeroPast(garbage[k], Taken(|files[k].data|))
    {
      assert EntryHeld(img.disk, dir, k, ents[..|files|][k]);
      ZeroKeptPast(garbage[k], ents[k], Taken(|files[k].data|));
    }
    assert forall k: nat :: k >= |files| ==> CleanEntry(img, files, dir, k);
  }

  /** Formatter to server: started on a clean image, the file server returns every file's own bytes. */
  method ServeFile(img: Image, files: seq<Source>, ghost starts: seq<nat>, ghost dir: nat, k: nat) returns (r: int, got: seq<bv8>)
    requires Formatted(img, files, starts, dir) && k < |files| && |img.root| == FILESIZE
    requires forall i: nat :: CleanEntry(img, files, dir, i)
    ensures r == |files[k].data| && got == Bits(files[k].data)
  {
    hide Formatted, AsFs, CleanEntry, FS.Ok, FS.Free, FS.Kept, FS.Has, FS.HasHole;
    FormattedOkIff(img, files, starts, dir);
    FS.BlocksWhole(AsFs(img));
    var server := new FS.FileServer(AsFs(img));
    ghost var s := server.S();
    ServerHasData(img, files, starts, dir, k);
    FS.NoHole(s, k + 1, 0, Bits(files[k].data));
    ServedSize(img, files, starts, dir, k);
    r, got := server.FileRead(k + 1, |files[k].data|, 0);
    FS.ReadBack(s, server.S(), k + 1, 0, Bits(files[k].data), got);
  }

  lemma ServedSize(img: Image, files: seq<Source>, starts: seq<nat>, dir: nat, k: nat)
    requires Formatted(img, files, starts, dir) && k < |files|
    ensures |img.root| == FILESIZE && k + 1 < |AsFs(img).files| && AsFs(img).files[k + 1].size == |files[k].data|
  {
    hide Formatted, NodeAt, FS.Nblk, Word, BlockBytes;
    Shape(img, files, starts, dir);
    NodeFacts(img, files, starts, dir, k + 1, 0);
  }

  /** On an image that is not clean, where a word past the blocks of file k names a data block of file j:
      file_write to k at that place records the size, takes the word for an allocated block, and its
      store changes a byte of j. */
  lemma DirtyWriteHits(img: Image, files: seq<Source>, starts: seq<nat>, dir: nat, k: nat, i: nat, j: nat, off: nat, x: bv8)
    requires Formatted(img, files, starts, dir) && k < |files| && j < |files| == |starts| && j != k && off < |files[j].data|
    requires Taken(|files[k].data|) <= i < FS.NDIRECT && dir * BLKSIZE + FILESIZE * k + FILESIZE <= |img.disk|
    requires Word(EntryAt(img.disk, dir * BLKSIZE, k), DIRECT + 4 * i) == starts[j] + off / BLKSIZE
    ensures !CleanEntry(img, files, dir, k)
    ensures |img.root| == FILESIZE
    ensures var s := FS.SetSize(AsFs(img), k + 1, i * BLKSIZE + off % BLKSIZE + 1);
            var b := FS.Held(s, FS.Slot(k + 1, i));
            && b != 0 && FS.ByteAt(s, j + 1, off) == FS.Val(files[j].data[off] as bv8)
            && FS.ByteAt(FS.Store(s, b, off % BLKSIZE, [x]), j + 1, off) == FS.Val(x)
  {
    hide Formatted, NodeAt, FS.Nblk, Word, Count, Base, BlockBytes, AsFs;
    Shape(img, files, starts, dir);
    FewEntries(img, files, starts, dir);
    DataPlaced(img, files, starts, dir, j);
    InNblk(off, |files[j].data|);
    DataBlock(files, starts, dir, j, off / BLKSIZE);
    BasesApart(img, files, starts, dir, j + 1, j + 1);
    NodeFacts(img, files, starts, dir, k + 1, i);
    NodeFacts(img, files, starts, dir, j + 1, off / BLKSIZE);
    HeldNode(img, FS.Slot(k + 1, i));
    HeldNode(img, FS.Slot(j + 1, off / BLKSIZE));
    ServedByte(img, files, starts, dir, j, off);
    StoreHits(AsFs(img), k + 1, i * BLKSIZE + off % BLKSIZE + 1, i, j + 1, off, x);
  }

  lemma StoreHits(s: FS.Fs, f: nat, size: nat, i: nat, g: nat, off: nat, x: bv8)
    requires var b := FS.Held(s, FS.Slot(f, i)); b == FS.Held(s, FS.Slot(g, off / BLKSIZE)) && FS.ByteAt(s, g, off).Val?
    ensures var t := FS.SetSize(s, f, size);
            var b := FS.Held(t, FS.Slot(f, i));
            && b == FS.Held(s, FS.Slot(f, i)) != 0 && FS.ByteAt(t, g, off) == FS.ByteAt(s, g, off)
            && FS.ByteAt(FS.Store(t, b, off % BLKSIZE, [x]), g, off) == FS.Val(x)
  {
    var t := FS.SetSize(s, f, size);
    FS.SizeHeld(s, f, size);
    var b := FS.Held(t, FS.Slot(f, i));
    assert FS.Held(FS.Store(t, b, off % BLKSIZE, [x]), FS.Slot(g, off / BLKSIZE)) == b;
  }
}
