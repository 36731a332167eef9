/** Files within their direct blocks: the block bitmap, block slots and byte-level reads and writes of
    fs/fs.c, through the block cache. */
module FileSystem {
  import opened BlockCache

  const NDIRECT: nat := 10
  const INDIRECT: nat := 10             // the slot number this model gives f_indirect
  const LIMIT: nat := 0xA000            // NDIRECT * BLKSIZE
  const E_NO_DISK: int := 9

  /** A file node: its size and block slots, the ten direct ones and f_indirect; 0 is no block. */
  datatype File = File(size: nat, slots: seq<nat>)

  /** The disk as the file server sees it through its block cache. */
  datatype Fs = Fs(nblocks: nat, bitmap: seq<bv32>, blocks: seq<seq<Byte>>, files: seq<File>)

  function Bit(k: nat): bv32
    requires k < 32
  {
    (1 as bv32) << k
  }

  predicate BitOf(w: bv32, k: nat)
    requires k < 32
  {
    w & Bit(k) != 0
  }

  function WithBit(w: bv32, k: nat, on: bool): bv32
    requires k < 32
  {
    if on then w | Bit(k) else w & !Bit(k)
  }

  /** block_is_free: a set bit means free, and nothing outside the disk is. */
  predicate Free(s: Fs, b: nat) {
    b < s.nblocks && b / 32 < |s.bitmap| && BitOf(s.bitmap[b / 32], b % 32)
  }

  function Blk(off: nat): nat { off / BLKSIZE }
  function Pos(off: nat): nat { off % BLKSIZE }
  function Nblk(size: nat): nat { (size + BLKSIZE - 1) / BLKSIZE }

  /** A slot, as a number pair. */
  datatype Slot = Slot(f: nat, i: nat)

  predicate InTable(s: Fs, x: Slot) {
    x.f < |s.files| && x.i < |s.files[x.f].slots|
  }

  /** The block a slot holds, 0 if none. */
  function Held(s: Fs, x: Slot): nat {
    if InTable(s, x) then s.files[x.f].slots[x.i] else 0
  }

  /** The blocks that belong to no file: boot block, super block and bitmap. */
  predicate Reserved(s: Fs, b: nat) {
    b < 2 + (s.nblocks + BLKSIZE * 8 - 1) / (BLKSIZE * 8)
  }

  /** The file byte a slot is for; only a file that reaches its last direct block has an indirect one. */
  function FirstByte(i: nat): nat {
    (if i < NDIRECT then i else NDIRECT - 1) * BLKSIZE
  }

  ghost predicate SlotOk(s: Fs, x: Slot) {
    Held(s, x) != 0 ==>
      && Held(s, x) < s.nblocks && !Free(s, Held(s, x)) && !Reserved(s, Held(s, x))
      && FirstByte(x.i) < s.files[x.f].size
  }

  ghost predicate Distinct(s: Fs, x: Slot, y: Slot) {
    x != y && Held(s, x) != 0 ==> Held(s, x) != Held(s, y)
  }

  ghost predicate Ok(s: Fs) {
    && |s.blocks| == s.nblocks <= |s.bitmap| * 32
    && (forall b: nat :: b < s.nblocks ==> |s.blocks[b]| == BLKSIZE)
    && (forall f: nat :: f < |s.files| ==> |s.files[f].slots| == NDIRECT + 1 && s.files[f].size <= LIMIT)
    && (forall b: nat :: Reserved(s, b) ==> !Free(s, b))
    && (forall x :: SlotOk(s, x))
    && (forall x, y :: Distinct(s, x, y))
  }

  /** A byte of a file, if its block is allocated. */
  datatype Cell = Hole | Val(b: Byte)

  ghost function ByteAt(s: Fs, f: nat, off: nat): Cell {
    var b := Held(s, Slot(f, Blk(off)));
    if Blk(off) < NDIRECT && 0 < b < |s.blocks| && Pos(off) < |s.blocks[b]| then Val(s.blocks[b][Pos(off)]) else Hole
  }

  // The primitive changes

  function SetBit(s: Fs, b: nat, free: bool): Fs {
    if b / 32 < |s.bitmap| then
      s.(bitmap := s.bitmap[b / 32 := WithBit(s.bitmap[b / 32], b % 32, free)])
    else s
  }

  function SetSlot(s: Fs, x: Slot, b: nat): Fs {
    if InTable(s, x) then
      s.(files := s.files[x.f := s.files[x.f].(slots := s.files[x.f].slots[x.i := b])])
    else s
  }

  function SetSize(s: Fs, f: nat, size: nat): Fs {
    if f < |s.files| then s.(files := s.files[f := s.files[f].(size := size)]) else s
  }

  function Store(s: Fs, b: nat, at: nat, data: seq<Byte>): Fs {
    if b < |s.blocks| then s.(blocks := s.blocks[b := Splice(s.blocks[b], at, data)]) else s
  }

  /** Different bits of a word have nothing in common. */
  lemma BitsApart(i: nat, j: nat)
    requires i < 32 && j < 32 && i != j
    ensures Bit(i) & Bit(j) == 0
  {
  }

  lemma MaskSet(w: bv32, b: bv32, c: bv32)
    requires b & c == 0
    ensures (w | c) & b == w & b
  {
  }

  lemma MaskClear(w: bv32, b: bv32, c: bv32)
    requires b & c == 0
    ensures (w & !c) & b == w & b
  {
  }

  lemma SetApart(w: bv32, i: nat, j: nat)
    requires i < 32 && j < 32 && i != j
    ensures (w | Bit(j)) & Bit(i) == w & Bit(i)
  {
    BitsApart(i, j);
    MaskSet(w, Bit(i), Bit(j));
  }

  lemma ClearApart(w: bv32, i: nat, j: nat)
    requires i < 32 && j < 32 && i != j
    ensures (w & !Bit(j)) & Bit(i) == w & Bit(i)
  {
    BitsApart(i, j);
    MaskClear(w, Bit(i), Bit(j));
  }

  lemma SetThere(w: bv32, j: nat)
    requires j < 32
    ensures (w | Bit(j)) & Bit(j) != 0
  {
  }

  lemma ClearThere(w: bv32, j: nat)
    requires j < 32
    ensures (w & !Bit(j)) & Bit(j) == 0
  {
  }

  lemma SetOf(w: bv32, j: nat, i: nat)
    requires i < 32 && j < 32
    ensures BitOf(w | Bit(j), i) == (i == j || BitOf(w, i))
  {
    if i == j {
      SetThere(w, j);
    } else {
      SetApart(w, i, j);
    }
  }

  lemma ClearOf(w: bv32, j: nat, i: nat)
    requires i < 32 && j < 32
    ensures BitOf(w & !Bit(j), i) == (i != j && BitOf(w, i))
  {
    if i == j {
      ClearThere(w, j);
    } else {
      ClearApart(w, i, j);
    }
  }

  lemma WithBitOf(w: bv32, j: nat, on: bool, i: nat)
    requires i < 32 && j < 32
    ensures BitOf(WithBit(w, j, on), i) == if i == j then on else BitOf(w, i)
  {
    if on {
      SetOf(w, j, i);
    } else {
      ClearOf(w, j, i);
    }
  }

  lemma SameWordBit(b: nat, c: nat)
    requires b / 32 == c / 32 && b % 32 == c % 32
    ensures b == c
  {
  }

  /** Setting the bit of one block changes the state of that block and no other. */
  lemma SetBitFree(s: Fs, b: nat, free: bool, c: nat)
    requires s.nblocks <= |s.bitmap| * 32
    ensures Free(SetBit(s, b, free), c) == if c == b && b < s.nblocks then free else Free(s, c)
  {
    hide BitOf, WithBit;
    if b / 32 < |s.bitmap| && c / 32 == b / 32 {
      WithBitOf(s.bitmap[b / 32], b % 32, free, c % 32);
      if c % 32 == b % 32 {
        SameWordBit(b, c);
      }
    }
  }

  // What the changes keep

  lemma SetBitHeld(s: Fs, b: nat, free: bool, x: Slot)
    ensures Held(SetBit(s, b, free), x) == Held(s, x)
  {
  }

  lemma SetSlotHeld(s: Fs, x: Slot, b: nat, y: Slot)
    requires InTable(s, x)
    ensures Held(SetSlot(s, x, b), y) == if y == x then b else Held(s, y)
  {
  }

  /** alloc_block takes a block no slot holds. */
  lemma TakeOk(s: Fs, b: nat)
    requires Ok(s) && Free(s, b)
    ensures Ok(SetBit(s, b, false)) && !Reserved(s, b) && forall x :: Held(s, x) != b || b == 0
  {
    hide Free, SetBit, Held, Reserved;
    var t := SetBit(s, b, false);
    SetBitShape(s, b, false);
    forall c: nat | Reserved(t, c)
      ensures !Free(t, c)
    {
      SetBitFree(s, b, false, c);
      ReservedSame(s, t, c);
    }
    assert !Reserved(s, b);
    forall x
      ensures SlotOk(t, x) && (Held(s, x) != b || b == 0)
    {
      assert SlotOk(s, x);
      SetBitHeld(s, b, false, x);
      SetBitFree(s, b, false, Held(s, x));
      ReservedSame(s, t, Held(s, x));
    }
    forall x, y
      ensures Distinct(t, x, y)
    {
      assert Distinct(s, x, y);
      SetBitHeld(s, b, false, x);
      SetBitHeld(s, b, false, y);
    }
  }

  lemma SetBitShape(s: Fs, b: nat, free: bool)
    ensures var t := SetBit(s, b, free);
            t.nblocks == s.nblocks && |t.bitmap| == |s.bitmap| && t.blocks == s.blocks && t.files == s.files
  {
  }

  lemma ReservedSame(s: Fs, t: Fs, b: nat)
    requires t.nblocks == s.nblocks
    ensures Reserved(t, b) == Reserved(s, b)
  {
  }

  /** Storing a block number nobody holds in a slot, or clearing a slot. */
  lemma SlotSetOk(s: Fs, x: Slot, b: nat)
    requires Ok(s) && InTable(s, x)
    requires b != 0 ==> b < s.nblocks && !Free(s, b) && !Reserved(s, b) && FirstByte(x.i) < s.files[x.f].size
    requires b != 0 ==> forall y :: Held(s, y) != b
    ensures Ok(SetSlot(s, x, b))
  {
    hide Held, Reserved, BitOf;
    var t := SetSlot(s, x, b);
    forall c: nat | Reserved(t, c)
      ensures !Free(t, c)
    {
      ReservedSame(s, t, c);
    }
    forall y
      ensures SlotOk(t, y)
    {
      assert SlotOk(s, y);
      SetSlotHeld(s, x, b, y);
      ReservedSame(s, t, Held(t, y));
      HeldInside(s, y);
    }
    forall y, z
      ensures Distinct(t, y, z)
    {
      assert Distinct(s, y, z);
      SetSlotHeld(s, x, b, y);
      SetSlotHeld(s, x, b, z);
    }
  }

  lemma HeldInside(s: Fs, x: Slot)
    ensures Held(s, x) != 0 ==> InTable(s, x)
  {
  }

  /** Freeing the block of a slot that has just been cleared. */
  lemma GiveOk(s: Fs, b: nat)
    requires Ok(s) && !Reserved(s, b) && forall x :: Held(s, x) != b
    ensures Ok(SetBit(s, b, true))
  {
    hide Free, SetBit, Held, Reserved;
    var t := SetBit(s, b, true);
    SetBitShape(s, b, true);
    forall c: nat | Reserved(t, c)
      ensures !Free(t, c)
    {
      SetBitFree(s, b, true, c);
      ReservedSame(s, t, c);
    }
    forall x
      ensures SlotOk(t, x)
    {
      assert SlotOk(s, x);
      SetBitHeld(s, b, true, x);
      SetBitFree(s, b, true, Held(s, x));
      ReservedSame(s, t, Held(s, x));
    }
    forall x, y
      ensures Distinct(t, x, y)
    {
      assert Distinct(s, x, y);
      SetBitHeld(s, b, true, x);
      SetBitHeld(s, b, true, y);
    }
  }

  lemma StoreOk(s: Fs, b: nat, at: nat, data: seq<Byte>)
    requires Ok(s)
    ensures Ok(Store(s, b, at, data))
  {
    hide Reserved, BitOf;
    var t := Store(s, b, at, data);
    forall c: nat | Reserved(t, c)
      ensures !Free(t, c)
    {
      ReservedSame(s, t, c);
    }
    forall x
      ensures SlotOk(t, x)
    {
      assert SlotOk(s, x) && Held(t, x) == Held(s, x);
      ReservedSame(s, t, Held(t, x));
    }
    forall x, y
      ensures Distinct(t, x, y)
    {
      assert Distinct(s, x, y);
    }
  }

  lemma SizeOk(s: Fs, f: nat, size: nat)
    requires Ok(s) && f < |s.files| && size <= LIMIT
    requires forall i: nat :: i <= INDIRECT && size <= FirstByte(i) ==> Held(s, Slot(f, i)) == 0
    ensures Ok(SetSize(s, f, size))
  {
    hide Reserved, BitOf;
    var t := SetSize(s, f, size);
    forall c: nat | Reserved(t, c)
      ensures !Free(t, c)
    {
      ReservedSame(s, t, c);
    }
    forall x
      ensures SlotOk(t, x)
    {
      assert SlotOk(s, x) && Held(t, x) == Held(s, x);
      ReservedSame(s, t, Held(t, x));
      assert x.f == f ==> x == Slot(f, x.i);
    }
    forall x, y
      ensures Distinct(t, x, y)
    {
      assert Distinct(s, x, y);
    }
  }

  // What the changes do to bytes

  /** Between s and t no allocated byte changed, except perhaps those of f from lo to hi. */
  ghost predicate Kept(s: Fs, t: Fs, f: nat, lo: nat, hi: nat) {
    forall g: nat, off: nat :: ByteAt(s, g, off).Val? && !(g == f && lo <= off < hi) ==> ByteAt(t, g, off) == ByteAt(s, g, off)
  }

  ghost predicate Has(s: Fs, f: nat, lo: nat, data: seq<Byte>) {
    forall off: nat :: lo <= off < lo + |data| ==> ByteAt(s, f, off) == Val(data[off - lo])
  }

  /** Filling an empty slot adds bytes but changes none. */
  lemma FillKeeps(s: Fs, x: Slot, b: nat)
    requires Ok(s) && Held(s, x) == 0 && InTable(s, x)
    ensures Kept(s, SetSlot(SetBit(s, b, false), x, b), 0, 0, 0)
  {
    hide Blk, Pos, SetBit;
    SetBitShape(s, b, false);
    var t := SetSlot(SetBit(s, b, false), x, b);
    forall g: nat, off: nat | ByteAt(s, g, off).Val?
      ensures ByteAt(t, g, off) == ByteAt(s, g, off)
    {
      SetBitHeld(s, b, false, Slot(g, Blk(off)));
      SetSlotHeld(SetBit(s, b, false), x, b, Slot(g, Blk(off)));
    }
  }

  /** The bytes of one chunk: those of block Blk(pos) from Pos(pos) on. */
  lemma ChunkBytes(pos: nat, n: nat, off: nat)
    requires Pos(pos) + n <= BLKSIZE
    ensures pos <= off < pos + n <==> Blk(off) == Blk(pos) && Pos(pos) <= Pos(off) < Pos(pos) + n
    ensures pos <= off < pos + n ==> Pos(off) - Pos(pos) == off - pos
  {
  }

  /** Storing a chunk puts it where reads find it and changes nothing else. */
  lemma StoreBytes(s: Fs, f: nat, pos: nat, data: seq<Byte>)
    requires Ok(s) && Blk(pos) < NDIRECT && Held(s, Slot(f, Blk(pos))) != 0 && Pos(pos) + |data| <= BLKSIZE
    ensures var t := Store(s, Held(s, Slot(f, Blk(pos))), Pos(pos), data);
            Has(t, f, pos, data) && Kept(s, t, f, pos, pos + |data|)
  {
    hide Blk, Pos, Free, Reserved;
    var b := Held(s, Slot(f, Blk(pos)));
    var t := Store(s, b, Pos(pos), data);
    assert SlotOk(s, Slot(f, Blk(pos)));
    forall off: nat | pos <= off < pos + |data|
      ensures ByteAt(t, f, off) == Val(data[off - pos])
    {
      ChunkBytes(pos, |data|, off);
      assert Held(t, Slot(f, Blk(off))) == b;
    }
    forall g: nat, off: nat | ByteAt(s, g, off).Val? && !(g == f && pos <= off < pos + |data|)
      ensures ByteAt(t, g, off) == ByteAt(s, g, off)
    {
      ChunkBytes(pos, |data|, off);
      var x := Slot(g, Blk(off));
      assert Held(t, x) == Held(s, x) && Distinct(s, Slot(f, Blk(pos)), x);
    }
  }

  lemma KeptThrough(s: Fs, t: Fs, u: Fs, f: nat, lo: nat, mid: nat, hi: nat)
    requires Kept(s, t, f, lo, mid) && Kept(t, u, f, mid, hi) && lo <= mid <= hi
    ensures Kept(s, u, f, lo, hi)
  {
  }

  lemma KeptNothing(s: Fs, t: Fs, f: nat, lo: nat, hi: nat)
    requires Kept(s, t, 0, 0, 0)
    ensures Kept(s, t, f, lo, hi)
  {
  }

  lemma KeptSame(s: Fs, t: Fs, f: nat, lo: nat, hi: nat)
    requires t.blocks == s.blocks && |t.files| == |s.files|
    requires forall x :: Held(t, x) == Held(s, x)
    ensures Kept(s, t, f, lo, hi)
  {
    forall g: nat, off: nat
      ensures ByteAt(t, g, off) == ByteAt(s, g, off)
    {
      assert Held(t, Slot(g, Blk(off))) == Held(s, Slot(g, Blk(off)));
    }
  }

  /** One more chunk behind those already written. */
  lemma HasMore(s: Fs, t: Fs, u: Fs, f: nat, lo: nat, mid: nat, data: seq<Byte>, n: nat)
    requires lo <= mid && mid - lo + n <= |data| && Has(s, f, lo, data[..mid - lo])
    requires Kept(s, t, 0, 0, 0) && Kept(t, u, f, mid, mid + n) && Has(u, f, mid, data[mid - lo..mid - lo + n])
    ensures Has(u, f, lo, data[..mid - lo + n])
  {
    forall off: nat | lo <= off < mid + n
      ensures ByteAt(u, f, off) == Val(data[off - lo])
    {
      if off < mid {
        assert ByteAt(s, f, off) == Val(data[..mid - lo][off - lo]);
        assert ByteAt(t, f, off) == ByteAt(s, f, off);
      } else {
        assert ByteAt(u, f, off) == Val(data[mid - lo..mid - lo + n][off - mid]);
      }
    }
  }

  lemma PosBound(off: nat)
    ensures Pos(off) < BLKSIZE && (off < LIMIT ==> Blk(off) < NDIRECT) && Blk(off) * BLKSIZE <= off
  {
  }

  /** Everything about s but the bitmap, the slots of f and its size. */
  ghost predicate SameShape(s: Fs, t: Fs, f: nat) {
    && t.nblocks == s.nblocks && |t.bitmap| == |s.bitmap| && |t.files| == |s.files|
    && forall g: nat :: g < |s.files| && g != f ==> t.files[g] == s.files[g]
  }

  class FileServer {
    const nblocks: nat                    // super->s_nblocks
    var bitmap: seq<bv32>
    const cache: Cache
    var files: seq<File>

    /** The disk as it looks through the cache. */
    ghost function S(): Fs
      reads this, cache
    {
      Fs(nblocks, bitmap, cache.L(), files)
    }

    /** fs_init over a disk. */
    constructor (s: Fs)
      requires forall b: nat :: b < |s.blocks| ==> |s.blocks[b]| == BLKSIZE
      ensures S() == s && cache.Valid() && fresh(cache)
    {
      nblocks, bitmap, files := s.nblocks, s.bitmap, s.files;
      cache := new Cache(s.blocks);
    }

    method BlockIsFree(b: nat) returns (r: bool)
      requires Ok(S())
      ensures r == Free(S(), b)
    {
      if b >= nblocks {
        return false;
      }
      return BitOf(bitmap[b / 32], b % 32);
    }

    method FreeBlock(b: nat)
      requires Ok(S()) && 0 < b < nblocks
      modifies this`bitmap
      ensures S() == SetBit(old(S()), b, true)
    {
      bitmap := bitmap[b / 32 := bitmap[b / 32] | Bit(b % 32)];
    }

    /** alloc_block: the first free block, taken, or -E_NO_DISK when there is none. */
    method AllocBlock() returns (r: int)
      requires Ok(S())
      modifies this`bitmap
      ensures Ok(S())
      ensures r >= 0 ==> Free(old(S()), r) && (forall b: nat :: b < r ==> !Free(old(S()), b)) && S() == SetBit(old(S()), r, false)
      ensures r < 0 ==> r == -E_NO_DISK && S() == old(S()) && forall b: nat :: !Free(S(), b)
      ensures r >= 0 ==> r > 0
    {
      hide Ok, BitOf, Bit, Reserved;
      BitmapLong(S());
      for i := 0 to nblocks
        invariant S() == old(S()) && forall b: nat :: b < i ==> !Free(S(), b)
      {
        var free := BlockIsFree(i);
        if free {
          TakeOk(S(), i);
          ZeroReserved(S());
          bitmap := bitmap[i / 32 := bitmap[i / 32] & !Bit(i % 32)];
          return i;
        }
      }
      return -E_NO_DISK;
    }

    /** file_get_block for a block of the file: the block of the slot, allocated first if it was empty. */
    method FileGetBlock(f: nat, filebno: nat) returns (r: int, b: nat)
      requires Ok(S()) && f < |files| && filebno < NDIRECT && filebno * BLKSIZE < files[f].size
      modifies this`bitmap, this`files
      ensures Ok(S()) && SameShape(old(S()), S(), f) && S().blocks == old(S()).blocks
      ensures f < |files| && files[f].size == old(files)[f].size
      ensures Kept(old(S()), S(), 0, 0, 0)
      ensures r == 0 ==> b != 0 && Held(S(), Slot(f, filebno)) == b
      ensures r == 0 ==> forall x :: x != Slot(f, filebno) || Held(old(S()), x) != 0 ==> Held(S(), x) == Held(old(S()), x)
      ensures r != 0 ==> r == -E_NO_DISK && S() == old(S()) && Held(S(), Slot(f, filebno)) == 0 && forall b: nat :: !Free(S(), b)
    {
      hide Ok, SetBit, Free, Reserved, Kept;
      ghost var s, x := S(), Slot(f, filebno);
      FileShape(s, f);
      KeptSame(s, s, 0, 0, 0);
      if files[f].slots[filebno] == 0 {
        r := AllocBlock();
        if r < 0 {
          return r, 0;
        }
        ghost var t := S();
        TakenFacts(s, r);
        SlotSetOk(t, x, r);
        FillKeeps(s, x, r);
        SetSlotAll(t, x, r);
        files := files[f := files[f].(slots := files[f].slots[filebno := r])];
      }
      return 0, files[f].slots[filebno];
    }
  
    /** file_free_block. */
    method FileFreeBlock(f: nat, filebno: nat)
      requires Ok(S()) && f < |files| && filebno <= INDIRECT
      modifies this`bitmap, this`files
      ensures S() == Cleared(old(S()), Slot(f, filebno)) && Ok(S())
    {
      hide Ok, SetBit, Reserved, Free;
      FileShape(S(), f);
      ClearedOk(S(), Slot(f, filebno));
      var b := files[f].slots[filebno];
      if b != 0 {
        BlockLong(S(), Slot(f, filebno));
        BlocksAll(S());
        FreeBlock(b);
        files := files[f := files[f].(slots := files[f].slots[filebno := 0])];
      }
    }

    /** file_truncate_blocks: the blocks past newsize go back to the bitmap, and nothing else. */
    method FileTruncateBlocks(f: nat, newsize: nat)
      requires Ok(S()) && f < |files| && newsize < files[f].size
      modifies this`bitmap, this`files
      ensures Ok(S()) && Shrunk(old(S()), S(), f, Nblk(newsize), INDIRECT + 1)
    {
      hide Ok, Shrunk, Cleared, Nblk;
      ghost var s := S();
      FileShape(s, f);
      NblkRange(newsize, files[f].size);
      var oldNblocks := Nblk(files[f].size);
      var newNblocks := Nblk(newsize);
      ShrunkNone(s, f, newNblocks);
      for bno := newNblocks to oldNblocks
        invariant Ok(S()) && f < |files| && Shrunk(s, S(), f, newNblocks, bno)
      {
        FileShape(S(), f);
        ShrunkStep(s, S(), f, newNblocks, bno);
        FileFreeBlock(f, bno);
        ClearedShape(s, S(), f, newNblocks, bno + 1);
      }
      PastEndEmpty(s, f);
      ShrunkSkip(s, S(), f, newNblocks, oldNblocks, INDIRECT);
      FileShape(S(), f);
      ShrunkStep(s, S(), f, newNblocks, INDIRECT);
      if newNblocks <= NDIRECT && files[f].slots[INDIRECT] != 0 {
        FileFreeBlock(f, INDIRECT);
      } else {
        ClearedEmpty(S(), Slot(f, INDIRECT));
      }
    }

    /** file_set_size: growing only records the size; shrinking frees exactly the blocks past it. */
    method FileSetSize(f: nat, newsize: nat)
      requires Ok(S()) && f < |files| && newsize <= LIMIT
      modifies this`bitmap, this`files
      ensures Ok(S()) && SameShape(old(S()), S(), f) && S().blocks == old(S()).blocks
      ensures f < |files| && files[f].size == newsize
      ensures newsize < old(files)[f].size ==>
                Shrunk(SetSize(old(S()), f, newsize), S(), f, Nblk(newsize), INDIRECT + 1)
      ensures newsize >= old(files)[f].size ==> bitmap == old(bitmap) && Kept(old(S()), S(), 0, 0, 0)
      ensures Kept(old(S()), S(), f, newsize, LIMIT)
      ensures newsize < old(files)[f].size ==>
                forall b: nat :: Free(S(), b) <==> Free(old(S()), b) || HeldPast(old(S()), f, newsize, b)
    {
      hide Ok, Kept, Nblk, Free, Held, HeldPast;
      ghost var s := S();
      FileShape(s, f);
      if files[f].size > newsize {
        FileTruncateBlocks(f, newsize);
        ShrunkFits(s, S(), f, newsize);
        SizeOk(S(), f, newsize);
        ShrunkSized(s, S(), f, newsize);
        ShrunkKept(s, S(), f, newsize);
      } else {
        GrownFits(s, f, newsize);
        SizeOk(s, f, newsize);
        SizeHeld(s, f, newsize);
        KeptSame(s, SetSize(s, f, newsize), 0, 0, 0);
        KeptSame(s, SetSize(s, f, newsize), f, newsize, LIMIT);
      }
      files := files[f := files[f].(size := newsize)];
    }

    /** file_read: what is stored from offset on, up to the end of the file; reading a hole allocates it. */
    method FileRead(f: nat, count: nat, offset: nat) returns (r: int, buf: seq<Byte>)
      requires Ok(S()) && cache.Valid() && f < |files|
      modifies this`bitmap, this`files, cache`cached
      ensures Ok(S()) && cache.Valid() && SameShape(old(S()), S(), f) && S().blocks == old(S()).blocks
      ensures f < |files| && files[f].size == old(files)[f].size
      ensures Kept(old(S()), S(), 0, 0, 0)
      ensures r >= 0 ==> r == |buf| == if offset >= files[f].size then 0 else Min(count, files[f].size - offset)
      ensures r >= 0 ==> Has(S(), f, offset, buf)
      ensures r < 0 ==> r == -E_NO_DISK && HasHole(old(S()), f, offset, count) && forall b: nat :: !Free(S(), b)
    {
      hide Ok, Free, Kept, Has, HasHole, Blk, Pos, Held;
      ghost var s := S();
      KeptSame(s, s, 0, 0, 0);
      HasNone(s, f, offset);
      buf := [];
      if offset >= files[f].size {
        return 0, [];
      }
      FileShape(s, f);
      var n := Min(count, files[f].size - offset);
      var pos := offset;
      while pos < offset + n
        invariant offset <= pos <= offset + n && |buf| == pos - offset
        invariant Ok(S()) && cache.Valid() && SameShape(s, S(), f) && S().blocks == s.blocks && f < |files| && files[f].size == s.files[f].size
        invariant Kept(s, S(), 0, 0, 0) && Has(S(), f, offset, buf)
      {
        ghost var t := S();
        PosBound(pos);
        var q, b := FileGetBlock(f, Blk(pos));
        if q < 0 {
          HoleFound(s, t, f, offset, count, pos);
          KeptThrough(s, t, S(), 0, 0, 0, 0);
          return q, [];
        }
        BlockLong(S(), Slot(f, Blk(pos)));
        var bn := Min(BLKSIZE - Pos(pos), offset + n - pos);
        KeptThrough(s, t, S(), 0, 0, 0, 0);
        HasRead(t, S(), f, offset, pos, buf, bn);
        var bytes := cache.ReadBlock(b);
        buf := buf + bytes[Pos(pos)..Pos(pos) + bn];
        pos := pos + bn;
      }
      return n, buf;
    }

    /** file_write: afterwards the bytes written are there, and no other allocated byte of any file has changed. */
    method FileWrite(f: nat, buf: seq<Byte>, offset: nat) returns (r: int)
      requires Ok(S()) && cache.Valid() && f < |files| && offset + |buf| <= LIMIT
      modifies this`bitmap, this`files, cache`cached
      ensures Ok(S()) && cache.Valid() && SameShape(old(S()), S(), f)
      ensures f < |files| && files[f].size == Max(old(files)[f].size, offset + |buf|)
      ensures Kept(old(S()), S(), f, offset, offset + |buf|)
      ensures r >= 0 ==> r == |buf| && Has(S(), f, offset, buf)
      ensures r < 0 ==> r == -E_NO_DISK && forall b: nat :: !Free(S(), b)
    {
      hide Ok, Free, Kept, Has, Blk, Pos, Held, Splice, Logical, Store;
      ghost var s := S();
      if offset + |buf| > files[f].size {
        FileSetSize(f, offset + |buf|);
      }
      ghost var s0 := S();
      KeptSame(s0, s0, f, offset, offset);
      FileShape(s0, f);
      var pos := offset;
      HasNone(s0, f, offset);
      assert buf[..0] == [];
      while pos < offset + |buf|
        invariant offset <= pos <= offset + |buf|
        invariant Ok(S()) && cache.Valid() && SameShape(s0, S(), f) && f < |files| && files[f].size == s0.files[f].size
        invariant Kept(s0, S(), f, offset, pos) && Has(S(), f, offset, buf[..pos - offset])
      {
        ghost var t := S();
        PosBound(pos);
        var q, b := FileGetBlock(f, Blk(pos));
        if q < 0 {
          KeptWider(s0, S(), f, offset, pos, offset + |buf|);
          KeptSized(s, s0, S(), f, offset, offset + |buf|);
          return q;
        }
        ghost var u := S();
        BlockLong(u, Slot(f, Blk(pos)));
        var bn := Min(BLKSIZE - Pos(pos), offset + |buf| - pos);
        var chunk := buf[pos - offset..pos - offset + bn];
        StoreOk(u, b, Pos(pos), chunk);
        StoreBytes(u, f, pos, chunk);
        cache.WriteBlock(b, Pos(pos), chunk);
        Stored(u, S(), b, Pos(pos), chunk);
        HasMore(t, u, S(), f, offset, pos, buf, bn);
        KeptNothing(t, u, f, pos, pos);
        KeptThrough(t, u, S(), f, pos, pos, pos + bn);
        KeptThrough(s0, t, S(), f, offset, pos, pos + bn);
        pos := pos + bn;
      }
      assert buf[..|buf|] == buf;
      KeptSized(s, s0, S(), f, offset, offset + |buf|);
      return |buf|;
    }
  
    /** Reading back what was just written returns it. */
    method WriteThenRead(f: nat, buf: seq<Byte>, offset: nat) returns (w: int, r: int, got: seq<Byte>)
      requires Ok(S()) && cache.Valid() && f < |files| && offset + |buf| <= LIMIT
      modifies this`bitmap, this`files, cache`cached
      ensures Ok(S()) && cache.Valid()
      ensures w >= 0 ==> w == |buf| && r == |buf| && got == buf
    {
      hide Ok, Free, Kept, SameShape, Has, HasHole;
      w := FileWrite(f, buf, offset);
      r, got := 0, [];
      if w >= 0 {
        ghost var s := S();
        NoHole(s, f, offset, buf);
        r, got := FileRead(f, |buf|, offset);
        ReadBack(s, S(), f, offset, buf, got);
      }
    }

    /** Written, synced, the cache lost, and read again: the file still has those bytes. */
    method WriteSyncRead(f: nat, buf: seq<Byte>, offset: nat) returns (w: int, r: int, got: seq<Byte>)
      requires Ok(S()) && cache.Valid() && f < |files| && offset + |buf| <= LIMIT
      modifies this`bitmap, this`files, cache
      ensures Ok(S()) && cache.Valid()
      ensures w >= 0 ==> w == |buf| && r == |buf| && got == buf
    {
      hide Ok, Free, Kept, SameShape, Has, HasHole;
      w := FileWrite(f, buf, offset);
      ghost var s := S();
      cache.FsSync();
      cache.DropAll();
      assert S() == s;
      r, got := 0, [];
      if w >= 0 {
        NoHole(s, f, offset, buf);
        r, got := FileRead(f, |buf|, offset);
        ReadBack(s, S(), f, offset, buf, got);
      }
    }
  }

  lemma BlocksWhole(s: Fs)
    requires Ok(s)
    ensures |s.blocks| == s.nblocks && forall b: nat :: b < |s.blocks| ==> |s.blocks[b]| == BLKSIZE
  {
  }

  lemma Stored(s: Fs, t: Fs, b: nat, at: nat, data: seq<Byte>)
    requires b < |s.blocks| && t == s.(blocks := s.blocks[b := Splice(s.blocks[b], at, data)])
    ensures t == Store(s, b, at, data)
  {
  }

  lemma BitmapLong(s: Fs)
    requires Ok(s)
    ensures s.nblocks <= |s.bitmap| * 32
  {
  }

  lemma ZeroReserved(s: Fs)
    requires Ok(s)
    ensures !Free(s, 0)
  {
    assert Reserved(s, 0);
  }

  lemma FileShape(s: Fs, f: nat)
    requires Ok(s) && f < |s.files|
    ensures |s.files[f].slots| == NDIRECT + 1 && s.files[f].size <= LIMIT
  {
  }

  lemma TakenFacts(s: Fs, b: nat)
    requires Ok(s) && Free(s, b) && b > 0
    ensures var t := SetBit(s, b, false);
            && b < t.nblocks == s.nblocks && !Free(t, b) && !Reserved(t, b) && t.files == s.files && t.blocks == s.blocks
            && |t.bitmap| == |s.bitmap|
            && forall x :: Held(t, x) != b && Held(t, x) == Held(s, x)
  {
    hide Reserved, Ok, Held, BitOf, WithBit;
    TakeOk(s, b);
    SetBitShape(s, b, false);
    BitmapLong(s);
    SetBitFree(s, b, false, b);
    ReservedSame(s, SetBit(s, b, false), b);
    forall x
      ensures Held(SetBit(s, b, false), x) == Held(s, x) != b
    {
      SetBitHeld(s, b, false, x);
    }
  }

  lemma SetSlotAll(s: Fs, x: Slot, b: nat)
    requires InTable(s, x)
    ensures forall y :: Held(SetSlot(s, x, b), y) == if y == x then b else Held(s, y)
  {
    forall y
      ensures Held(SetSlot(s, x, b), y) == if y == x then b else Held(s, y)
    {
      SetSlotHeld(s, x, b, y);
    }
  }

  function Min(a: int, b: int): int { if a < b then a else b }
  function Max(a: int, b: int): int { if a < b then b else a }

  lemma HasNone(s: Fs, f: nat, lo: nat)
    ensures Has(s, f, lo, [])
  {
  }

  lemma BlockLong(s: Fs, x: Slot)
    requires Ok(s) && Held(s, x) != 0
    ensures Held(s, x) < |s.blocks| && |s.blocks[Held(s, x)]| == BLKSIZE
  {
    assert SlotOk(s, x);
  }

  /** What was read is still there, and so is the chunk just copied. */
  lemma HasRead(s: Fs, t: Fs, f: nat, lo: nat, pos: nat, buf: seq<Byte>, n: nat)
    requires Ok(t) && Kept(s, t, 0, 0, 0) && Has(s, f, lo, buf) && pos == lo + |buf| && pos < LIMIT
    requires Held(t, Slot(f, Blk(pos))) != 0 && Pos(pos) + n <= BLKSIZE
    requires Held(t, Slot(f, Blk(pos))) < |t.blocks| && |t.blocks[Held(t, Slot(f, Blk(pos)))]| == BLKSIZE
    ensures Has(t, f, lo, buf + t.blocks[Held(t, Slot(f, Blk(pos)))][Pos(pos)..Pos(pos) + n])
  {
    hide Ok, Blk, Pos;
    PosBound(pos);
    forall off: nat | lo <= off < pos + n
      ensures ByteAt(t, f, off) == Val((buf + t.blocks[Held(t, Slot(f, Blk(pos)))][Pos(pos)..Pos(pos) + n])[off - lo])
    {
      if off < pos {
        assert ByteAt(s, f, off) == Val(buf[off - lo]);
      } else {
        ChunkBytes(pos, n, off);
      }
    }
  }

  lemma KeptWider(s: Fs, t: Fs, f: nat, lo: nat, mid: nat, hi: nat)
    requires Kept(s, t, f, lo, mid) && mid <= hi
    ensures Kept(s, t, f, lo, hi)
  {
  }

  lemma KeptSized(s: Fs, t: Fs, u: Fs, f: nat, lo: nat, hi: nat)
    requires Kept(s, t, 0, 0, 0) && Kept(t, u, f, lo, hi)
    ensures Kept(s, u, f, lo, hi)
  {
  }

  // Freeing blocks

  function Cleared(s: Fs, x: Slot): Fs {
    if Held(s, x) == 0 then s else SetSlot(SetBit(s, Held(s, x), true), x, 0)
  }

  lemma ClearedOk(s: Fs, x: Slot)
    requires Ok(s) && InTable(s, x)
    ensures Ok(Cleared(s, x))
  {
    hide Ok, Free, Reserved, WithBit;
    var b := Held(s, x);
    if b != 0 {
      SlotSetOk(s, x, 0);
      HeldOnce(s, x);
      ReservedSame(s, SetSlot(s, x, 0), b);
      GiveOk(SetSlot(s, x, 0), b);
      assert SetBit(SetSlot(s, x, 0), b, true) == Cleared(s, x);
    }
  }

  lemma HeldOnce(s: Fs, x: Slot)
    requires Ok(s) && InTable(s, x) && Held(s, x) != 0
    ensures !Reserved(s, Held(s, x)) && forall y :: Held(SetSlot(s, x, 0), y) != Held(s, x)
  {
    hide Free, Reserved;
    assert SlotOk(s, x);
    forall y
      ensures Held(SetSlot(s, x, 0), y) != Held(s, x)
    {
      SetSlotHeld(s, x, 0, y);
      assert Distinct(s, x, y);
    }
  }

  lemma BlocksAll(s: Fs)
    requires Ok(s)
    ensures |s.blocks| == s.nblocks
  {
  }

  lemma ClearedEmpty(s: Fs, x: Slot)
    requires Held(s, x) == 0
    ensures Cleared(s, x) == s
  {
  }

  /** Some slot of f from lo to hi holds block b. */
  ghost predicate HeldWithin(s: Fs, f: nat, lo: nat, hi: nat, b: nat) {
    exists i: nat :: lo <= i < hi && b != 0 && Held(s, Slot(f, i)) == b
  }

  /** From s to t exactly the slots lo to hi of f were cleared and exactly their blocks freed. */
  ghost predicate Shrunk(s: Fs, t: Fs, f: nat, lo: nat, hi: nat) {
    && SameShape(s, t, f) && t.blocks == s.blocks
    && (f < |s.files| ==> t.files[f].size == s.files[f].size)
    && (forall x :: Held(t, x) == if x.f == f && lo <= x.i < hi then 0 else Held(s, x))
    && (forall b: nat :: Free(t, b) <==> Free(s, b) || HeldWithin(s, f, lo, hi, b))
  }

  lemma ShrunkNone(s: Fs, f: nat, lo: nat)
    ensures Shrunk(s, s, f, lo, lo)
  {
  }

  lemma ClearedFacts(t: Fs, x: Slot, b: nat)
    requires Ok(t) && InTable(t, x)
    ensures Free(Cleared(t, x), b) <==> Free(t, b) || (b != 0 && Held(t, x) == b)
  {
    hide BitOf, WithBit, Reserved;
    var c := Held(t, x);
    if c != 0 {
      assert SlotOk(t, x);
      SetBitFree(t, c, true, b);
    }
  }

  lemma ClearedHeld(t: Fs, x: Slot, y: Slot)
    requires InTable(t, x)
    ensures Held(Cleared(t, x), y) == if y == x then 0 else Held(t, y)
  {
    if Held(t, x) != 0 {
      SetBitHeld(t, Held(t, x), true, y);
      SetBitShape(t, Held(t, x), true);
      SetSlotHeld(SetBit(t, Held(t, x), true), x, 0, y);
    }
  }

  lemma ShrunkStep(s: Fs, t: Fs, f: nat, lo: nat, i: nat)
    requires Ok(t) && Shrunk(s, t, f, lo, i) && lo <= i && InTable(t, Slot(f, i))
    ensures Shrunk(s, Cleared(t, Slot(f, i)), f, lo, i + 1)
  {
    hide Ok, Free, Held;
    var x := Slot(f, i);
    var u := Cleared(t, x);
    ClearedSame(t, x);
    forall y
      ensures Held(u, y) == if y.f == f && lo <= y.i < i + 1 then 0 else Held(s, y)
    {
      ClearedHeld(t, x, y);
    }
    forall b: nat
      ensures Free(u, b) <==> Free(s, b) || HeldWithin(s, f, lo, i + 1, b)
    {
      ClearedFacts(t, x, b);
      assert Held(t, x) == Held(s, x);
      if b != 0 && Held(s, x) == b {
        assert HeldWithin(s, f, lo, i + 1, b);
      }
      assert HeldWithin(s, f, lo, i, b) ==> HeldWithin(s, f, lo, i + 1, b);
    }
  }

  lemma ClearedSame(t: Fs, x: Slot)
    requires InTable(t, x)
    ensures SameShape(t, Cleared(t, x), x.f) && Cleared(t, x).blocks == t.blocks
    ensures Cleared(t, x).files[x.f].size == t.files[x.f].size
  {
  }

  lemma ClearedShape(s: Fs, t: Fs, f: nat, lo: nat, hi: nat)
    requires Shrunk(s, t, f, lo, hi)
    ensures |t.files| == |s.files|
  {
  }

  lemma NblkRange(newsize: nat, size: nat)
    requires newsize < size <= LIMIT
    ensures Nblk(newsize) <= Nblk(size) <= NDIRECT
  {
  }

  lemma PastEndEmpty(s: Fs, f: nat)
    requires Ok(s) && f < |s.files|
    ensures forall i: nat :: Nblk(s.files[f].size) <= i < NDIRECT ==> Held(s, Slot(f, i)) == 0
  {
    hide Free, Reserved;
    forall i: nat | Nblk(s.files[f].size) <= i < NDIRECT
      ensures Held(s, Slot(f, i)) == 0
    {
      assert SlotOk(s, Slot(f, i));
      assert s.files[f].size <= i * BLKSIZE;
    }
  }

  lemma ShrunkSkip(s: Fs, t: Fs, f: nat, lo: nat, mid: nat, hi: nat)
    requires Shrunk(s, t, f, lo, mid) && lo <= mid <= hi && forall i: nat :: mid <= i < hi ==> Held(s, Slot(f, i)) == 0
    ensures Shrunk(s, t, f, lo, hi)
  {
    hide Free, Held;
    forall y
      ensures Held(t, y) == if y.f == f && lo <= y.i < hi then 0 else Held(s, y)
    {
      assert y.f == f ==> y == Slot(f, y.i);
    }
    forall b: nat
      ensures HeldWithin(s, f, lo, hi, b) <==> HeldWithin(s, f, lo, mid, b)
    {
      if HeldWithin(s, f, lo, hi, b) {
        var i: nat :| lo <= i < hi && b != 0 && Held(s, Slot(f, i)) == b;
      }
    }
  }

  lemma ShrunkFits(s: Fs, t: Fs, f: nat, newsize: nat)
    requires Shrunk(s, t, f, Nblk(newsize), INDIRECT + 1)
    ensures forall i: nat :: i <= INDIRECT && newsize <= FirstByte(i) ==> Held(t, Slot(f, i)) == 0
  {
    hide Free, Held;
    forall i: nat | i <= INDIRECT && newsize <= FirstByte(i)
      ensures Held(t, Slot(f, i)) == 0
    {
      assert Nblk(newsize) <= i;
    }
  }

  lemma GrownFits(s: Fs, f: nat, newsize: nat)
    requires Ok(s) && f < |s.files| && newsize >= s.files[f].size
    ensures forall i: nat :: i <= INDIRECT && newsize <= FirstByte(i) ==> Held(s, Slot(f, i)) == 0
  {
    hide Free, Reserved;
    forall i: nat | i <= INDIRECT && newsize <= FirstByte(i)
      ensures Held(s, Slot(f, i)) == 0
    {
      assert SlotOk(s, Slot(f, i));
    }
  }

  lemma SizeHeld(s: Fs, f: nat, size: nat)
    ensures forall x :: Held(SetSize(s, f, size), x) == Held(s, x)
  {
  }

  lemma ShrunkSized(s: Fs, t: Fs, f: nat, size: nat)
    requires Shrunk(s, t, f, Nblk(size), INDIRECT + 1) && f < |s.files|
    ensures Shrunk(SetSize(s, f, size), SetSize(t, f, size), f, Nblk(size), INDIRECT + 1)
  {
    hide Held, BitOf, Nblk;
    SizeHeld(s, f, size);
    SizeHeld(t, f, size);
    forall b: nat
      ensures Free(SetSize(t, f, size), b) <==>
                Free(SetSize(s, f, size), b) || HeldWithin(SetSize(s, f, size), f, Nblk(size), INDIRECT + 1, b)
    {
      SizeFree(s, f, size, b);
      SizeFree(t, f, size, b);
      if HeldWithin(s, f, Nblk(size), INDIRECT + 1, b) {
        var i: nat :| Nblk(size) <= i < INDIRECT + 1 && b != 0 && Held(s, Slot(f, i)) == b;
        assert Held(SetSize(s, f, size), Slot(f, i)) == b;
      }
    }
  }

  /** Block b is one f holds wholly past a size, or its indirect block. */
  ghost predicate HeldPast(s: Fs, f: nat, size: nat, b: nat) {
    exists i: nat :: i <= INDIRECT && (i == INDIRECT || size <= i * BLKSIZE) && b != 0 && Held(s, Slot(f, i)) == b
  }

  /** What truncation keeps and what it frees, by bytes. */
  lemma ShrunkKept(s: Fs, t: Fs, f: nat, size: nat)
    requires Shrunk(s, t, f, Nblk(size), INDIRECT + 1) && size <= LIMIT
    ensures Kept(s, SetSize(t, f, size), f, size, LIMIT)
    ensures forall b: nat :: Free(SetSize(t, f, size), b) <==> Free(s, b) || HeldPast(s, f, size, b)
  {
    hide Free, Held, Nblk, HeldPast, HeldWithin;
    SizeHeld(t, f, size);
    forall g: nat, off: nat | ByteAt(s, g, off).Val? && !(g == f && size <= off < LIMIT)
      ensures ByteAt(SetSize(t, f, size), g, off) == ByteAt(s, g, off)
    {
      PastSize(size, off);
      assert Held(t, Slot(g, Blk(off))) == Held(s, Slot(g, Blk(off)));
    }
    forall b: nat
      ensures Free(SetSize(t, f, size), b) <==> Free(s, b) || HeldPast(s, f, size, b)
    {
      SizeFree(t, f, size, b);
      HeldPastIff(s, f, size, b);
    }
  }

  lemma HeldPastIff(s: Fs, f: nat, size: nat, b: nat)
    requires size <= LIMIT
    ensures HeldPast(s, f, size, b) <==> HeldWithin(s, f, Nblk(size), INDIRECT + 1, b)
  {
    hide Held, Nblk;
    if HeldPast(s, f, size, b) {
      var i: nat :| i <= INDIRECT && (i == INDIRECT || size <= i * BLKSIZE) && b != 0 && Held(s, Slot(f, i)) == b;
      NblkPast(size, i);
      assert HeldWithin(s, f, Nblk(size), INDIRECT + 1, b);
    }
    if HeldWithin(s, f, Nblk(size), INDIRECT + 1, b) {
      var i: nat :| Nblk(size) <= i < INDIRECT + 1 && b != 0 && Held(s, Slot(f, i)) == b;
      NblkPast(size, i);
      assert HeldPast(s, f, size, b);
    }
  }

  lemma NblkPast(size: nat, i: nat)
    requires size <= LIMIT
    ensures Nblk(size) <= i <==> size <= i * BLKSIZE
    ensures Nblk(size) <= INDIRECT
  {
  }

  lemma PastSize(size: nat, off: nat)
    requires size <= LIMIT
    ensures off < size ==> Blk(off) < Nblk(size)
    ensures off >= LIMIT ==> Blk(off) >= NDIRECT
  {
  }

  lemma SizeFree(s: Fs, f: nat, size: nat, b: nat)
    ensures Free(SetSize(s, f, size), b) == Free(s, b)
  {
  }

  // Reading back

  ghost predicate HasHole(s: Fs, f: nat, lo: nat, n: nat) {
    exists off: nat :: lo <= off < lo + n && ByteAt(s, f, off) == Hole
  }

  lemma HoleFound(s: Fs, t: Fs, f: nat, lo: nat, n: nat, off: nat)
    requires Kept(s, t, 0, 0, 0) && lo <= off < lo + n && Held(t, Slot(f, Blk(off))) == 0
    ensures HasHole(s, f, lo, n)
  {
    assert ByteAt(t, f, off) == Hole;
    assert ByteAt(s, f, off) == Hole;
  }

  lemma NoHole(s: Fs, f: nat, lo: nat, data: seq<Byte>)
    requires Has(s, f, lo, data)
    ensures !HasHole(s, f, lo, |data|)
  {
  }

  lemma ReadBack(s: Fs, t: Fs, f: nat, lo: nat, data: seq<Byte>, got: seq<Byte>)
    requires Has(s, f, lo, data) && Has(t, f, lo, got) && Kept(s, t, 0, 0, 0) && |got| == |data|
    ensures got == data
  {
    forall i: nat | i < |data|
      ensures got[i] == data[i]
    {
      assert ByteAt(s, f, lo + i) == Val(data[lo + i - lo]);
      assert ByteAt(t, f, lo + i) == Val(got[lo + i - lo]);
    }
  }
}
