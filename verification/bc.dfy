/** The write-back block cache of fs/bc.c over a disk of blocks, and fs_sync. */
module BlockCache {
  type Byte = bv8
  type Block = seq<Byte>

  const BLKSIZE: nat := 0x1000

  function Splice<T>(block: seq<T>, at: nat, data: seq<T>): seq<T> {
    if at + |data| <= |block| then block[..at] + data + block[at + |data|..] else block
  }

  /** A cached block: the bytes in memory and the dirty bit the hardware sets on a write. */
  datatype Page = Page(bytes: Block, dirty: bool)

  /** What a reader of the disk map sees. */
  function Logical(disk: seq<Block>, cached: map<nat, Page>): (blocks: seq<Block>)
    ensures |blocks| == |disk|
  {
    seq(|disk|, b requires 0 <= b < |disk| => if b in cached then cached[b].bytes else disk[b])
  }

  /** Memory accesses, flushes and unmappings of single blocks, and the big hammer. */
  datatype Op =
    | Read(b: nat)
    | Write(b: nat, at: nat, data: seq<Byte>)
    | Flush(b: nat)
    | Sync

  predicate OpOk(op: Op, nblocks: nat) {
    match op
    case Read(b) => 0 < b < nblocks
    case Write(b, at, data) => 0 < b < nblocks && at + |data| <= BLKSIZE
    case Flush(b) => 0 < b < nblocks
    case Sync => true
  }

  /** The logical disk after some operations: writes alone change it. */
  function Applied(disk: seq<Block>, ops: seq<Op>): seq<Block>
    decreases |ops|
  {
    if ops == [] then disk else
    var d := Applied(disk, ops[..|ops| - 1]);
    match ops[|ops| - 1]
    case Write(b, at, data) => if b < |d| then d[b := Splice(d[b], at, data)] else d
    case _ => d
  }

  class Cache {
    var disk: seq<Block>
    var cached: map<nat, Page>

    /** Only real blocks are cached, block 0 never is, and a clean page equals its disk block. */
    ghost predicate Valid()
      reads this
    {
      && (forall b: nat :: b < |disk| ==> |disk[b]| == BLKSIZE)
      && (forall b: nat :: b in cached ==> 0 < b < |disk| && |cached[b].bytes| == BLKSIZE)
      && (forall b: nat :: b in cached && !cached[b].dirty ==> cached[b].bytes == disk[b])
    }

    ghost function L(): seq<Block>
      reads this
    {
      Logical(disk, cached)
    }

    constructor (disk: seq<Block>)
      requires forall b: nat :: b < |disk| ==> |disk[b]| == BLKSIZE
      ensures Valid() && this.disk == disk && cached == map[] && L() == disk
    {
      this.disk := disk;
      cached := map[];
    }

    /** bc_pgfault: map a page and read the block into it; remapping it clears the dirty bit. */
    method Fault(b: nat)
      requires Valid() && 0 < b < |disk| && b !in cached
      modifies this`cached
      ensures Valid() && L() == old(L())
      ensures cached == old(cached)[b := Page(disk[b], false)]
    {
      cached := cached[b := Page(disk[b], true)];
      cached := cached[b := cached[b].(dirty := false)];
    }

    method ReadBlock(b: nat) returns (bytes: Block)
      requires Valid() && 0 < b < |disk|
      modifies this`cached
      ensures Valid() && L() == old(L()) && bytes == L()[b] && b in cached
      ensures forall c: nat :: c in old(cached) ==> c in cached && cached[c] == old(cached)[c]
    {
      if b !in cached {
        Fault(b);
      }
      bytes := cached[b].bytes;
    }

    /** A store to mapped memory, after a fault if need be. */
    method WriteBlock(b: nat, at: nat, data: seq<Byte>)
      requires Valid() && 0 < b < |disk| && at + |data| <= BLKSIZE
      modifies this`cached
      ensures Valid() && L() == old(L())[b := Splice(old(L())[b], at, data)]
    {
      if b !in cached {
        Fault(b);
      }
      cached := cached[b := Page(Splice(cached[b].bytes, at, data), true)];
      assert L() == old(L())[b := Splice(old(L())[b], at, data)];
    }

    /** flush_block: nothing unless the block is mapped and dirty; never a change to what readers see. */
    method FlushBlock(b: nat)
      requires Valid() && 0 < b < |disk|
      modifies this
      ensures Valid() && L() == old(L()) && |disk| == |old(disk)|
      ensures disk[b] == L()[b] && (b in cached ==> !cached[b].dirty)
      ensures forall c: nat :: c < |disk| && c != b ==> disk[c] == old(disk)[c]
      ensures cached.Keys == old(cached).Keys && forall c: nat :: c in cached && c != b ==> cached[c] == old(cached)[c]
    {
      if b !in cached {
        return;
      }
      if !cached[b].dirty {
        return;
      }
      disk := disk[b := cached[b].bytes];
      cached := cached[b := cached[b].(dirty := false)];
      assert L() == old(L());
    }

    /** fs_sync: afterwards the disk holds what readers see. */
    method FsSync()
      requires Valid()
      modifies this
      ensures Valid() && L() == old(L()) && disk == L() && cached.Keys == old(cached).Keys
    {
      var i := 1;
      while i < |disk|
        invariant Valid() && L() == old(L()) && |disk| == |old(disk)| && 1 <= i && cached.Keys == old(cached).Keys
        invariant forall b: nat :: b in cached && b < i ==> !cached[b].dirty
      {
        FlushBlock(i);
        i := i + 1;
      }
      assert forall b: nat :: b < |disk| ==> disk[b] == L()[b];
    }

    /** Unmap every cached page, as after a restart. */
    method DropAll()
      requires Valid()
      modifies this`cached
      ensures Valid() && cached == map[] && L() == disk
    {
      cached := map[];
      assert L() == disk;
    }

    /** Sync, lose the cache, and read any block again: nothing has changed. */
    method SyncSurvivesRestart(b: nat) returns (bytes: Block)
      requires Valid() && 0 < b < |disk|
      modifies this
      ensures Valid() && L() == old(L()) && bytes == old(L())[b]
    {
      FsSync();
      DropAll();
      bytes := ReadBlock(b);
    }

    /** Any run of accesses and flushes: readers see the writes and nothing else. */
    method Run(ops: seq<Op>)
      requires Valid() && forall i: nat :: i < |ops| ==> OpOk(ops[i], |disk|)
      modifies this
      ensures Valid() && L() == Applied(old(L()), ops)
    {
      assert ops[..0] == [];
      for i := 0 to |ops|
        invariant Valid() && |disk| == |old(disk)| && L() == Applied(old(L()), ops[..i])
      {
        assert ops[..i + 1][..i] == ops[..i];
        assert OpOk(ops[i], |disk|);
        match ops[i] {
          case Read(b) => var _ := ReadBlock(b);
          case Write(b, at, data) => WriteBlock(b, at, data);
          case Flush(b) => FlushBlock(b);
          case Sync => FsSync();
        }
      }
      assert ops[..|ops|] == ops;
    }
  }

  /** Dropping one page keeps what readers see if and only if its bytes are on disk. */
  lemma DropKeepsIff(disk: seq<Block>, cached: map<nat, Page>, b: nat)
    requires b in cached && b < |disk|
    ensures Logical(disk, cached - {b}) == Logical(disk, cached) <==> cached[b].bytes == disk[b]
  {
    var l, m := Logical(disk, cached), Logical(disk, cached - {b});
    assert l[b] == cached[b].bytes && m[b] == disk[b];
    forall c: nat | c < |disk| && c != b
      ensures l[c] == m[c]
    {
    }
    if cached[b].bytes == disk[b] {
      assert l == m;
    }
  }
}
