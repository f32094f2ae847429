/** The layout of the free map of an SFS volume (kern/sfs.h). Block counts are 32-bit numbers. */
module SfsLayout {

  const BLOCKSIZE := 512
  const BLOCKBITS := 4096
  const SB_LOCATION := 0
  const ROOT_LOCATION := 1
  const MAP_LOCATION := 2

  type U32 = x: int | 0 <= x < 0x1_0000_0000

  function BitBlocks(n: U32): nat { ((n as int + 4095) % 0x1_0000_0000) / 4096 }

  function BitmapSize(n: U32): nat { BitBlocks(n) * 4096 }

  /** A block of the volume that is neither superblock, root inode nor part of the map. */
  predicate DataBlock(n: U32, i: nat) { 2 + BitBlocks(n) <= i < n }

  /** What is never free: superblock, root inode, map, and the bits past the end of the volume. */
  predicate Reserved(n: U32, i: nat) {
    i < 2 + BitBlocks(n) || n <= i < BitmapSize(n)
  }

  /** Rounding the number of blocks up wraps around for the largest volumes. */
  lemma WrapsIff(n: U32)
    requires n > 0
    ensures BitBlocks(n) == 0 <==> n >= 0x1_0000_0000 - 4095
  {
  }

  /** Otherwise the map has a bit for every block and less than one block of bits too many. */
  lemma MapFits(n: U32)
    requires n < 0x1_0000_0000 - 4095
    ensures n <= 4096 * BitBlocks(n) < n + 4096 && BitmapSize(n) == 4096 * BitBlocks(n)
  {
  }

  /** For a volume whose map mksfs can hold, every bit of the map is reserved or a data block. */
  lemma Partition(n: U32, i: nat)
    requires 3 <= n && 0 < BitBlocks(n) <= 32
    ensures n <= BitmapSize(n) && 2 + BitBlocks(n) <= n
    ensures i < BitmapSize(n) ==> (Reserved(n, i) <==> !DataBlock(n, i))
    ensures DataBlock(n, i) <==> i < n && i != SB_LOCATION && i != ROOT_LOCATION && !(MAP_LOCATION <= i < MAP_LOCATION + BitBlocks(n))
  {
  }

  /** The volume has room for its map, and mksfs a buffer as large. */
  predicate MapRoom(n: U32) {
    BitBlocks(n) <= 32 && (BitBlocks(n) > 0 ==> 2 + BitBlocks(n) <= n)
  }

  type Block = b: seq<bv8> | |b| == 512 witness seq(512, _ => 0)

  /** A block device; I/O on the blocks in broken fails. */
  class Disk {
    var blocks: seq<Block>
    var broken: set<nat>

    predicate Broken(m: nat)
      reads this
    {
      exists b :: MAP_LOCATION <= b < MAP_LOCATION + m && b in broken
    }
  }

  /** The first m blocks of the free map as the disk holds it. */
  function MapOf(disk: seq<Block>, m: nat): (r: seq<bv8>)
    requires m > 0 ==> 2 + m <= |disk|
    ensures |r| == 512 * m
  {
    if m == 0 then [] else MapOf(disk, m - 1) + disk[MAP_LOCATION + m - 1]
  }

  lemma {:induction false} MapOfFrame(d: seq<Block>, e: seq<Block>, m: nat)
    requires m > 0 ==> 2 + m <= |d| && 2 + m <= |e| && d[..2 + m] == e[..2 + m]
    ensures MapOf(d, m) == MapOf(e, m)
  {
    if m > 0 {
      assert d[..1 + m] == d[..2 + m][..1 + m] && e[..1 + m] == e[..2 + m][..1 + m];
      MapOfFrame(d, e, m - 1);
      assert d[1 + m] == d[..2 + m][1 + m] && e[1 + m] == e[..2 + m][1 + m];
    }
  }
}

/** mksfs: writing the free map of a new volume. */
module Mksfs {
  import opened Bitmap
  import opened SfsLayout

  const MAXBITBLOCKS := 32

  datatype Outcome = TooLarge | AssertionFails | DiskError | Written

  class Maker {
    var bitbuf: array<bv8>

    /** The static buffer, zero at the start. */
    constructor ()
      ensures bitbuf.Length == 16384 && fresh(bitbuf) && forall k: nat :: !IsSet(bitbuf[..], k)
    {
      bitbuf := new bv8[16384](_ => 0);
    }

    /** doallocbit(); ok is false when its assertion fails. */
    method DoAllocBit(bit: nat) returns (ok: bool)
      requires bit / 8 < bitbuf.Length
      modifies bitbuf
      ensures ok <==> !IsSet(old(bitbuf[..]), bit)
      ensures forall k: nat :: IsSet(bitbuf[..], k) <==> k == bit || IsSet(old(bitbuf[..]), k)
    {
      ghost var was := bitbuf[..];
      var set' := Tests(bitbuf[bit / 8], bit % 8);
      ok := !set';
      var mask := Shifted(bit % 8);
      bitbuf[bit / 8] := bitbuf[bit / 8] | mask;
      assert bitbuf[..] == WithSet(was, bit);
      forall k: nat
        ensures IsSet(bitbuf[..], k) <==> k == bit || IsSet(was, k)
      {
        SetOne(was, bit, k);
      }
    }

    /** A loop of doallocbit() over the bits from lo up to hi. */
    method DoAllocBits(lo: nat, hi: nat) returns (ok: bool)
      requires hi <= 8 * bitbuf.Length
      modifies bitbuf
      ensures ok <==> forall k: nat :: lo <= k < hi ==> !IsSet(old(bitbuf[..]), k)
      ensures forall k: nat :: ok ==> (IsSet(bitbuf[..], k) <==> lo <= k < hi || IsSet(old(bitbuf[..]), k))
    {
      ok := true;
      var i := lo;
      while i < hi
        invariant lo <= i && (i <= hi || i == lo)
        invariant forall k: nat :: lo <= k < i ==> !IsSet(old(bitbuf[..]), k)
        invariant forall k: nat :: IsSet(bitbuf[..], k) <==> lo <= k < i || IsSet(old(bitbuf[..]), k)
      {
        var fine := DoAllocBit(i);
        if !fine {
          assert IsSet(old(bitbuf[..]), i);
          return false;
        }
        i := i + 1;
      }
    }

    /** The marks of writebitmap(), up to the writing. */
    method MarkAll(n: U32) returns (ok: bool)
      requires bitbuf.Length == 16384 && (forall k: nat :: !IsSet(bitbuf[..], k)) && BitBlocks(n) <= MAXBITBLOCKS
      modifies bitbuf
      ensures ok <==> n == 0 || n >= 3
      ensures ok ==> forall k: nat :: IsSet(bitbuf[..], k) <==> Reserved(n, k)
    {
      ok := DoAllocBit(SB_LOCATION);
      var fine := DoAllocBit(ROOT_LOCATION);
      ok := ok && fine;
      fine := DoAllocBits(MAP_LOCATION, MAP_LOCATION + BitBlocks(n));
      ok := ok && fine;
      ghost var was := bitbuf[..];
      assert forall k: nat :: IsSet(was, k) <==> k < 2 + BitBlocks(n);
      fine := DoAllocBits(n, BitmapSize(n));
      if 0 < n < 3 {
        assert IsSet(was, n);
      }
      ok := ok && fine;
    }

    /** writebitmap() on a device of n blocks. It writes the map if and only if the map is not too large,
        the volume has room for it and the disk takes it. */
    method WriteBitmap(n: U32, disk: Disk) returns (r: Outcome)
      requires bitbuf.Length == 16384 && (forall k: nat :: !IsSet(bitbuf[..], k)) && |disk.blocks| == n
      modifies bitbuf, disk`blocks
      ensures r.TooLarge? <==> BitBlocks(n) > MAXBITBLOCKS
      ensures r.AssertionFails? <==> n == 1 || n == 2
      ensures r.DiskError? <==> n != 1 && n != 2 && BitBlocks(n) <= MAXBITBLOCKS && disk.Broken(BitBlocks(n))
      ensures r.Written? ==> forall k: nat :: IsSet(bitbuf[..], k) <==> Reserved(n, k)
      ensures r.Written? ==> MapRoom(n) && |disk.blocks| == n && MapOf(disk.blocks, BitBlocks(n)) == bitbuf[..512 * BitBlocks(n)]
      ensures |disk.blocks| == n && forall b: nat :: b < n && !(2 <= b < 2 + BitBlocks(n)) ==> disk.blocks[b] == old(disk.blocks)[b]
    {
      if BitBlocks(n) > MAXBITBLOCKS {
        return TooLarge;
      }
      var ok := MarkAll(n);
      if !ok {
        return AssertionFails;
      }
      var error := WriteBlocks(BitBlocks(n), disk);
      return if error then DiskError else Written;
    }

    method WriteBlocks(nblocks: nat, disk: Disk) returns (error: bool)
      requires bitbuf.Length == 16384 && nblocks <= MAXBITBLOCKS && (nblocks > 0 ==> 2 + nblocks <= |disk.blocks|)
      modifies disk`blocks
      ensures |disk.blocks| == |old(disk.blocks)| && (error <==> disk.Broken(nblocks))
      ensures !error ==> MapOf(disk.blocks, nblocks) == bitbuf[..512 * nblocks]
      ensures forall b: nat :: b < |disk.blocks| && !(2 <= b < 2 + nblocks) ==> disk.blocks[b] == old(disk.blocks)[b]
    {
      for i := 0 to nblocks
        invariant |disk.blocks| == |old(disk.blocks)| && MapOf(disk.blocks, i) == bitbuf[..512 * i]
        invariant forall b :: 2 <= b < 2 + i ==> b !in disk.broken
        invariant forall b: nat :: b < |disk.blocks| && !(2 <= b < 2 + i) ==> disk.blocks[b] == old(disk.blocks)[b]
      {
        ghost var was := disk.blocks;
        if MAP_LOCATION + i in disk.broken {
          return true;
        }
        disk.blocks := disk.blocks[MAP_LOCATION + i := bitbuf[512 * i..512 * i + 512]];
        MapOfFrame(was, disk.blocks, i);
        assert MapOf(disk.blocks, i + 1) == MapOf(disk.blocks, i) + disk.blocks[2 + i];
        assert bitbuf[..512 * (i + 1)] == bitbuf[..512 * i] + bitbuf[512 * i..512 * i + 512];
      }
      return false;
    }
  }
}

/** The kernel's use of the map. */
module Sfs {
  import opened Bitmap
  import opened SfsLayout
  import Mksfs

  /** sfs_mapio() reading: fails exactly when a block of the map is broken. */
  method MapRead(freemap: Map, disk: Disk, mapsize: nat) returns (error: bool)
    requires freemap.v.Length == 512 * mapsize && (mapsize > 0 ==> 2 + mapsize <= |disk.blocks|)
    modifies freemap.v
    ensures error <==> disk.Broken(mapsize)
    ensures !error ==> freemap.v[..] == MapOf(disk.blocks, mapsize)
  {
    for j := 0 to mapsize
      invariant freemap.v[..512 * j] == MapOf(disk.blocks, j)
      invariant forall b :: 2 <= b < 2 + j ==> b !in disk.broken
    {
      ghost var was := freemap.v[..512 * j];
      if MAP_LOCATION + j in disk.broken {
        return true;
      }
      ReadBlock(freemap.v, disk.blocks[MAP_LOCATION + j], j);
      assert MapOf(disk.blocks, j + 1) == MapOf(disk.blocks, j) + disk.blocks[2 + j];
      assert freemap.v[..512 * (j + 1)] == was + disk.blocks[2 + j];
    }
    assert freemap.v[..] == freemap.v[..512 * mapsize];
    return false;
  }

  /** sfs_rblock() into the place of block j. */
  method ReadBlock(v: array<bv8>, block: Block, j: nat)
    requires 512 * j + 512 <= v.Length
    modifies v
    ensures forall p :: 0 <= p < v.Length ==> v[p] == if 512 * j <= p < 512 * j + 512 then block[p - 512 * j] else old(v[p])
  {
    for k := 0 to 512
      invariant forall p :: 0 <= p < v.Length ==> v[p] == if 512 * j <= p < 512 * j + k then block[p - 512 * j] else old(v[p])
    {
      v[512 * j + k] := block[k];
    }
  }

  /** sfs_mapio() writing: fails exactly when a block of the map is broken; otherwise what MapRead()
      would then read back is the map as it is in memory. */
  method MapWrite(freemap: Map, disk: Disk, mapsize: nat) returns (error: bool)
    requires freemap.v.Length == 512 * mapsize && (mapsize > 0 ==> 2 + mapsize <= |disk.blocks|)
    modifies disk`blocks
    ensures |disk.blocks| == |old(disk.blocks)| && (error <==> disk.Broken(mapsize))
    ensures !error ==> MapOf(disk.blocks, mapsize) == freemap.v[..]
    ensures forall b: nat :: b < |disk.blocks| && !(2 <= b < 2 + mapsize) ==> disk.blocks[b] == old(disk.blocks)[b]
  {
    for j := 0 to mapsize
      invariant |disk.blocks| == |old(disk.blocks)| && MapOf(disk.blocks, j) == freemap.v[..512 * j]
      invariant forall b :: 2 <= b < 2 + j ==> b !in disk.broken
      invariant forall b: nat :: b < |disk.blocks| && !(2 <= b < 2 + j) ==> disk.blocks[b] == old(disk.blocks)[b]
    {
      ghost var was := disk.blocks;
      if MAP_LOCATION + j in disk.broken {
        return true;
      }
      disk.blocks := disk.blocks[MAP_LOCATION + j := freemap.v[512 * j..512 * j + 512]];
      MapOfFrame(was, disk.blocks, j);
      assert MapOf(disk.blocks, j + 1) == MapOf(disk.blocks, j) + disk.blocks[2 + j];
      assert freemap.v[..512 * (j + 1)] == freemap.v[..512 * j] + freemap.v[512 * j..512 * j + 512];
    }
    assert freemap.v[..] == freemap.v[..512 * mapsize];
    return false;
  }

  /** The volumes mksfs can make. */
  predicate Makeable(n: U32) { 3 <= n && 0 < BitBlocks(n) <= 32 }

  /** The map v marks what is reserved and the blocks in use, which are data blocks, and nothing else. */
  ghost predicate Shows(v: seq<bv8>, n: U32, used: set<nat>) {
    && (forall k: nat :: k < BitmapSize(n) ==> (IsSet(v, k) <==> Reserved(n, k) || k in used))
    && (forall k :: k in used ==> DataBlock(n, k))
  }

  /** Making a volume: what mksfs writes, unless the disk fails, shows one with nothing in use. */
  method Make(n: U32, disk: Disk) returns (error: bool)
    requires |disk.blocks| == n && Makeable(n)
    modifies disk`blocks
    ensures |disk.blocks| == n && MapRoom(n) && (error <==> disk.Broken(BitBlocks(n)))
    ensures !error ==> Shows(MapOf(disk.blocks, BitBlocks(n)), n, {})
  {
    var maker := new Mksfs.Maker();
    var made := maker.WriteBitmap(n, disk);
    Partition(n, 0);
    if made.DiskError? {
      return true;
    }
    assert made.Written?;
    ghost var v, bitbuf := MapOf(disk.blocks, BitBlocks(n)), maker.bitbuf[..];
    assert v == bitbuf[..512 * BitBlocks(n)];
    forall k: nat | k < BitmapSize(n)
      ensures IsSet(v, k) <==> Reserved(n, k)
    {
      assert v[k / 8] == bitbuf[k / 8];
      assert IsSet(bitbuf, k) == IsSet(v, k);
    }
    return false;
  }

  const ZEROS: Block := seq(512, _ => 0)

  /** What sfs_balloc() comes to: ENOSPC, a block taken that could not be cleared, or a block. */
  datatype Answer = NoSpace | NotCleared(block: nat) | Block(block: nat) | Done

  /** A mounted volume: inUse are the blocks taken from the map and not given back. */
  class Volume {
    const n: U32
    const freemap: Map
    var freemapdirty: bool
    ghost var inUse: set<nat>

    ghost predicate Loaded()
      reads this, freemap, freemap.v
    {
      Makeable(n) && freemap.Valid() && freemap.nbits == BitmapSize(n)
    }

    ghost predicate Valid()
      reads this, freemap, freemap.v
    {
      Loaded() && Shows(freemap.v[..], n, inUse)
    }

    /** Unless the map is dirty, it is on the disk. */
    ghost predicate OnDisk(disk: Disk)
      reads this, freemap, freemap.v, disk
    {
      && |disk.blocks| == n && MapRoom(n)
      && (!freemapdirty ==> MapOf(disk.blocks, BitBlocks(n)) == freemap.v[..])
    }

    constructor (m: Map, size: U32, ghost used: set<nat>)
      ensures n == size && freemap == m && inUse == used && !freemapdirty
    {
      n, freemap, inUse, freemapdirty := size, m, used, false;
    }

    /** bitmap_alloc() for a block: the lowest data block not in use, or ENOSPC exactly when all are. */
    method Alloc() returns (error: bool, block: nat)
      requires Valid()
      modifies this`inUse, freemap.v
      ensures Valid()
      ensures error <==> forall k: nat :: DataBlock(n, k) ==> k in old(inUse)
      ensures error ==> inUse == old(inUse) && freemap.v[..] == old(freemap.v[..])
      ensures !error ==> Lowest(n, old(inUse), block) && inUse == old(inUse) + {block}
    {
      ghost var was := freemap.v[..];
      forall k: nat
        ensures k < BitmapSize(n) ==> (!IsSet(was, k) <==> DataBlock(n, k) && k !in inUse)
        ensures DataBlock(n, k) ==> k < BitmapSize(n)
      {
        Partition(n, k);
      }
      error, block := freemap.Alloc();
      if !error {
        inUse := inUse + {block};
      }
    }

    /** sfs_balloc(): the block is cleared on the disk. If that fails the caller gets an error, but the
        block stays marked. The panic for a block past the end of the volume is not reached. */
    method Take(disk: Disk) returns (r: Answer)
      requires Valid() && OnDisk(disk)
      modifies this, freemap.v, disk`blocks
      ensures Valid() && OnDisk(disk) && !r.Done?
      ensures r.NoSpace? <==> forall k: nat :: DataBlock(n, k) ==> k in old(inUse)
      ensures r.NoSpace? ==> inUse == old(inUse) && freemapdirty == old(freemapdirty)
      ensures !r.NoSpace? ==> Lowest(n, old(inUse), r.block) && inUse == old(inUse) + {r.block}
      ensures !r.NoSpace? ==> (r.NotCleared? <==> r.block in disk.broken)
      ensures disk.blocks == if r.Block? then old(disk.blocks)[r.block := ZEROS] else old(disk.blocks)
    {
      var error, block := Alloc();
      if error {
        return NoSpace;
      }
      freemapdirty := true;
      assert block < n;
      if block in disk.broken {
        return NotCleared(block);
      }
      disk.blocks := disk.blocks[block := ZEROS];
      return Block(block);
    }

    /** sfs_bfree() of a block in use. */
    method Give(block: nat)
      requires Valid() && block in inUse
      modifies this, freemap.v
      ensures Valid() && inUse == old(inUse) - {block} && freemapdirty
    {
      Partition(n, block);
      freemap.Unmark(block);
      inUse := inUse - {block};
      freemapdirty := true;
    }

    /** The free-map part of sfs_sync(). */
    method Sync(disk: Disk) returns (error: bool)
      requires Valid() && OnDisk(disk)
      modifies this`freemapdirty, disk`blocks
      ensures Valid() && OnDisk(disk) && (error <==> old(freemapdirty) && disk.Broken(BitBlocks(n)))
      ensures freemapdirty == error
      ensures forall b: nat :: b < n && !(2 <= b < 2 + BitBlocks(n)) ==> disk.blocks[b] == old(disk.blocks)[b]
    {
      if freemapdirty {
        error := MapWrite(freemap, disk, BitBlocks(n));
        if error {
          return;
        }
        freemapdirty := false;
      }
      return false;
    }
  }

  /** The free-map part of sfs_domount(): the map as the disk holds it, whatever it shows, unless a block
      of it cannot be read. If it shows certain data blocks in use, the volume is sound with those in use. */
  method Mount(disk: Disk, n: U32, ghost used: set<nat>) returns (volume: Volume?)
    requires Makeable(n) && |disk.blocks| == n && MapRoom(n)
    ensures volume == null <==> disk.Broken(BitBlocks(n))
    ensures volume != null ==> fresh(volume) && fresh(volume.freemap) && fresh(volume.freemap.v)
    ensures volume != null ==> volume.Loaded() && volume.n == n && volume.inUse == used && !volume.freemapdirty
    ensures volume != null ==> volume.freemap.v[..] == MapOf(disk.blocks, BitBlocks(n)) && volume.OnDisk(disk)
    ensures volume != null && Shows(MapOf(disk.blocks, BitBlocks(n)), n, used) ==> volume.Valid()
  {
    var m := new Map(BitmapSize(n));
    var error := MapRead(m, disk, BitBlocks(n));
    if error {
      return null;
    }
    volume := new Volume(m, n, used);
  }

  /** vfs_unmount(), which syncs first and leaves the volume mounted if that fails, and mounting again.
      The assertion that the map is not dirty then holds. The same blocks are in use. */
  method Remount(volume: Volume, disk: Disk) returns (again: Volume?)
    requires volume.Valid() && volume.OnDisk(disk)
    modifies volume`freemapdirty, disk`blocks
    ensures again == volume <==> old(volume.freemapdirty) && disk.Broken(BitBlocks(volume.n))
    ensures again == null <==> !old(volume.freemapdirty) && disk.Broken(BitBlocks(volume.n))
    ensures again == null || again == volume || (fresh(again) && fresh(again.freemap) && fresh(again.freemap.v))
    ensures again != null ==> again.Valid() && again.OnDisk(disk) && again.n == volume.n && again.inUse == volume.inUse
    ensures |disk.blocks| == volume.n
    ensures forall b: nat :: b < volume.n && !(2 <= b < 2 + BitBlocks(volume.n)) ==> disk.blocks[b] == old(disk.blocks)[b]
  {
    var error := volume.Sync(disk);
    if error {
      return volume;
    }
    assert !volume.freemapdirty;
    again := Mount(disk, volume.n, volume.inUse);
  }

  ghost predicate Lowest(n: U32, used: set<nat>, block: nat) {
    DataBlock(n, block) && block !in used && forall k: nat :: DataBlock(n, k) && k < block ==> k in used
  }

  // ---------------------------------------------------------------- runs

  /** Remounting is writing the map to the disk, unmounting and mounting. */
  datatype Request = Take | Give(block: nat) | Remount

  /** The blocks handed out by the first t answers and not given back by the first t requests, and
      those taken but not handed out because they could not be cleared. */
  function Held(requests: seq<Request>, answers: seq<Answer>, t: nat): set<nat>
    requires t <= |requests| && t <= |answers|
  {
    if t == 0 then {}
    else
      var held := Held(requests, answers, t - 1);
      match requests[t - 1]
      case Take => if answers[t - 1].Block? || answers[t - 1].NotCleared? then held + {answers[t - 1].block} else held
      case Give(b) => held - {b}
      case Remount => held
  }

  lemma {:induction false} HeldFrame(requests: seq<Request>, a: seq<Answer>, b: seq<Answer>, t: nat)
    requires t <= |requests| && t <= |a| <= |b| && b[..|a|] == a
    ensures Held(requests, a, t) == Held(requests, b, t)
  {
    if t > 0 {
      assert b[t - 1] == b[..|a|][t - 1];
      HeldFrame(requests, a, b, t - 1);
    }
  }

  /** The t-th answer is right: the lowest data block of the volume not held, which could be cleared or
      not, or no space exactly when every data block is held. */
  ghost predicate Right(n: U32, broken: set<nat>, requests: seq<Request>, answers: seq<Answer>, t: nat)
    requires t < |requests| && t < |answers|
  {
    requests[t].Take? ==>
      var held := Held(requests, answers, t);
      match answers[t]
      case NoSpace => forall k: nat :: DataBlock(n, k) ==> k in held
      case NotCleared(b) => Lowest(n, held, b) && b in broken
      case Block(b) => Lowest(n, held, b) && b !in broken
      case Done => false
  }

  /** Make a volume, mount it and serve any requests, remounting in between; a block that is not held is
      not given back. It is made exactly when the disk can hold the map. */
  method MakeMountServe(n: U32, disk: Disk, requests: seq<Request>) returns (made: bool, answers: seq<Answer>)
    requires |disk.blocks| == n && Makeable(n)
    modifies disk`blocks
    ensures made <==> !disk.Broken(BitBlocks(n))
    ensures made ==> |answers| == |requests|
    ensures made ==> forall t {:trigger Right(n, disk.broken, requests, answers, t)} :: 0 <= t < |requests| ==>
              Right(n, disk.broken, requests, answers, t)
  {
    var error := Make(n, disk);
    if error {
      return false, [];
    }
    var volume := Mount(disk, n, {});
    answers := Serve(volume, disk, requests);
    return true, answers;
  }

  method ServeOne(volume: Volume, disk: Disk, request: Request, held: set<nat>)
    returns (answer: Answer, volume': Volume, held': set<nat>)
    requires volume.Valid() && volume.inUse == held && volume.OnDisk(disk) && !disk.Broken(BitBlocks(volume.n))
    modifies volume, volume.freemap.v, disk`blocks
    ensures volume'.Valid() && volume'.n == volume.n && volume'.inUse == held' && volume'.OnDisk(disk)
    ensures volume' == volume || (fresh(volume') && fresh(volume'.freemap) && fresh(volume'.freemap.v))
    ensures volume' == volume ==> volume.freemap.v == old(volume.freemap.v)
    ensures request.Take? ==> !answer.Done?
    ensures request.Take? && answer.NoSpace? ==> held' == held && forall k: nat :: DataBlock(volume.n, k) ==> k in held
    ensures request.Take? && !answer.NoSpace? ==> held' == held + {answer.block} && Lowest(volume.n, held, answer.block)
    ensures request.Take? && !answer.NoSpace? ==> (answer.NotCleared? <==> answer.block in disk.broken)
    ensures request.Give? ==> held' == held - {request.block}
    ensures request.Remount? ==> held' == held
  {
    volume', held', answer := volume, held, Done;
    match request {
      case Take =>
        answer := volume.Take(disk);
        held' := if answer.NoSpace? then held else held + {answer.block};
      case Give(b) =>
        if b in held {
          volume.Give(b);
          held' := held - {b};
        }
      case Remount =>
        volume' := Remount(volume, disk);
    }
  }

  method Serve(first: Volume, disk: Disk, requests: seq<Request>) returns (answers: seq<Answer>)
    requires first.Valid() && first.inUse == {} && first.OnDisk(disk) && !disk.Broken(BitBlocks(first.n))
    modifies first, first.freemap.v, disk`blocks
    ensures |answers| == |requests|
    ensures forall t {:trigger Right(first.n, disk.broken, requests, answers, t)} :: 0 <= t < |requests| ==>
              Right(first.n, disk.broken, requests, answers, t)
  {
    answers := [];
    var volume, held: set<nat> := first, {};
    ghost var n, broken := first.n, disk.broken;
    for i := 0 to |requests|
      invariant volume == first || (fresh(volume) && fresh(volume.freemap) && fresh(volume.freemap.v))
      invariant volume == first ==> volume.freemap.v == old(first.freemap.v)
      invariant volume.Valid() && volume.n == n && volume.OnDisk(disk) && |answers| == i
      invariant volume.inUse == held == Held(requests, answers, i)
      invariant forall t {:trigger Right(n, broken, requests, answers, t)} :: 0 <= t < i ==> Right(n, broken, requests, answers, t)
    {
      ghost var was := answers;
      var answer;
      answer, volume, held := ServeOne(volume, disk, requests[i], held);
      answers := answers + [answer];
      StaysRight(n, broken, requests, was, answers, i);
    }
  }

  lemma StaysRight(n: U32, broken: set<nat>, requests: seq<Request>, a: seq<Answer>, b: seq<Answer>, i: nat)
    requires |a| == i < |requests| && |b| == i + 1 && b[..i] == a
    requires forall t {:trigger Right(n, broken, requests, a, t)} :: 0 <= t < i ==> Right(n, broken, requests, a, t)
    ensures Held(requests, a, i) == Held(requests, b, i)
    ensures forall t {:trigger Right(n, broken, requests, b, t)} :: 0 <= t < i ==> Right(n, broken, requests, b, t)
  {
    HeldFrame(requests, a, b, i);
    forall t | 0 <= t < i
      ensures Right(n, broken, requests, b, t)
    {
      assert Right(n, broken, requests, a, t);
      HeldFrame(requests, a, b, t);
      assert b[t] == b[..i][t];
    }
  }
}
