/**
 getstartblkno, readi, writei, appendi and filewrite (kernel/fs.c, kernel/file.c) over
 any number of files of up to seven extents and any number of bitmap blocks.

 The extent pointer can come to stand at the wrong place, or run past the inode's seven
 extents.  The methods move what the code moves; `places` are the bytes of the file that
 they moved.  The block writes of one writei are one transaction of the log.
 */
module FileStore {
  import opened Prelude
  import opened Blocks
  import opened FileData
  import opened FileAlloc
  import opened FileWalk
  import CrashLog

  const MAX_UINT := 0x1_0000_0000

  datatype Fate =
    | Done
    | Stray      // the extent pointer has left the inode's extents
    | Full       // no bitmap byte is free: the code takes block 0
    | Clash      // the extent given out is already in some file
    | NoBuffers  // the transaction has pinned every buffer: panic
    | LogOver    // the transaction has more entries than the log

  // ---- what goes to the log ----

  // d is d0 with the writes ws made, each of a whole block, at the file's bytes ps.
  ghost predicate Logged(d0: Disk, d: Disk, ws: seq<Write>, ps: seq<nat>, ip: Inode, u: nat) {
    && d == Apply(d0, ws) && |ps| == |ws| && u <= |ip.ext|
    && forall i :: 0 <= i < |ws| ==>
         ps[i] < Base(ip, u) && ws[i].block == Blk(ip, u, ps[i]) && Whole(ws[i].data)
  }

  lemma LogStart(d: Disk, ip: Inode, u: nat)
    requires u <= |ip.ext|
    ensures Logged(d, d, [], [], ip, u)
  {
  }

  lemma LogMore(d0: Disk, d: Disk, ws: seq<Write>, ps: seq<nat>, ip: Inode, u: nat, k: nat, o: nat, src: seq<byte>)
    requires Logged(d0, d, ws, ps, ip, u) && DiskOk(d) && o + |src| <= BSIZE && k < Base(ip, u) && Blk(ip, u, k) in d
    ensures var b := Blk(ip, u, k);
      var e := Stored(d, b, o, src);
      Logged(d0, e, ws + [Write(b, e[b])], ps + [k], ip, u)
  {
    hide BytesOf, BlockOf, Apply, Blk, Base;
    var b := Blk(ip, u, k);
    ApplySnoc(d0, ws, Write(b, Stored(d, b, o, src)[b]));
  }

  // A file that has grown still has its blocks.
  lemma LogWider(d0: Disk, d: Disk, ws: seq<Write>, ps: seq<nat>, ip: Inode, u: nat, np: Inode, nu: nat)
    requires Logged(d0, d, ws, ps, ip, u) && u <= nu <= |np.ext| == |ip.ext| && np.ext[..u] == ip.ext[..u]
    ensures Logged(d0, d, ws, ps, np, nu)
  {
    hide Apply, Blk, Base;
    forall i | 0 <= i < u ensures np.ext[i] == ip.ext[i] { assert np.ext[..u][i] == ip.ext[..u][i]; }
    forall i | 0 <= i < |ws| ensures ps[i] < Base(np, nu) && ws[i].block == Blk(np, nu, ps[i]) {
      SamePlace(ip, u, np, nu, ps[i]);
    }
  }

  lemma LoggedBlocks(d0: Disk, d: Disk, ws: seq<Write>, ps: seq<nat>, ip: Inode, u: nat, b: nat)
    requires Logged(d0, d, ws, ps, ip, u) && SelfApart(ip, u) && Rising(ps, b)
    ensures |BlocksOf(ws)| == |ws|
  {
    hide Apply, Blk, Base, SelfApart, Rising;
    RisingDistinct(ip, u, ws, ps, b);
  }

  // ---- what a write asks for ----

  // The part of n bytes at off that fits in `cap` bytes.
  function Within(off: nat, n: nat, cap: nat): nat
    requires off <= cap
  {
    Min(n, cap - off)
  }

  // A transaction of k blocks leaves a buffer free and fits in the log.
  predicate InLogAndCache(k: nat, nbuf: nat) {
    k < nbuf && k <= CrashLog.MAX_ENTRIES
  }

  // writei gets to its end and puts the bytes within the capacity where they belong.
  predicate Completes(files: seq<Inode>, used: seq<nat>, bm: seq<byte>, top: nat, nbuf: nat, f: nat, off: nat, n: nat)
    requires f < |files| && f < |used|
  {
    && used[f] <= |files[f].ext| && off <= Base(files[f], used[f])
    && var m := Within(off, n, Base(files[f], used[f]));
       && Walkable(files[f], used[f], off, m) && CanGrow(files, used, bm, top, f, BlocksFor(n - m))
       && InLogAndCache(Touched(off, m) + BlocksFor(n - m), nbuf)
  }

  // A write of n bytes at the end of f completes and needs at most one more block.
  predicate Appends(files: seq<Inode>, used: seq<nat>, bm: seq<byte>, top: nat, nbuf: nat, f: nat, n: nat)
    requires f < |files| && f < |used|
  {
    var off := files[f].size;
    && Completes(files, used, bm, top, nbuf, f, off, n) && off + n < MAX_UINT
    && n - Within(off, n, Base(files[f], used[f])) <= BSIZE
  }

  // As many blocks as there are buffers: writei of 30 blocks in a first extent long enough
  // meets the panic with the kernel's 30 buffers, and would not with 31.
  lemma ThirtyBlocks(files: seq<Inode>, used: seq<nat>, bm: seq<byte>, top: nat, f: nat)
    requires f < |files| && f < |used| && 1 <= used[f] <= |files[f].ext| && files[f].ext[0].nblocks >= 30
    ensures !Completes(files, used, bm, top, 30, f, 0, 30 * BSIZE)
    ensures Completes(files, used, bm, top, 31, f, 0, 30 * BSIZE)
  {
    var ip, u := files[f], used[f];
    NextBase(ip, 0);
    NoBytes(ip);
    BaseGrows(ip, 1, u);
    BaseGrows(ip, 1, Min(2, u));
    assert Touched(0, 30 * BSIZE) == 30 && BlocksFor(0) == 0;
    GrowStep(files, used, bm, top, f, 0);
  }

  // With one bitmap block: f has no extent more than it needs, and there is room for n
  // bytes more in its seven extents and for the extents in the bitmap.
  predicate Fits(files: seq<Inode>, used: seq<nat>, bm: seq<byte>, nbuf: nat, f: nat, n: nat)
    requires f < |files| && f < |used|
  {
    var ip, u := files[f], used[f];
    && u <= EXTENT_N <= |ip.ext| && |bm| == BSIZE && |FreeSet(bm)| + u >= EXTENT_N && nbuf >= 4
    && (u > 0 ==> Base(ip, u - 1) < ip.size) && ip.size <= Base(ip, u) && ip.size + n < MAX_UINT
    && ip.size + n <= Base(ip, u) + (EXTENT_N - u) * EXTENT_BYTES
  }

  // What writei makes of the bytes v of a file's extents: src[..m] goes to the places ps,
  // and each block of the rest goes to a new extent, block i to that extent's block i.
  ghost predicate Placed(v: seq<byte>, w: seq<byte>, ps: seq<nat>, src: seq<byte>, m: nat) {
    && m <= |src| && |ps| == m && (forall i :: 0 <= i < |ps| ==> ps[i] < |v|) && |v| <= |w|
    && w[..|v|] == Scatter(v, ps, src[..m]) && Spread(w, |v|, src[m..])
  }

  // One more extent, which held `raw`, with a chunk at offset `size` in it.
  predicate Extended(v: seq<byte>, w: seq<byte>, size: nat, chunk: seq<byte>, raw: seq<byte>) {
    |raw| == EXTENT_BYTES && size + |chunk| <= EXTENT_BYTES && w == v + Splice(raw, size, chunk)
  }

  ghost predicate Spread(w: seq<byte>, at: nat, src: seq<byte>) {
    forall i :: 0 <= i < |src| ==> ChunkAt(w, at, src, i)
  }

  // Of the first new extent only one block is written; the rest of it is as it was.
  predicate RestRaw(w: seq<byte>, at: nat, n: nat, raw: seq<byte>) {
    && |raw| == EXTENT_BYTES && at + EXTENT_BYTES <= |w|
    && w[at + Min(n, BSIZE)..at + EXTENT_BYTES] == raw[Min(n, BSIZE)..]
  }

  predicate ChunkAt(w: seq<byte>, at: nat, src: seq<byte>, i: nat)
    requires i < |src|
  {
    var k := at + i / BSIZE * EXTENT_BYTES + i;
    k < |w| && w[k] == src[i]
  }

  // Extent m of those given out overlaps an earlier one.
  predicate GivenBefore(starts: seq<int>, m: nat)
    requires m < |starts|
  {
    exists y :: 0 <= y < m && Overlap(starts[m], starts[y])
  }

  class Store {
    var disk: Disk
    const bitmap: array<byte>
    const top: nat
    var files: seq<Inode>
    var used: seq<nat>           // how many extents each file has
    var trace: seq<Write>        // the block writes of the last writei, as they go to the log
    ghost var spots: seq<nat>    // the byte of the file at which each of them starts
    const nbuf: nat              // the buffers of the cache

    ghost predicate Valid()
      reads this, bitmap
    {
      StoreOk(disk, files, used, bitmap[..], top)
    }

    ghost function FileView(f: nat): seq<byte>
      requires Valid() && f < |files|
      reads this, bitmap
    {
      View(disk, files[f], used[f])
    }

    ghost function FileBytes(f: nat): seq<byte>
      requires Valid() && f < |files|
      reads this, bitmap
    {
      Contents(disk, files[f], used[f])
    }

    // The files that are there, on a disk whose data blocks end at t.
    constructor (d: Disk, t: nat, free: seq<byte>, fs: seq<Inode>, us: seq<nat>, buffers: nat)
      requires StoreOk(d, fs, us, free, t)
      ensures Valid() && fresh(bitmap) && bitmap[..] == free && disk == d && top == t && files == fs && used == us
      ensures nbuf == buffers
    {
      disk, top, files, used, nbuf, trace, spots := d, t, fs, us, buffers, [], [];
      bitmap := new byte[|free|](i requires 0 <= i < |free| => free[i]);
      new;
      assert bitmap[..] == free;
    }

    // The scan of the bitmap, from its last block back; the byte it stops at becomes 0xFF.
    method Getstartblkno() returns (b: int)
      requires RoomOnDisk(disk, bitmap[..], top)
      modifies bitmap
      ensures var bm := old(bitmap[..]);
        var x := FirstFree(bm, 0);
        if x == |bm| then b == 0 && bitmap[..] == bm
        else b == SlotStart(top, x) > 0 && bitmap[..] == bm[x := 0xFF]
    {
      ghost var bm := bitmap[..];
      var k := 0;
      while k < bitmap.Length / BSIZE
        invariant 0 <= k <= bitmap.Length / BSIZE && bitmap[..] == bm
        invariant FirstFree(bm, 0) == FirstFree(bm, k * BSIZE)
      {
        var j := 0;
        while j < BSIZE
          invariant 0 <= j <= BSIZE && bitmap[..] == bm
          invariant FirstFree(bm, 0) == FirstFree(bm, k * BSIZE + j)
        {
          if bitmap[k * BSIZE + j] == 0 {
            bitmap[k * BSIZE + j] := 0xFF;
            assert bitmap[..] == bm[k * BSIZE + j := 0xFF];
            return top - k * BSIZE - (j + 1) * EXTENT_BLOCKS;
          }
          j := j + 1;
        }
        k := k + 1;
      }
      return 0;
    }

    // Giving out n extents from n free bytes.  The first that is already in use is the one
    // after 512, and after that all but the last 64 of each bitmap block are.
    method GiveOut(n: nat) returns (starts: seq<int>)
      requires RoomOnDisk(disk, bitmap[..], top) && n <= bitmap.Length
      requires forall x :: 0 <= x < n ==> bitmap[x] == 0
      modifies bitmap
      ensures |starts| == n && forall m :: 0 <= m < n ==> starts[m] == SlotStart(top, m)
      ensures forall m :: 0 <= m < n ==> (GivenBefore(starts, m) <==> m >= BSIZE && m % BSIZE < BSIZE - 64)
    {
      starts := [];
      while |starts| < n
        invariant |starts| <= n && forall m :: 0 <= m < |starts| ==> starts[m] == SlotStart(top, m)
        invariant forall x :: 0 <= x < n ==> bitmap[x] == if x < |starts| then 0xFF else 0
      {
        ghost var bm := bitmap[..];
        assert forall x :: 0 <= x < bitmap.Length ==> bm[x] == bitmap[x];
        assert bm[|starts|] == 0;
        var b := Getstartblkno();
        assert forall x :: 0 <= x < bitmap.Length ==> bitmap[x] == bitmap[..][x];
        starts := starts + [b];
      }
      forall m | 0 <= m < n ensures GivenBefore(starts, m) <==> m >= BSIZE && m % BSIZE < BSIZE - 64 {
        ClashesExactly(top, m);
        if y :| 0 <= y < m && Overlap(SlotStart(top, m), SlotStart(top, y)) { assert Overlap(starts[m], starts[y]); }
      }
    }

    // readi.  The bytes it moves are those asked for exactly when the file has blocks for
    // the range and the range is walkable.
    method Readi(f: nat, off: nat, n: nat) returns (res: int, dst: seq<byte>, st: Fate, ghost places: seq<nat>)
      requires Valid() && f < |files|
      ensures res == -1 <==> off > files[f].size || off + n >= MAX_UINT
      ensures res == -1 ==> st == Done && dst == [] && places == []
      ensures res != -1 ==>
        var ip, want := files[f], Min(n, files[f].size - off);
        && (st == Done || st == Stray) && res == want
        && (st == Done ==> |places| == want && Picked(FileView(f), places, dst))
        && (st == Done && InOrder(places, off) <==> off <= Base(ip, used[f]) && Walkable(ip, used[f], off, want))
        && (st == Done && InOrder(places, off) ==> dst == FileBytes(f)[off..off + want])
        && (Even(ip, used[f]) && st == Done ==> InOrder(places, off))
    {
      hide StoreOk, View, Walkable, OnDisk, DiskOk, Contents, Base, InOrder, Picked, Even;
      StoreFacts(disk, files, used, bitmap[..], top, f);
      var ip := files[f];
      if off > ip.size || off + n >= MAX_UINT {
        return -1, [], Done, [];
      }
      var want := if off + n > ip.size then ip.size - off else n;
      var data, base := FindExtent(ip, used[f], off);
      if data == EXTENT_N {
        return want, [], Stray, [];
      }
      dst, st, places := ReadFrom(f, off, want, data, off - base);
      if st == Done && InOrder(places, off) {
        WalkableFits(ip, used[f], off, want);
        ContentsPart(disk, ip, used[f], off, want);
        PickedInOrder(FileView(f), places, dst, off);
      }
      res := want;
    }

    // readi's second loop, from extent `data` at offset `start` in it
    method ReadFrom(f: nat, off: nat, want: nat, data: nat, start: nat)
      returns (dst: seq<byte>, st: Fate, ghost places: seq<nat>)
      requires Valid() && f < |files| && data < EXTENT_N && InPlace(files[f], used[f], off, data, start)
      ensures st == Done || st == Stray
      ensures st == Done ==> |places| == want && Picked(FileView(f), places, dst)
      ensures st == Done && InOrder(places, off) <==> Walkable(files[f], used[f], off, want)
      ensures Even(files[f], used[f]) && st == Done ==> InOrder(places, off)
    {
      hide Even, EvenWalk;
      hide StoreOk, View, Walking, Walkable, BytesOf, OnDisk, DiskOk, Base, InOrder, Picked;
      StoreFacts(disk, files, used, bitmap[..], top, f);
      var ip := files[f];
      ghost var all, u := FileView(f), used[f];
      dst, places := [], [];
      NothingPicked(all);
      var data, size, tot, o := data, start, 0, off;
      Started(ip, u, off, want, data, size);
      EvenStarted(ip, u, off, want, data, size);
      while tot < want
        invariant 0 <= tot <= want && o == off + tot && 0 <= data < EXTENT_N && 0 <= size <= o
        invariant Picked(all, places, dst) && |places| == tot
        invariant Walking(ip, u, off, want, data, size, o, places)
        invariant Even(ip, u) ==> EvenWalk(ip, u, off, want, data, size, o)
        decreases want - tot, EXTENT_N - data
      {
        if size < ip.ext[data].nblocks * BSIZE {
          var blk := ip.ext[data].start + size / BSIZE;
          var m := Min(want - tot, BSIZE - size % BSIZE);
          ghost var x := Base(ip, data) + size;
          Moved(ip, u, off, want, data, size, o, places, m);
          if Even(ip, u) { EvenMoved(ip, u, off, want, data, size, o, m); }
          BlockPart(disk, ip, u, x, size, data, m);
          PickedMore(all, places, dst, x, m);
          dst := dst + BytesOf(disk[blk])[size % BSIZE..size % BSIZE + m];
          places := places + Range(x, m);
          tot, o, size := tot + m, o + m, size + m;
        } else {
          Jumped(ip, u, off, want, data, size, o, places);
          SizeInRange(ip, u, off, want, data, size, o, places);
          if Even(ip, u) { EvenJumped(ip, u, off, want, data, size, o); }
          data, size := data + 1, o - size;
          if data == EXTENT_N {
            Ended(ip, u, off, want, data, size, o, places);
            return dst, Stray, places;
          }
        }
      }
      Ended(ip, u, off, want, data, size, o, places);
      if Even(ip, u) { EvenEnded(ip, u, off, want, data, size, o, places); }
      st := Done;
    }

    // The first loop of readi and writei: the extent of byte off.
    method FindExtent(ip: Inode, ghost u: nat, off: nat) returns (data: nat, base: nat)
      requires Shaped(ip, u)
      ensures data <= EXTENT_N && (data == EXTENT_N <==> off > Base(ip, u))
      ensures data < EXTENT_N ==> base <= off && InPlace(ip, u, off, data, off - base)
    {
      data, base := 0, 0;
      while data < EXTENT_N && base + ip.ext[data].nblocks * BSIZE < off
        invariant 0 <= data <= EXTENT_N && base == Base(ip, data) <= off && (data > 0 ==> base < off)
        decreases EXTENT_N - data
      {
        base := base + ip.ext[data].nblocks * BSIZE;
        data := data + 1;
      }
      PlaceFound(ip, u, off, data);
    }

    // fileread: readi at the open file's offset, which moves by what was read.
    method Fileread(f: nat, offset: nat, n: nat)
      returns (res: int, dst: seq<byte>, next: nat, st: Fate, ghost places: seq<nat>)
      requires Valid() && f < |files|
      ensures res == -1 <==> offset > files[f].size || offset + n >= MAX_UINT
      ensures res == -1 ==> next == offset && st == Done && dst == [] && places == []
      ensures res != -1 ==>
        var ip, want := files[f], Min(n, files[f].size - offset);
        && (st == Done || st == Stray) && res == want && next == offset + want
        && (st == Done ==> |places| == want && Picked(FileView(f), places, dst))
        && (st == Done && InOrder(places, offset) <==>
              offset <= Base(ip, used[f]) && Walkable(ip, used[f], offset, want))
        && (st == Done && InOrder(places, offset) ==> dst == FileBytes(f)[offset..next])
        && (Even(ip, used[f]) && st == Done ==> InOrder(places, offset))
    {
      res, dst, st, places := Readi(f, offset, n);
      next := if res >= 0 then offset + res else offset;
    }

    // Reading n bytes at a time, until a read returns none, gives the whole file exactly
    // when it lies in the first two extents; no choice of n gets past them.
    method ReadAll(f: nat, n: nat) returns (all: seq<byte>, st: Fate, ghost places: seq<nat>)
      requires Valid() && f < |files| && 0 < n < MAX_UINT - files[f].size
      ensures st == Done ==> |places| == files[f].size && Picked(FileView(f), places, all)
      ensures st == Done && InOrder(places, 0) <==> files[f].size <= Base(files[f], Min(2, used[f]))
      ensures st == Done && InOrder(places, 0) ==> all == FileBytes(f)
      ensures files[f].size <= Base(files[f], Min(2, used[f])) ==> st == Done && all == FileBytes(f)
      ensures Even(files[f], used[f]) ==> (st == Done <==> files[f].size <= Base(files[f], Min(2, used[f])))
    {
      hide StoreOk, View, Walkable, Base, InOrder, Picked, Contents, Even;
      StoreFacts(disk, files, used, bitmap[..], top, f);
      ghost var size, two := files[f].size, Base(files[f], Min(2, used[f]));
      BaseGrows(files[f], Min(2, used[f]), used[f]);
      all, st, places := [], Done, [];
      NothingPicked(FileView(f));
      var offset, res := 0, 1;
      while res > 0
        invariant 0 <= offset == |places| <= size && Picked(FileView(f), places, all)
        invariant InOrder(places, 0) <==> offset <= two
        invariant Even(files[f], used[f]) ==> InOrder(places, 0)
        invariant res >= 0 && (res == 0 ==> offset == size) && st == Done
        decreases size - offset, res
      {
        var dst;
        ghost var qs;
        var before := offset;
        res, dst, offset, st, qs := Fileread(f, before, n);
        if before <= two { PastTwo(files[f], used[f], before, Min(n, size - before)); }
        if st != Done {
          return;
        }
        PickedBoth(FileView(f), places, all, qs, dst);
        InOrderBoth(places, 0, qs);
        all, places := all + dst, places + qs;
      }
      if InOrder(places, 0) {
        ContentsPart(disk, files[f], used[f], 0, size);
        PickedInOrder(FileView(f), places, all, 0);
        WholeSlice(FileBytes(f));
      }
    }

    // Part of one block of file f, at byte k of the file.
    method PutBlock(f: nat, blk: nat, o: nat, src: seq<byte>, ghost k: nat, ghost d0: Disk)
      requires Valid() && f < |files| && src != [] && k + |src| <= Base(files[f], used[f]) && k % BSIZE + |src| <= BSIZE
      requires blk == Blk(files[f], used[f], k) && o == k % BSIZE
      requires Logged(d0, disk, trace, spots, files[f], used[f])
      modifies this`disk, this`trace, this`spots
      ensures Valid() && FileView(f) == Splice(old(FileView(f)), k, src)
      ensures Logged(d0, disk, trace, spots, files[f], used[f])
      ensures OthersSame(old(disk), disk, files, used, f) && Elsewhere(old(disk), disk, files[f], used[f])
      ensures |trace| == |old(trace)| + 1 && spots == old(spots) + [k]
    {
      hide StoreOk, DiskOk, OnDisk, View, Splice, Stored, Elsewhere, Logged, Blk, Base, InFile;
      StoreFacts(disk, files, used, bitmap[..], top, f);
      PatchElsewhere(disk, files[f], used[f], k, src);
      AllPatched(disk, files, used, bitmap[..], top, f, k, src);
      LogMore(d0, disk, trace, spots, files[f], used[f], k, o, src);
      disk := Stored(disk, blk, o, src);
      trace, spots := trace + [Write(blk, disk[blk])], spots + [k];
    }

    // writei's loop over the blocks the file already has
    method Overwrite(f: nat, off: nat, src: seq<byte>, ghost d0: Disk) returns (st: Fate, ghost places: seq<nat>)
      requires Valid() && f < |files| && (off <= Base(files[f], used[f]) ==> off + |src| <= Base(files[f], used[f]))
      requires Logged(d0, disk, trace, spots, files[f], used[f]) && trace == []
      modifies this`disk, this`trace, this`spots
      ensures Valid() && OthersSame(old(disk), disk, files, used, f) && Elsewhere(old(disk), disk, files[f], used[f])
      ensures Logged(d0, disk, trace, spots, files[f], used[f]) && (st == Done || st == Stray)
      ensures |used| == |files| && forall g :: 0 <= g < |files| && g != f ==> FileView(g) == old(FileView(g))
      ensures st == Done ==> off <= |old(FileView(f))| && Written(old(FileView(f)), FileView(f), places, src)
      ensures st == Done && InOrder(places, off) <==>
        off <= Base(files[f], used[f]) && Walkable(files[f], used[f], off, |src|)
      ensures Even(files[f], used[f]) && st == Done ==> InOrder(places, off)
      ensures st == Done && InOrder(places, off) ==>
        |trace| == Touched(off, |src|) && Rising(spots, BlocksFor(off + |src|))
    {
      hide Even;
      hide StoreOk, DiskOk, OnDisk, View, OthersSame, Walkable, Elsewhere, Logged, Base, InOrder, Written, Rising;
      StoreFacts(disk, files, used, bitmap[..], top, f);
      StoreFrame(disk, files, used, bitmap[..], top);
      var data, base := FindExtent(files[f], used[f], off);
      if data == EXTENT_N {
        ElsewhereStart(disk, files[f], used[f]);
        OthersStart(disk, files, used, f);
        return Stray, [];
      }
      st, places := OverwriteFrom(f, off, src, data, off - base, d0);
      StoreFrame(disk, files, used, bitmap[..], top);
      OthersAre(old(disk), disk, files, used, f);
    }

    // ... from extent `data` at offset `start` in it
    method OverwriteFrom(f: nat, off: nat, src: seq<byte>, data: nat, start: nat, ghost d0: Disk)
      returns (st: Fate, ghost places: seq<nat>)
      requires Valid() && f < |files| && off + |src| <= Base(files[f], used[f])
      requires data < EXTENT_N && InPlace(files[f], used[f], off, data, start)
      requires Logged(d0, disk, trace, spots, files[f], used[f]) && trace == []
      modifies this`disk, this`trace, this`spots
      ensures Valid() && OthersSame(old(disk), disk, files, used, f) && Elsewhere(old(disk), disk, files[f], used[f])
      ensures Logged(d0, disk, trace, spots, files[f], used[f]) && (st == Done || st == Stray)
      ensures st == Done ==> Written(old(FileView(f)), FileView(f), places, src)
      ensures st == Done && InOrder(places, off) <==> Walkable(files[f], used[f], off, |src|)
      ensures Even(files[f], used[f]) && st == Done ==> InOrder(places, off)
      ensures st == Done && InOrder(places, off) ==>
        |trace| == Touched(off, |src|) && Rising(spots, BlocksFor(off + |src|))
    {
      hide StoreOk, DiskOk, OnDisk, View, OthersSame, Walking, Walkable, Elsewhere, Logged, Base, InOrder, Written;
      hide Tally;
      hide Rising, Touched, Even, EvenWalk;
      StoreFacts(disk, files, used, bitmap[..], top, f);
      var ip := files[f];
      ghost var v0, u := FileView(f), used[f];
      NothingYet(disk, files, used, f, v0, off, |src|, trace, spots, d0);
      var data, size, tot, o := data, start, 0, off;
      places := [];
      Started(ip, u, off, |src|, data, size);
      EvenStarted(ip, u, off, |src|, data, size);
      assert src[..0] == [];
      while tot < |src|
        invariant 0 <= tot <= |src| && o == off + tot && 0 <= data < EXTENT_N && 0 <= size <= o && Valid()
        invariant |places| == tot && Written(v0, FileView(f), places, src[..tot])
        invariant Logged(d0, disk, trace, spots, ip, u) && Walking(ip, u, off, |src|, data, size, o, places)
        invariant Even(ip, u) ==> EvenWalk(ip, u, off, |src|, data, size, o)
        invariant OthersSame(old(disk), disk, files, used, f) && DiskOk(disk) && Elsewhere(old(disk), disk, ip, u)
        invariant InOrder(places, off) ==> Tally(off, tot, |src|, |trace|, spots)
        decreases |src| - tot, EXTENT_N - data
      {
        if size < ip.ext[data].nblocks * BSIZE {
          var m := Min(|src| - tot, BSIZE - size % BSIZE);
          Moved(ip, u, off, |src|, data, size, o, places, m);
          if Even(ip, u) { EvenMoved(ip, u, off, |src|, data, size, o, m); }
          ghost var x := Base(ip, data) + size;
          ghost var qs := places + Range(x, m);
          OverwritePart(f, off, src, tot, m, data, size, places, d0, v0, old(disk));
          if InOrder(qs, off) { TallyOn(ip, data, off, tot, |src|, |trace| - 1, spots[..|spots| - 1], m, size); }
          places := qs;
          tot, o, size := tot + m, o + m, size + m;
        } else {
          Jumped(ip, u, off, |src|, data, size, o, places);
          SizeInRange(ip, u, off, |src|, data, size, o, places);
          if Even(ip, u) { EvenJumped(ip, u, off, |src|, data, size, o); }
          data, size := data + 1, o - size;
          if data == EXTENT_N {
            Ended(ip, u, off, |src|, data, size, o, places);
            return Stray, places;
          }
        }
      }
      assert src[..tot] == src;
      Ended(ip, u, off, |src|, data, size, o, places);
      if Even(ip, u) { EvenEnded(ip, u, off, |src|, data, size, o, places); }
      TallyEnd(off, |src|, |trace|, spots);
      st := Done;
    }

    // One round of it, at the place where the walk stands.
    method OverwritePart(f: nat, off: nat, src: seq<byte>, tot: nat, m: nat, data: nat, size: nat,
                         ghost places: seq<nat>, ghost d0: Disk, ghost v0: seq<byte>, ghost first: Disk)
      requires Valid() && f < |files| && f < |used| && tot < |src| && m == Min(|src| - tot, BSIZE - size % BSIZE)
      requires data < used[f] <= |files[f].ext|
      requires InStep(files[f], used[f], Base(files[f], data) + size, data, size)
      requires Base(files[f], data) + size + m <= Base(files[f], used[f])
      requires |v0| == |FileView(f)| && |places| == tot && Written(v0, FileView(f), places, src[..tot])
      requires Logged(d0, disk, trace, spots, files[f], used[f])
      requires DiskOk(first) && OthersSame(first, disk, files, used, f) && Elsewhere(first, disk, files[f], used[f])
      modifies this`disk, this`trace, this`spots
      ensures Valid() && DiskOk(disk) && Logged(d0, disk, trace, spots, files[f], used[f])
      ensures Written(v0, FileView(f), places + Range(Base(files[f], data) + size, m), src[..tot + m])
      ensures |trace| == |old(trace)| + 1 && spots == old(spots) + [Base(files[f], data) + size]
      ensures OthersSame(first, disk, files, used, f) && Elsewhere(first, disk, files[f], used[f])
    {
      hide StoreOk, DiskOk, OnDisk, View, OthersSame, Splice, Elsewhere, Logged, Base, Blk, Written;
      StoreFacts(disk, files, used, bitmap[..], top, f);
      ghost var x := Base(files[f], data) + size;
      BlkAt(files[f], used[f], x, size, data);
      ghost var before := disk;
      ghost var v1 := FileView(f);
      PutBlock(f, files[f].ext[data].start + size / BSIZE, size % BSIZE, src[tot..tot + m], x, d0);
      WrittenMore(v0, v1, FileView(f), places, src, tot, x, m);
      StoreFacts(disk, files, used, bitmap[..], top, f);
      SameAgain(first, before, disk, files, used, f);
      ElsewhereAgain(first, before, disk, files[f], used[f]);
    }

    // One round of appendi: a new extent for f, with part of a block of src in it.
    method GrowOne(f: nat, data: nat, size: nat, chunk: seq<byte>, ghost base: Disk) returns (st: Fate)
      requires Valid() && f < |files| && data == used[f] < EXTENT_N
      requires size % BSIZE == 0 && size < EXTENT_BYTES && 0 < |chunk| <= BSIZE
      requires Logged(base, disk, trace, spots, files[f], used[f])
      modifies this`disk, this`trace, this`spots, this`files, this`used, bitmap
      ensures st == Done || st == Full || st == Clash
      ensures st == Done <==> old(FreeExtent(files, used, bitmap[..], top))
      ensures st == Done ==>
        && |files| == |old(files)| == |used|
        && TookFirst(old(files), old(used), old(bitmap[..]), files, used, bitmap[..], top, f)
        && Logged(base, disk, trace, spots, files[f], used[f]) && |trace| == |old(trace)| + 1
        && spots == old(spots) + [|old(FileView(f))| + size]
        && Valid() && Extended(old(FileView(f)), FileView(f), size, chunk, NextRaw(old(disk), old(bitmap[..]), top))
        && forall g :: 0 <= g < |files| && g != f ==> FileView(g) == old(FileView(g))
      ensures st == Full ==> f < |files| && Extent(0, EXTENT_BLOCKS) in files[f].ext
      ensures st == Clash ==> !AllApart(files, used)
    {
      hide StoreOk, DiskOk, AllApart, View, OthersSame, TakenBy, FirstFree, OnDisk, RoomOnDisk, SlotStart, Logged, Base;
      ghost var d0, f0, u0, bm := disk, files, used, bitmap[..];
      ghost var x := FirstFree(bm, 0);
      FreeIs(bm);
      StoreFacts(disk, files, used, bm, top, f);
      StoreFrame(disk, files, used, bm, top);
      var start := Getstartblkno();
      var taken := TakenBy(files, used, start);
      files := files[f := files[f].(ext := files[f].ext[data := Extent(start, EXTENT_BLOCKS)])];
      used := used[f := data + 1];
      if start == 0 {
        assert files[f].ext[data] == Extent(0, EXTENT_BLOCKS);
        return Full;
      }
      if taken {
        ClashIs(d0, f0, u0, bm, top, f, start);
        return Clash;
      }
      NewExtent(d0, f0, u0, bm, top, f, x);
      ghost var mid := FileView(f);
      SamePrefix(f0[f], files[f], data);
      LogWider(base, disk, trace, spots, f0[f], data, files[f], used[f]);
      Place(f, data, size, chunk, base);
      StoreFrame(disk, files, used, bitmap[..], top);
      GrowthViews(d0, disk, f0, u0, files, used, f);
      ExtendedIs(View(d0, f0[f], u0[f]), mid, FileView(f), size, chunk, NextRaw(d0, bm, top));
      return Done;
    }

    // The write of one round of appendi, into the file's last extent.
    method Place(f: nat, data: nat, size: nat, chunk: seq<byte>, ghost base: Disk)
      requires Valid() && f < |files| && used[f] == data + 1 && files[f].ext[data].nblocks == EXTENT_BLOCKS
      requires size % BSIZE == 0 && size < EXTENT_BYTES && 0 < |chunk| <= BSIZE
      requires Logged(base, disk, trace, spots, files[f], used[f])
      modifies this`disk, this`trace, this`spots
      ensures Valid() && OthersSame(old(disk), disk, files, used, f)
      ensures Logged(base, disk, trace, spots, files[f], used[f])
      ensures Base(files[f], data) + size + |chunk| <= |old(FileView(f))| && |trace| == |old(trace)| + 1
      ensures spots == old(spots) + [Base(files[f], data) + size]
      ensures FileView(f) == Splice(old(FileView(f)), Base(files[f], data) + size, chunk)
    {
      hide StoreOk, View, OthersSame, Splice, Blk, Logged, Base, OnDisk, DiskOk;
      StoreFacts(disk, files, used, bitmap[..], top, f);
      ghost var k := Base(files[f], data) + size;
      InLast(files[f], data, size, |chunk|);
      BlkAt(files[f], used[f], k, size, data);
      PutBlock(f, files[f].ext[data].start + size / BSIZE, size % BSIZE, chunk, k, base);
    }

    // appendi: every block of src goes to a new extent of its own, block i of src to
    // block i of its extent.
    method Appendi(f: nat, src: seq<byte>, ghost base: Disk) returns (st: Fate)
      requires Valid() && f < |files| && src != [] && Logged(base, disk, trace, spots, files[f], used[f])
      modifies this`disk, this`trace, this`spots, this`files, this`used, bitmap
      ensures st == Done || st == Stray || st == Full || st == Clash
      ensures st == Done <==> old(CanGrow(files, used, bitmap[..], top, f, BlocksFor(|src|)))
      ensures st == Done ==>
        && Valid() && |files| == |old(files)| == |used|
        && Logged(base, disk, trace, spots, files[f], used[f]) && |trace| == |old(trace)| + BlocksFor(|src|)
        && |FileView(f)| == |old(FileView(f))| + BlocksFor(|src|) * EXTENT_BYTES
        && OnlyGrew(old(files), old(used), files, used, f, DataLow(top, |bitmap[..]|))
        && used[f] == old(used[f]) + BlocksFor(|src|)
        && FileView(f)[..|old(FileView(f))|] == old(FileView(f)) && Spread(FileView(f), |old(FileView(f))|, src)
        && RestRaw(FileView(f), |old(FileView(f))|, |src|, NextRaw(old(disk), old(bitmap[..]), top))
        && |FreeSet(bitmap[..])| + used[f] == |FreeSet(old(bitmap[..]))| + old(used[f])
        && bitmap[..] == Marked(old(bitmap[..]), BlocksFor(|src|))
        && forall g :: 0 <= g < |files| && g != f ==> FileView(g) == old(FileView(g))
      ensures st == Done && Rising(old(spots), |old(FileView(f))| / BSIZE) ==> Rising(spots, |FileView(f)| / BSIZE)
      ensures st == Full ==> f < |files| && Extent(0, EXTENT_BLOCKS) in files[f].ext
      ensures st == Clash ==> !AllApart(files, used)
    {
      hide StoreOk, View, OnlyGrew, CanGrow, Spread, TookFirst, FreeExtent, Extended, AllApart, RestRaw, NextRaw;
      hide FreeSet;
      hide Logged, Base, DataLow, RoomOnDisk, OnDisk, DiskOk, Rising, Marked;
      hide SlotStart, FirstFree, TakenBy, Grown, Blk, InFile, Contents, AllOwned;
      StoreFacts(disk, files, used, bitmap[..], top, f);
      ghost var f0, u0, c, v0 := files, used, BlocksFor(|src|), FileView(f);
      ghost var raw0 := NextRaw(disk, bitmap[..], top);
      var data := FirstEmpty(files[f], used[f]);
      GrewNone(files, used, f, DataLow(top, |bitmap[..]|), FileView(f), src);
      MarkedNone(bitmap[..]);
      var tot, size := 0, 0;
      while tot < |src|
        invariant 0 <= tot <= |src| && size == tot && |files| == |f0| == |u0| == |used| && Valid()
        invariant u0[f] <= data == used[f] <= EXTENT_N && tot == Min(|src|, (data - u0[f]) * BSIZE) && data - u0[f] <= c
        invariant Logged(base, disk, trace, spots, files[f], used[f]) && |trace| == |old(trace)| + (data - u0[f])
        invariant OnlyGrew(f0, u0, files, used, f, DataLow(top, |bitmap[..]|))
        invariant bitmap[..] == Marked(old(bitmap[..]), data - u0[f])
        invariant |FileView(f)| == |v0| + (data - u0[f]) * EXTENT_BYTES
        invariant FileView(f)[..|v0|] == v0 && Spread(FileView(f), |v0|, src[..tot])
        invariant tot > 0 ==> RestRaw(FileView(f), |v0|, |src|, raw0)
        invariant tot == 0 ==> NextRaw(disk, bitmap[..], top) == raw0 && |FileView(f)| == |v0|
        invariant Rising(old(spots), |v0| / BSIZE) ==> Rising(spots, |FileView(f)| / BSIZE)
        invariant forall g :: 0 <= g < |files| && g != f ==> FileView(g) == old(FileView(g))
        invariant CanGrow(files, used, bitmap[..], top, f, c - (data - u0[f])) <==>
          old(CanGrow(files, used, bitmap[..], top, f, c))
        decreases |src| - tot
      {
        ghost var f1, u1, b1, v1 := files, used, bitmap[..], FileView(f);
        StoreFrame(disk, files, used, bitmap[..], top);
        assert c - (data - u0[f]) > 0;
        GrowStep(files, used, bitmap[..], top, f, c - (data - u0[f]));
        if data == EXTENT_N {
          return Stray;
        }
        var m := Min(|src| - tot, BSIZE - size % BSIZE);
        ghost var raw := NextRaw(disk, bitmap[..], top);
        st := GrowOne(f, data, size, src[tot..tot + m], base);
        if st != Done {
          return;
        }
        if Rising(old(spots), |v0| / BSIZE) { RisesTo(spots[..|spots| - 1], |v1|, size); }
        RoundDone(f0, u0, f1, u1, b1, files, used, bitmap[..], top, f, c, v0, v1, FileView(f), src, tot, m, raw, raw0);
        MarkedRound(old(bitmap[..]), data - u0[f], f1, u1, files, used, bitmap[..], top, f);
        tot, size, data := tot + m, size + m, data + 1;
      }
      GrowStep(files, used, bitmap[..], top, f, 0);
      GrowFree(f0, u0, old(bitmap[..]), top, f, c);
      assert src[..tot] == src;
      st := Done;
    }

    // ... as writei calls it: not at all for nothing.
    method Rest(f: nat, src: seq<byte>, ghost base: Disk) returns (st: Fate)
      requires Valid() && f < |files| && Logged(base, disk, trace, spots, files[f], used[f])
      modifies this`disk, this`trace, this`spots, this`files, this`used, bitmap
      ensures st != NoBuffers && st != LogOver
      ensures st == Done <==> old(CanGrow(files, used, bitmap[..], top, f, BlocksFor(|src|)))
      ensures st == Done ==>
        && Valid() && |files| == |old(files)| == |used|
        && Logged(base, disk, trace, spots, files[f], used[f]) && |trace| == |old(trace)| + BlocksFor(|src|)
        && |FileView(f)| == |old(FileView(f))| + BlocksFor(|src|) * EXTENT_BYTES
        && OnlyGrew(old(files), old(used), files, used, f, DataLow(top, |bitmap[..]|))
        && used[f] == old(used[f]) + BlocksFor(|src|)
        && FileView(f)[..|old(FileView(f))|] == old(FileView(f)) && Spread(FileView(f), |old(FileView(f))|, src)
        && (src != [] ==> RestRaw(FileView(f), |old(FileView(f))|, |src|, NextRaw(old(disk), old(bitmap[..]), top)))
        && |FreeSet(bitmap[..])| + used[f] == |FreeSet(old(bitmap[..]))| + old(used[f])
        && bitmap[..] == Marked(old(bitmap[..]), BlocksFor(|src|))
        && forall g :: 0 <= g < |files| && g != f ==> FileView(g) == old(FileView(g))
      ensures st == Done && Rising(old(spots), |old(FileView(f))| / BSIZE) ==> Rising(spots, |FileView(f)| / BSIZE)
    {
      hide StoreOk, View, OnlyGrew, CanGrow, Spread, RestRaw, NextRaw, FreeSet, Logged, DataLow, Rising, Marked, Base;
      if src == [] {
        StoreFacts(disk, files, used, bitmap[..], top, f);
        MarkedNone(bitmap[..]);
        GrewNone(files, used, f, DataLow(top, |bitmap[..]|), FileView(f), src);
        GrowStep(files, used, bitmap[..], top, f, 0);
        st := Done;
      } else {
        st := Appendi(f, src, base);
      }
    }

    // appendi's first loop
    method FirstEmpty(ip: Inode, ghost u: nat) returns (data: nat)
      requires Shaped(ip, u)
      ensures data == u
    {
      data := 0;
      while data < EXTENT_N && ip.ext[data].nblocks != 0
        invariant 0 <= data <= u
      {
        data := data + 1;
      }
    }

    // getCapacity
    method Capacity(ip: Inode, ghost u: nat) returns (c: nat)
      requires Shaped(ip, u)
      ensures c == Base(ip, u)
    {
      c := 0;
      for i := 0 to EXTENT_N
        invariant c == Base(ip, i)
      {
        c := c + ip.ext[i].nblocks * BSIZE;
      }
      BaseFlat(ip, u, EXTENT_N);
    }

    // writei, one transaction.  It completes, with the bytes within the capacity in place,
    // exactly when that part is walkable, the file can grow for the rest and the blocks
    // fit in the cache and in the log.  A panic leaves the disk as it was.
    method Writei(f: nat, off: nat, src: seq<byte>) returns (res: int, st: Fate, ghost places: seq<nat>)
      requires Valid() && f < |files|
      modifies this`disk, this`trace, this`spots, this`files, this`used, bitmap
      ensures res == -1 <==> off + |src| >= MAX_UINT
      ensures res == -1 ==> st == Done && disk == old(disk) && files == old(files) && used == old(used)
      ensures res == -1 ==> bitmap[..] == old(bitmap[..])
      ensures res != -1 ==>
        (st == Done && InOrder(places, off) <==> old(Completes(files, used, bitmap[..], top, nbuf, f, off, |src|)))
      ensures res != -1 && old(Even(files[f], used[f])) && st == Done ==> InOrder(places, off)
      ensures st == NoBuffers ==> disk == old(disk)
      ensures st == NoBuffers ==> |BlocksOf(trace)| >= nbuf
      ensures res != -1 && st == Done ==>
        var v := old(FileView(f));
        && Valid() && res == |src| && |files| == |old(files)| == |used| && off <= |v|
        && Logged(old(disk), disk, trace, spots, files[f], used[f])
        && |trace| <= CrashLog.MAX_ENTRIES && |BlocksOf(trace)| < nbuf
        && OnlyGrew(old(files), old(used), files, used, f, DataLow(top, |bitmap[..]|))
        && Placed(v, FileView(f), places, src, Within(off, |src|, |v|))
        && (off + |src| > |v| ==>
              RestRaw(FileView(f), |v|, off + |src| - |v|, NextRaw(old(disk), old(bitmap[..]), top)))
        && |FileView(f)| == |v| + BlocksFor(|src| - Within(off, |src|, |v|)) * EXTENT_BYTES
        && used[f] == old(used[f]) + BlocksFor(|src| - Within(off, |src|, |v|))
        && |FreeSet(bitmap[..])| + used[f] == |FreeSet(old(bitmap[..]))| + old(used[f])
        && bitmap[..] == Marked(old(bitmap[..]), used[f] - old(used[f]))
        && forall g :: 0 <= g < |files| && g != f ==> FileView(g) == old(FileView(g))
    {
      hide StoreOk, DiskOk, OnDisk, View, OthersSame, OnlyGrew, CanGrow, Spread, Walkable, Elsewhere, NextRaw, InOrder;
      hide RestRaw, FreeSet, Marked, Placed, Logged, Base, Written, Rising, BlocksOf, Touched, Even;
      places := [];
      if off + |src| >= MAX_UINT {
        return -1, Done, [];
      }
      var start := disk;
      st, places := Fill(f, off, src);
      if st == Done {
        // log_commit_tx
        if |BlocksOf(trace)| >= nbuf {
          disk, st := start, NoBuffers;
        } else if |trace| > CrashLog.MAX_ENTRIES {
          st := LogOver;
        }
      }
      res := |src|;
    }

    // writei up to the commit: what is in the log cache when it comes.
    method Fill(f: nat, off: nat, src: seq<byte>) returns (st: Fate, ghost places: seq<nat>)
      requires Valid() && f < |files| && off + |src| < MAX_UINT
      modifies this`disk, this`trace, this`spots, this`files, this`used, bitmap
      ensures st != NoBuffers && st != LogOver
      ensures st == Done && InOrder(places, off) <==>
        var ip, u := old(files[f]), old(used[f]);
        && u <= |ip.ext| && off <= Base(ip, u) && Walkable(ip, u, off, Within(off, |src|, Base(ip, u)))
        && old(CanGrow(files, used, bitmap[..], top, f, BlocksFor(|src| - Within(off, |src|, Base(files[f], used[f])))))
      ensures old(Even(files[f], used[f])) && st == Done ==> InOrder(places, off)
      ensures st == Done && InOrder(places, off) ==>
        var m := Within(off, |src|, |old(FileView(f))|);
        |BlocksOf(trace)| == |trace| == Touched(off, m) + BlocksFor(|src| - m)
      ensures st == Done ==>
        var v := old(FileView(f));
        && Valid() && |files| == |old(files)| == |used| && off <= |v|
        && Logged(old(disk), disk, trace, spots, files[f], used[f])
        && OnlyGrew(old(files), old(used), files, used, f, DataLow(top, |bitmap[..]|))
        && Placed(v, FileView(f), places, src, Within(off, |src|, |v|))
        && (off + |src| > |v| ==>
              RestRaw(FileView(f), |v|, off + |src| - |v|, NextRaw(old(disk), old(bitmap[..]), top)))
        && |FileView(f)| == |v| + BlocksFor(|src| - Within(off, |src|, |v|)) * EXTENT_BYTES
        && used[f] == old(used[f]) + BlocksFor(|src| - Within(off, |src|, |v|))
        && |FreeSet(bitmap[..])| + used[f] == |FreeSet(old(bitmap[..]))| + old(used[f])
        && bitmap[..] == Marked(old(bitmap[..]), used[f] - old(used[f]))
        && forall g :: 0 <= g < |files| && g != f ==> FileView(g) == old(FileView(g))
    {
      hide StoreOk, DiskOk, OnDisk, View, OthersSame, OnlyGrew, CanGrow, Spread, Walkable, Elsewhere, NextRaw, InOrder;
      hide RestRaw, FreeSet, Placed, Logged, Base, Written, Rising, BlocksOf, Touched;
      hide Even, BlocksFor, Completes;
      hide Marked, FreeExtent, DataLow, RoomOnDisk, FirstFree, TakenBy, Contents, Blk, InFile;
      StoreFacts(disk, files, used, bitmap[..], top, f);
      var ip := files[f];
      var capacity := Capacity(ip, used[f]);
      var append, n := 0, |src|;
      if off + n > capacity {
        append := off + n - capacity;
        n := capacity - off;
      }
      ghost var v0, d0, bm := FileView(f), disk, bitmap[..];
      trace, spots := [], [];
      LogStart(d0, ip, used[f]);
      // with off past the capacity n wraps round, and the walk strays before it is used
      st, places := Overwrite(f, off, if off <= capacity then src[..n] else [], d0);
      if st != Done {
        return;
      }
      ghost var v1 := FileView(f);
      StoreFacts(disk, files, used, bm, top, f);
      WrittenLength(v0, v1, places, src[..n]);
      if InOrder(places, off) { RisingWider(spots, off + n, |v1|); }
      SomeBlocks(append);
      GrowStep(files, used, bm, top, f, BlocksFor(append));
      if FreeExtent(files, used, bm, top) { SameRaw(d0, disk, files, used, bm, top, f); }
      st := Rest(f, src[n..], d0);
      if st == Done {
        PlacedIs(v0, v1, FileView(f), places, src, n);
        if InOrder(places, off) {
          DistinctBlocks(d0, disk, files, used, bitmap[..], top, f, trace, spots, |FileView(f)| / BSIZE);
        }
      }
    }

    // filewrite at the open file's offset: the size always grows by what was written, so
    // it is right exactly for a write at the end.
    method Filewrite(f: nat, offset: nat, src: seq<byte>) returns (res: int, next: nat, st: Fate,
                     ghost places: seq<nat>)
      requires Valid() && f < |files|
      modifies this`disk, this`trace, this`spots, this`files, this`used, bitmap
      ensures res == -1 <==> offset + |src| >= MAX_UINT
      ensures res == -1 ==>
        st == Done && next == offset && disk == old(disk) && files == old(files) && used == old(used)
      ensures res != -1 ==>
        (st == Done && InOrder(places, offset) <==>
           old(Completes(files, used, bitmap[..], top, nbuf, f, offset, |src|)))
      ensures res != -1 && old(Even(files[f], used[f])) && st == Done ==> InOrder(places, offset)
      ensures st == NoBuffers ==> disk == old(disk)
      ensures res != -1 && st == Done ==>
        var v := old(FileView(f));
        && Valid() && res == |src| && next == offset + |src| && offset <= |v|
        && |files| == |old(files)| == |used| == |old(used)|
        && Logged(old(disk), disk, trace, spots, files[f], used[f])
        && |trace| <= CrashLog.MAX_ENTRIES && |BlocksOf(trace)| < nbuf
        && OnlyGrew(old(files), old(used), SetSize(files, f, old(files[f].size)), used, f, DataLow(top, |bitmap[..]|))
        && Placed(v, FileView(f), places, src, Within(offset, |src|, |v|))
        && |FileView(f)| == |v| + BlocksFor(|src| - Within(offset, |src|, |v|)) * EXTENT_BYTES
        && used[f] == old(used[f]) + BlocksFor(|src| - Within(offset, |src|, |v|))
        && files[f].size == old(files[f]).size + |src|
        && |FreeSet(bitmap[..])| + used[f] == |FreeSet(old(bitmap[..]))| + old(used[f])
        && bitmap[..] == Marked(old(bitmap[..]), used[f] - old(used[f]))
        && (forall g :: 0 <= g < |files| && g != f ==>
              files[g].size == old(files[g]).size && FileView(g) == old(FileView(g)))
      ensures res != -1 && st == Done && offset <= old(files[f]).size ==>
        (files[f].size == Max(old(files[f]).size, offset + |src|) <==> offset == old(files[f]).size || src == [])
    {
      hide Even;
      hide StoreOk, View, Placed, CanGrow, Completes, FreeSet, Marked, Logged, Base, BlocksOf, InOrder;
      StoreFacts(disk, files, used, bitmap[..], top, f);
      res, st, places := Writei(f, offset, src);
      next := offset;
      if res >= 0 && st == Done {
        next := offset + res;
        SizeGrows(disk, files, used, bitmap[..], top, f, files[f].size + res);
        ghost var grown := files;
        StoreFacts(disk, files, used, bitmap[..], top, f);
        LogWider(old(disk), disk, trace, spots, files[f], used[f], files[f].(size := files[f].size + res), used[f]);
        files := files[f := files[f].(size := files[f].size + res)];
        assert SetSize(files, f, grown[f].size) == grown;
      }
    }

    // Back-to-back writes at the end of a file, up to the first that is not one that
    // appends: the file holds them one after another, and every other file what it held.
    method WriteAll(f: nat, chunks: seq<seq<byte>>) returns (n: nat)
      requires Valid() && f < |files|
      modifies this`disk, this`trace, this`spots, this`files, this`used, bitmap
      ensures n <= |chunks| && Valid() && |files| == |old(files)|
      ensures FileBytes(f) == old(FileBytes(f)) + Flatten(chunks[..n])
      ensures forall g :: 0 <= g < |files| && g != f ==> FileBytes(g) == old(FileBytes(g))
      ensures n < |chunks| ==> |used| == |files| && !Appends(files, used, bitmap[..], top, nbuf, f, |chunks[n]|)
      ensures |old(used)| == |old(files)|
      ensures OnlyGrew(old(files), old(used), SetSize(files, f, old(files[f].size)),
                       used, f, DataLow(top, |bitmap[..]|))
      ensures files[f].size == old(files[f].size) + |Flatten(chunks[..n])|
      ensures old(Fits(files, used, bitmap[..], nbuf, f, |Flatten(chunks)|)) && Small(chunks) ==> n == |chunks|
    {
      hide OnDisk, DiskOk, Logged, Marked, BlocksOf;
      hide StoreOk, View, Contents, Placed, FreeSet, Appends, Fits, OnlyGrew, Small, DataLow;
      n := 0;
      ghost var total := |Flatten(chunks)|;
      StoreFacts(disk, files, used, bitmap[..], top, f);
      assert chunks[..0] == [];
      assert SetSize(files, f, files[f].size) == files;
      GrewNone(files, used, f, DataLow(top, |bitmap[..]|), [], []);
      while n < |chunks| && Appends(files, used, bitmap[..], top, nbuf, f, |chunks[n]|)
        invariant n <= |chunks| && Valid() && |used| == |files| == |old(files)|
        invariant FileBytes(f) == old(FileBytes(f)) + Flatten(chunks[..n])
        invariant forall g :: 0 <= g < |files| && g != f ==> FileBytes(g) == old(FileBytes(g))
        invariant |Flatten(chunks[..n])| <= total && files[f].size == old(files[f].size) + |Flatten(chunks[..n])|
        invariant OnlyGrew(old(files), old(used), SetSize(files, f, old(files[f].size)),
                           used, f, DataLow(top, |bitmap[..]|))
        invariant old(Fits(files, used, bitmap[..], nbuf, f, total)) && Small(chunks) ==>
          Fits(files, used, bitmap[..], nbuf, f, total - |Flatten(chunks[..n])|)
      {
        FlattenStep(chunks, n);
        ghost var f1, u1 := files, used;
        AppendOne(f, chunks[n], total - |Flatten(chunks[..n])|);
        GrewThrough(old(files), old(used), f1, u1, files, used, f, DataLow(top, |bitmap[..]|));
        n := n + 1;
      }
      if n < |chunks| {
        FlattenStep(chunks, n);
        SmallAt(chunks, n);
        StillFits(disk, files, used, bitmap[..], top, nbuf, f, |chunks[n]|, total - |Flatten(chunks[..n])|);
      }
      assert n == |chunks| ==> chunks[..n] == chunks;
    }

    // One write at the end of a file.
    method AppendOne(f: nat, src: seq<byte>, ghost room: nat)
      requires Valid() && f < |files| && |used| == |files| && |src| <= room
      requires Appends(files, used, bitmap[..], top, nbuf, f, |src|)
      modifies this`disk, this`trace, this`spots, this`files, this`used, bitmap
      ensures Valid() && |used| == |files| == |old(files)| && FileBytes(f) == old(FileBytes(f)) + src
      ensures forall g :: 0 <= g < |files| && g != f ==> FileBytes(g) == old(FileBytes(g))
      ensures old(Fits(files, used, bitmap[..], nbuf, f, room)) ==> Fits(files, used, bitmap[..], nbuf, f, room - |src|)
      ensures files[f].size == old(files[f].size) + |src|
      ensures Logged(old(disk), disk, trace, spots, files[f], used[f])
      ensures |trace| <= CrashLog.MAX_ENTRIES && |BlocksOf(trace)| < nbuf
      ensures OnlyGrew(old(files), old(used), SetSize(files, f, old(files[f].size)),
                       used, f, DataLow(top, |bitmap[..]|))
      ensures bitmap[..] == Marked(old(bitmap[..]), used[f] - old(used[f]))
      ensures DiskOk(disk) && OnDisk(disk, old(files[f]), old(used[f]))
      ensures Contents(disk, old(files[f]), old(used[f])) == old(FileBytes(f))
    {
      hide Even, RestRaw, Spread, DataLow;
      hide StoreOk, View, Placed, FreeSet, Marked, OnDisk, DiskOk, Logged, Base, Walkable, CanGrow, BlocksOf, InOrder;
      hide Touched;
      StoreFacts(disk, files, used, bitmap[..], top, f);
      ghost var d0, f0, u0, v0, off := disk, files, used, FileView(f), files[f].size;
      assert off <= |v0|;
      StoreFrame(disk, files, used, bitmap[..], top);
      var res, next, st;
      ghost var places;
      res, next, st, places := Filewrite(f, files[f].size, src);
      StoreFacts(disk, files, used, bitmap[..], top, f);
      StoreFrame(disk, files, used, bitmap[..], top);
      TidyPlaced(v0, FileView(f), off, places, src, Within(off, |src|, |v0|));
      AtEnd(v0, FileView(f), off, src);
      OldInode(disk, f0[f], u0[f], files[f], used[f]);
      assert FileView(f)[..|v0|][..off] == FileView(f)[..off];
      if Fits(f0, u0, old(bitmap[..]), nbuf, f, room) { FitsOn(f0[f], u0[f], files[f], used[f], |src|, room); }
      forall g | 0 <= g < |files| && g != f ensures FileBytes(g) == old(FileBytes(g)) {
        SameLength(d0, f0[g], u0[g], disk, files[g], used[g]);
      }
    }

    // A file written in chunks of at most a block, past its second extent, holds them all;
    // and reading it in pieces of any size takes the extent pointer out of the inode.
    method WrittenNotRead(f: nat, chunks: seq<seq<byte>>, n: nat) returns (all: seq<byte>, st: Fate,
                          ghost places: seq<nat>)
      requires Valid() && f < |files| && |used| == |files| && used[f] == 0 && files[f].size == 0
      requires Fits(files, used, bitmap[..], nbuf, f, |Flatten(chunks)|) && Small(chunks)
      requires 2 * EXTENT_BYTES < |Flatten(chunks)| && 0 < n < MAX_UINT - |Flatten(chunks)|
      modifies this`disk, this`trace, this`spots, this`files, this`used, bitmap
      ensures Valid() && |files| == |old(files)| && FileBytes(f) == Flatten(chunks)
      ensures st != Done
    {
      hide StoreOk, View, Fits, Small, FreeSet, InOrder, OnlyGrew, Base;
      var k := WriteAll(f, chunks);
      assert chunks[..k] == chunks;
      FreshBytes(old(disk), old(files), old(used), old(bitmap[..]), top, f);
      StoreFacts(disk, files, used, bitmap[..], top, f);
      TwoExtents(old(files), old(used), files, used, f, DataLow(top, |bitmap[..]|));
      all, st, places := ReadAll(f, n);
    }
  }

  // ---- rounds of the walk ----

  lemma NothingPicked(v: seq<byte>)
    ensures Picked(v, [], []) && InOrder([], 0)
  {
  }

  lemma WholeSlice(v: seq<byte>)
    ensures v[0..|v|] == v
  {
  }

  lemma SizeInRange(ip: Inode, u: nat, off: nat, n: nat, data: nat, size: nat, o: nat, ps: seq<nat>)
    requires u <= |ip.ext| && Walking(ip, u, off, n, data, size, o, ps)
    ensures size <= o
  {
  }

  // w is v with the bytes of src put at the places ps.
  ghost predicate Written(v: seq<byte>, w: seq<byte>, ps: seq<nat>, src: seq<byte>) {
    |ps| == |src| && (forall i :: 0 <= i < |ps| ==> ps[i] < |v|) && w == Scatter(v, ps, src)
  }

  lemma WrittenMore(v: seq<byte>, w: seq<byte>, z: seq<byte>, ps: seq<nat>, src: seq<byte>, tot: nat, x: nat, m: nat)
    requires tot + m <= |src| && Written(v, w, ps, src[..tot]) && x + m <= |v| == |w|
    requires z == Splice(w, x, src[tot..tot + m])
    ensures Written(v, z, ps + Range(x, m), src[..tot + m])
  {
    hide Splice, Scatter;
    ScatterChunk(v, ps, src[..tot], x, src[tot..tot + m]);
    assert src[..tot] + src[tot..tot + m] == src[..tot + m];
  }

  lemma WrittenLength(v: seq<byte>, w: seq<byte>, ps: seq<nat>, src: seq<byte>)
    requires Written(v, w, ps, src)
    ensures |w| == |v| && |ps| == |src|
  {
  }

  // While the bytes are moved in order: how many block writes there were, and that they
  // were to different blocks.
  predicate Tally(off: nat, tot: nat, n: nat, c: nat, spots: seq<nat>) {
    Counts(off, tot, n, c) && Rising(spots, BlocksFor(off + tot)) && (tot == 0 ==> spots == [])
  }

  lemma TallyOn(ip: Inode, data: nat, off: nat, tot: nat, n: nat, c: nat, spots: seq<nat>, m: nat, size: nat)
    requires Tally(off, tot, n, c, spots) && tot < n && m == Min(n - tot, BSIZE - size % BSIZE)
    requires data < |ip.ext| && off + tot == Base(ip, data) + size
    ensures Tally(off, tot + m, n, c + 1, spots + [off + tot])
  {
    hide Base, Rising, Counts;
    Congruent(Base(ip, data), size);
    CountsOn(off, tot, n, c, m);
    if tot == 0 {
      FirstSpot(off, off + tot + m);
    } else {
      OnBoundary(off, tot, n, c, m);
      RisingMore(spots, BlocksFor(off + tot), off + tot, BlocksFor(off + tot + m));
    }
  }

  lemma FirstSpot(k: nat, e: nat)
    requires k < e
    ensures [] + [k] == [k] && Rising([k], BlocksFor(e))
  {
  }

  lemma OnBoundary(off: nat, tot: nat, n: nat, c: int, m: nat)
    requires Counts(off, tot, n, c) && 0 < tot < n && m > 0
    ensures BlocksFor(off + tot) <= (off + tot) / BSIZE < BlocksFor(off + tot + m)
  {
  }

  lemma TallyEnd(off: nat, n: nat, c: nat, spots: seq<nat>)
    ensures Tally(off, n, n, c, spots) ==> c == Touched(off, n) && Rising(spots, BlocksFor(off + n))
  {
  }

  lemma RisingWider(ps: seq<nat>, e: nat, cap: nat)
    requires Rising(ps, BlocksFor(e)) && e <= cap && cap % BSIZE == 0
    ensures Rising(ps, cap / BSIZE)
  {
    assert BlocksFor(e) <= cap / BSIZE;
  }

  lemma RisesTo(ps: seq<nat>, cap: nat, size: nat)
    requires Rising(ps, cap / BSIZE) && cap % BSIZE == 0 && size < EXTENT_BYTES
    ensures Rising(ps + [cap + size], (cap + EXTENT_BYTES) / BSIZE)
  {
    RisingMore(ps, cap / BSIZE, cap + size, (cap + EXTENT_BYTES) / BSIZE);
  }

  lemma DistinctBlocks(d0: Disk, d: Disk, files: seq<Inode>, used: seq<nat>, bm: seq<byte>, top: nat, f: nat,
                       ws: seq<Write>, ps: seq<nat>, b: nat)
    requires StoreOk(d, files, used, bm, top) && f < |files| && |used| == |files|
    requires Logged(d0, d, ws, ps, files[f], used[f]) && Rising(ps, b)
    ensures |BlocksOf(ws)| == |ws|
  {
    hide Rising, Logged, DiskOk, AllOwned;
    StoreFacts(d, files, used, bm, top, f);
    FileApart(files, used, f);
    LoggedBlocks(d0, d, ws, ps, files[f], used[f], b);
  }

  lemma NothingYet(d: Disk, files: seq<Inode>, used: seq<nat>, f: nat, v: seq<byte>, off: nat, n: nat,
                   ws: seq<Write>, ps: seq<nat>, d0: Disk)
    requires f < |files| && f < |used| && used[f] <= |files[f].ext| && ws == []
    requires Logged(d0, d, ws, ps, files[f], used[f])
    ensures OthersSame(d, d, files, used, f) && Elsewhere(d, d, files[f], used[f])
    ensures Written(v, v, [], []) && Tally(off, 0, n, |ws|, ps)
  {
    OthersStart(d, files, used, f);
  }

  lemma SpliceParts(v: seq<byte>, k: nat, src: seq<byte>)
    requires k + |src| <= |v|
    ensures var n := Splice(v, k, src); n[..k] == v[..k] && n[k..k + |src|] == src
  {
  }

  // ---- one round of appendi ----

  lemma GrewNone(files: seq<Inode>, used: seq<nat>, f: nat, lo: int, v: seq<byte>, src: seq<byte>)
    requires f < |files| == |used| && used[f] <= |files[f].ext|
    ensures OnlyGrew(files, used, files, used, f, lo) && Spread(v, |v|, src[..0]) && v[..|v|] == v
  {
  }

  lemma InLast(ip: Inode, data: nat, size: nat, n: nat)
    requires data < |ip.ext| && ip.ext[data].nblocks == EXTENT_BLOCKS && size % BSIZE == 0 && size < EXTENT_BYTES
    requires n <= BSIZE
    ensures InStep(ip, data + 1, Base(ip, data) + size, data, size) && Base(ip, data) + size + n <= Base(ip, data + 1)
    ensures (Base(ip, data) + size) % BSIZE == 0
  {
    Congruent(Base(ip, data), size);
  }

  lemma ExtendedIs(v: seq<byte>, mid: seq<byte>, w: seq<byte>, size: nat, chunk: seq<byte>, raw: seq<byte>)
    requires |raw| == EXTENT_BYTES && mid == v + raw && size + |chunk| <= EXTENT_BYTES
    requires w == Splice(mid, |v| + size, chunk)
    ensures Extended(v, w, size, chunk, raw)
  {
    assert (v + raw)[..|v| + size] == v + raw[..size];
    assert (v + raw)[|v| + size + |chunk|..] == raw[size + |chunk|..];
  }

  lemma ExtendedLength(v: seq<byte>, w: seq<byte>, size: nat, chunk: seq<byte>, raw: seq<byte>)
    requires Extended(v, w, size, chunk, raw)
    ensures |w| == |v| + EXTENT_BYTES
  {
  }

  lemma RestStays(v0: seq<byte>, v1: seq<byte>, v2: seq<byte>, src: seq<byte>, tot: nat, m: nat, raw: seq<byte>,
                  raw0: seq<byte>)
    requires tot + m <= |src| && Extended(v1, v2, tot, src[tot..tot + m], raw)
    requires if tot == 0 then |v1| == |v0| && raw == raw0 && m == Min(|src|, BSIZE) else RestRaw(v1, |v0|, |src|, raw0)
    ensures RestRaw(v2, |v0|, |src|, raw0)
  {
    if tot == 0 {
      assert v2[|v1| + m..|v1| + EXTENT_BYTES] == Splice(raw, 0, src[0..m])[m..];
    } else {
      assert v2[..|v1|] == v1;
      assert v2[|v0| + Min(|src|, BSIZE)..|v0| + EXTENT_BYTES]
        == v2[..|v1|][|v0| + Min(|src|, BSIZE)..|v0| + EXTENT_BYTES];
    }
  }

  // What one round of appendi leaves.
  lemma RoundDone(f0: seq<Inode>, u0: seq<nat>, f1: seq<Inode>, u1: seq<nat>, b1: seq<byte>, f2: seq<Inode>,
                  u2: seq<nat>, b2: seq<byte>,
                  top: nat, f: nat, c: nat, v0: seq<byte>, v1: seq<byte>, v2: seq<byte>, src: seq<byte>, tot: nat,
                  m: nat,
                  raw: seq<byte>, raw0: seq<byte>)
    requires OnlyGrew(f0, u0, f1, u1, f, DataLow(top, |b1|)) && TookFirst(f1, u1, b1, f2, u2, b2, top, f)
    requires |b1| % BSIZE == 0
    requires FreeExtent(f1, u1, b1, top) && u1[f] < EXTENT_N && c > u1[f] - u0[f]
    requires tot == (u1[f] - u0[f]) * BSIZE && tot < |src| && m == Min(|src| - tot, BSIZE)
    requires |v1| == |v0| + (u1[f] - u0[f]) * EXTENT_BYTES && v1[..|v0|] == v0 && Spread(v1, |v0|, src[..tot])
    requires Extended(v1, v2, tot, src[tot..tot + m], raw)
    requires if tot == 0 then raw == raw0 else RestRaw(v1, |v0|, |src|, raw0)
    ensures |f2| == |f1| && |u2| == |u1| && u2[f] == u1[f] + 1 && |b2| == |b1| && |FreeSet(b2)| == |FreeSet(b1)| - 1
    ensures OnlyGrew(f0, u0, f2, u2, f, DataLow(top, |b1|))
    ensures CanGrow(f1, u1, b1, top, f, c - (u1[f] - u0[f])) <==> CanGrow(f2, u2, b2, top, f, c - (u2[f] - u0[f]))
    ensures |v2| == |v1| + EXTENT_BYTES && v2[..|v0|] == v0 && Spread(v2, |v0|, src[..tot + m])
    ensures RestRaw(v2, |v0|, |src|, raw0)
  {
    hide OnlyGrew, TookFirst, FreeExtent, CanGrow, Spread, Extended, RestRaw, DataLow, FreeSet;
    LengthIs(f0, u0, f1, u1, f, DataLow(top, |b1|));
    GrewMore(f0, u0, f1, u1, b1, f2, u2, b2, top, f);
    GrowNext(f1, u1, b1, f2, u2, b2, top, f, c - (u1[f] - u0[f]));
    ExtendedLength(v1, v2, tot, src[tot..tot + m], raw);
    SpreadMore(v0, v1, v2, src, tot, m, u1[f] - u0[f], raw);
    RestStays(v0, v1, v2, src, tot, m, raw, raw0);
  }

  lemma SomeBlocks(n: nat)
    ensures n > 0 ==> BlocksFor(n) > 0
  {
  }

  lemma MarkedNone(bm: seq<byte>)
    ensures Marked(bm, 0) == bm
  {
  }

  lemma MarkedRound(bm: seq<byte>, c: nat, f1: seq<Inode>, u1: seq<nat>, f2: seq<Inode>, u2: seq<nat>, b2: seq<byte>,
                    top: nat, f: nat)
    requires TookFirst(f1, u1, Marked(bm, c), f2, u2, b2, top, f)
    ensures b2 == Marked(bm, c + 1)
  {
    MarkedNext(bm, c);
  }

  lemma LengthIs(f0: seq<Inode>, u0: seq<nat>, f1: seq<Inode>, u1: seq<nat>, f: nat, lo: int)
    requires OnlyGrew(f0, u0, f1, u1, f, lo)
    ensures f < |f0| == |f1| == |u0| == |u1| && u0[f] <= u1[f]
  {
  }

  lemma SpreadMore(v0: seq<byte>, v1: seq<byte>, v2: seq<byte>, src: seq<byte>, tot: nat, m: nat, i: nat,
                   raw: seq<byte>)
    requires |v1| == |v0| + i * EXTENT_BYTES && v1[..|v0|] == v0 && tot == i * BSIZE && tot + m <= |src| && m <= BSIZE
    requires Extended(v1, v2, tot, src[tot..tot + m], raw) && Spread(v1, |v0|, src[..tot])
    ensures v2[..|v0|] == v0 && Spread(v2, |v0|, src[..tot + m])
  {
    assert v2[..|v0|] == v2[..|v1|][..|v0|];
    var part := src[..tot + m];
    forall j | 0 <= j < |part| ensures ChunkAt(v2, |v0|, part, j) {
      var k := |v0| + j / BSIZE * EXTENT_BYTES + j;
      if j < tot {
        assert ChunkAt(v1, |v0|, src[..tot], j);
        assert v2[k] == v2[..|v1|][k];
      } else {
        assert j / BSIZE == i;
        assert v2[k] == Splice(raw, tot, src[tot..tot + m])[j];
      }
    }
  }

  lemma PlacedIs(v: seq<byte>, v1: seq<byte>, w: seq<byte>, ps: seq<nat>, src: seq<byte>, m: nat)
    requires m <= |src| && Written(v, v1, ps, src[..m]) && |v1| <= |w| && w[..|v1|] == v1 && Spread(w, |v1|, src[m..])
    ensures Placed(v, w, ps, src, m)
  {
  }

  // ---- writes at the end ----

  // Chunks of at most a block.
  predicate Small(chunks: seq<seq<byte>>) {
    forall i :: 0 <= i < |chunks| ==> |chunks[i]| <= BSIZE
  }

  lemma SmallAt(chunks: seq<seq<byte>>, i: nat)
    requires i < |chunks|
    ensures Small(chunks) ==> |chunks[i]| <= BSIZE
  {
  }

  lemma GrewThrough(fa: seq<Inode>, ua: seq<nat>, fb: seq<Inode>, ub: seq<nat>, fc: seq<Inode>, uc: seq<nat>, f: nat,
                    lo: int)
    requires f < |fa| && f < |fb| && f < |fc|
    requires OnlyGrew(fa, ua, SetSize(fb, f, fa[f].size), ub, f, lo)
    requires OnlyGrew(fb, ub, SetSize(fc, f, fb[f].size), uc, f, lo)
    ensures OnlyGrew(fa, ua, SetSize(fc, f, fa[f].size), uc, f, lo)
  {
    forall i | 0 <= i < ub[f] ensures fc[f].ext[i] == fb[f].ext[i] {
      assert fc[f].ext[..ub[f]][i] == fb[f].ext[..ub[f]][i];
    }
    assert fc[f].ext[..ua[f]] == fb[f].ext[..ua[f]];
  }

  lemma FreshBytes(d: Disk, files: seq<Inode>, used: seq<nat>, bm: seq<byte>, top: nat, f: nat)
    requires StoreOk(d, files, used, bm, top) && f < |files| && files[f].size == 0
    ensures |used| == |files| && DiskOk(d) && OnDisk(d, files[f], used[f]) && Contents(d, files[f], used[f]) == []
  {
    hide View;
    StoreFacts(d, files, used, bm, top, f);
  }

  // The extents of a file that began empty have eight blocks each.
  lemma TwoExtents(fa: seq<Inode>, ua: seq<nat>, fb: seq<Inode>, ub: seq<nat>, f: nat, lo: int)
    requires f < |fa| && f < |fb| && f < |ua| && f < |ub| && ua[f] == 0 && Shaped(fb[f], ub[f])
    requires OnlyGrew(fa, ua, SetSize(fb, f, fa[f].size), ub, f, lo)
    ensures Base(fb[f], Min(2, ub[f])) <= 2 * EXTENT_BYTES && Even(fb[f], ub[f])
  {
    NoBytes(fb[f]);
    if ub[f] > 0 { NextBase(fb[f], 0); }
    if ub[f] > 1 { NextBase(fb[f], 1); }
  }

  // One block past the old capacity is in place, and the file has src at off.
  lemma TidyPlaced(v: seq<byte>, w: seq<byte>, off: nat, ps: seq<nat>, src: seq<byte>, m: nat)
    requires off <= |v| && m == Within(off, |src|, |v|) && Placed(v, w, ps, src, m) && InOrder(ps, off)
    requires |src| - m <= BSIZE
    ensures |w| >= off + |src| && w[..off] == v[..off] && w[off..off + |src|] == src
  {
    hide Scatter;
    ScatterInOrder(v, ps, src[..m], off);
    SpliceParts(v, off, src[..m]);
    assert w[..off] == w[..|v|][..off];
    forall i | 0 <= i < |src| ensures off + i < |w| && w[off + i] == src[i] {
      if i < m {
        assert w[..|v|][off..off + m][i] == src[i];
      } else {
        assert ChunkAt(w, |v|, src[m..], i - m);
      }
    }
    if m < |src| { assert ChunkAt(w, |v|, src[m..], |src| - m - 1); }
  }

  // A second block past the capacity is not: it is a whole extent too far on, and the
  // bytes where it belongs are those that were on the disk.
  lemma SecondBlockAstray(v: seq<byte>, w: seq<byte>, off: nat, ps: seq<nat>, src: seq<byte>, m: nat, raw: seq<byte>,
                          i: nat)
    requires Placed(v, w, ps, src, m) && off + m == |v| && RestRaw(w, |v|, |src| - m, raw) && m + BSIZE <= i < |src|
    requires i - m < EXTENT_BYTES
    ensures off + i < |w| && w[off + i] == raw[i - m]
    ensures off + i + (i - m) / BSIZE * EXTENT_BYTES < |w| && w[off + i + (i - m) / BSIZE * EXTENT_BYTES] == src[i]
  {
    assert ChunkAt(w, |v|, src[m..], i - m);
    assert w[|v| + BSIZE..|v| + EXTENT_BYTES][i - m - BSIZE] == raw[BSIZE..][i - m - BSIZE];
  }

  lemma AtEnd(v: seq<byte>, w: seq<byte>, off: nat, src: seq<byte>)
    requires off <= |v| && off + |src| <= |w| && w[..off] == v[..off] && w[off..off + |src|] == src
    ensures w[..off + |src|] == v[..off] + src
  {
  }

  lemma SameLength(d0: Disk, ip0: Inode, u0: nat, d: Disk, ip: Inode, u: nat)
    requires DiskOk(d0) && OnDisk(d0, ip0, u0) && DiskOk(d) && OnDisk(d, ip, u)
    requires ip.size == ip0.size && View(d, ip, u) == View(d0, ip0, u0)
    ensures Contents(d, ip, u) == Contents(d0, ip0, u0)
  {
    hide View;
  }

  // With room left, the next write of at most a block appends.
  lemma StillFits(d: Disk, files: seq<Inode>, used: seq<nat>, bm: seq<byte>, top: nat, nbuf: nat, f: nat, n: nat,
                  room: nat)
    requires StoreOk(d, files, used, bm, top) && f < |files| && n <= room
    ensures |used| == |files|
    ensures Fits(files, used, bm, nbuf, f, room) && n <= BSIZE ==> Appends(files, used, bm, top, nbuf, f, n)
  {
    hide StoreOk, CanGrow, FreeSet, OnDisk, DiskOk, Base;
    StoreFacts(d, files, used, bm, top, f);
    if Fits(files, used, bm, nbuf, f, room) && n <= BSIZE {
      var ip, u := files[f], used[f];
      var cap := Base(ip, u);
      OneBitmapBlock(d, files, used, bm, top, f, BlocksFor(n - Within(ip.size, n, cap)));
      NoBytes(ip);
      if ip.size < cap { ExtIs(ip, u, ip.size, u - 1); }
    }
  }

  // ... and leaves what room it did not take.
  lemma FitsOn(ip: Inode, u: nat, np: Inode, nu: nat, n: nat, room: nat)
    requires Shaped(ip, u) && Shaped(np, nu) && n <= room && np.size == ip.size + n && np.ext[..u] == ip.ext[..u]
    requires (u > 0 ==> Base(ip, u - 1) < ip.size) && ip.size <= Base(ip, u)
    requires nu == u + BlocksFor(n - Within(ip.size, n, Base(ip, u))) && n - Within(ip.size, n, Base(ip, u)) <= BSIZE
    requires Base(np, nu) == Base(ip, u) + (nu - u) * EXTENT_BYTES
    ensures (nu > 0 ==> Base(np, nu - 1) < np.size) && np.size <= Base(np, nu)
  {
    forall i | 0 <= i < u ensures np.ext[i] == ip.ext[i] { assert ip.ext[..u][i] == np.ext[..u][i]; }
    if u > 0 { SamePrefix(ip, np, u - 1); }
    SamePrefix(ip, np, u);
  }
}
