/**
 The walk of readi and writei over a file's extents (kernel/fs.c): which bytes of the file
 it moves, and for which ranges these are the right ones.
 */
module FileWalk {
  import opened Prelude
  import opened Blocks
  import opened FileData
  import opened FileAlloc

  // ---- the ranges that work ----

  // Out of the ranges the file has blocks for: the empty ones, those in the first two
  // extents, and those that lie in one later extent and do not start on its first byte.
  predicate Walkable(ip: Inode, used: nat, off: nat, n: nat)
    requires used <= |ip.ext|
  {
    n == 0 ||
    (off + n <= Base(ip, used) &&
     (off + n <= Base(ip, Min(2, used)) ||
      (Base(ip, ExtOf(ip, used, off)) < off && off + n <= Base(ip, ExtOf(ip, used, off) + 1))))
  }

  lemma WalkableFits(ip: Inode, u: nat, off: nat, n: nat)
    requires u <= |ip.ext| && off <= Base(ip, u) && Walkable(ip, u, off, n)
    ensures off + n <= Base(ip, u)
  {
  }

  // Nothing that starts in the first two extents and ends beyond them is walkable.
  lemma PastTwo(ip: Inode, u: nat, off: nat, n: nat)
    requires Shaped(ip, u) && off <= Base(ip, Min(2, u))
    ensures Walkable(ip, u, off, n) <==> n == 0 || off + n <= Base(ip, Min(2, u))
    ensures off <= Base(ip, u)
  {
    hide Base, ExtOf;
    BaseGrows(ip, Min(2, u), u);
    if n > 0 && Base(ip, Min(2, u)) < off + n <= Base(ip, u) {
      var e := ExtOf(ip, u, off);
      if e < 2 { BaseGrows(ip, e + 1, 2); } else { BaseGrows(ip, 2, e); }
    }
  }

  // ---- the walk's place ----

  // The places are off, off + 1 and so on.
  predicate InOrder(ps: seq<nat>, off: nat) {
    forall i :: 0 <= i < |ps| ==> ps[i] == off + i
  }

  function Range(x: nat, m: nat): (r: seq<nat>)
    ensures |r| == m
  {
    seq(m, i requires 0 <= i => x + i)
  }

  lemma RangeInOrder(ps: seq<nat>, off: nat, x: nat, m: nat)
    requires m > 0
    ensures InOrder(ps + Range(x, m), off) <==> InOrder(ps, off) && x == off + |ps|
  {
    var qs := ps + Range(x, m);
    assert qs[|ps|] == x;
    forall i | 0 <= i < |ps| ensures qs[i] == ps[i] {}
  }

  // Where the first loop leaves the walk.
  predicate InPlace(ip: Inode, u: nat, off: nat, data: nat, start: nat) {
    && u <= |ip.ext| && data < |ip.ext| && off <= Base(ip, u)
    && off == Base(ip, data) + start <= Base(ip, data + 1) && (data == 0 || (start > 0 && data < u))
  }

  // Right: offset `size` of extent `data` is byte o of the file.  The walk has come to an
  // extent after the second only by starting inside it.
  predicate OnTrack(ip: Inode, u: nat, off: nat, data: nat, size: nat, o: nat)
    requires u <= |ip.ext|
  {
    && data < u && o == Base(ip, data) + size && size <= ip.ext[data].nblocks * BSIZE
    && (data >= 2 ==> Base(ip, data) < off)
  }

  // Wrong for good: the walk is behind the file's extents, or at a byte after byte o.
  predicate Past(ip: Inode, u: nat, data: nat, size: nat, o: nat)
    requires u <= |ip.ext|
  {
    data >= u ||
    (o < Base(ip, data) + size && (o <= Base(ip, data) || size <= ip.ext[data].nblocks * BSIZE))
  }

  // A walk over n bytes from off that stands at offset `size` of extent `data` with byte
  // o to come, and has so far moved the bytes at ps.
  predicate Walking(ip: Inode, u: nat, off: nat, n: nat, data: nat, size: nat, o: nat, ps: seq<nat>)
    requires u <= |ip.ext|
  {
    && off <= o <= off + n && |ps| == o - off && size <= o
    && (|| (OnTrack(ip, u, off, data, size, o) && InOrder(ps, off) && Walkable(ip, u, off, o - off))
        || (Past(ip, u, data, size, o)
            && (n > 0 ==> !Walkable(ip, u, off, n) && (o < off + n || !InOrder(ps, off)))))
  }

  // ---- the steps of the walk ----

  lemma {:induction false} BaseFlat(ip: Inode, u: nat, k: nat)
    requires Shaped(ip, u) && u <= k <= EXTENT_N
    ensures Base(ip, k) == Base(ip, u)
  {
    if k > u { BaseFlat(ip, u, k - 1); }
  }

  lemma NextBase(ip: Inode, k: nat)
    requires k < |ip.ext|
    ensures Base(ip, k + 1) == Base(ip, k) + ip.ext[k].nblocks * BSIZE
  {
  }

  lemma NoBytes(ip: Inode)
    ensures Base(ip, 0) == 0
  {
  }

  lemma PlaceFound(ip: Inode, u: nat, off: nat, data: nat)
    requires Shaped(ip, u) && data <= EXTENT_N && Base(ip, data) <= off && (data > 0 ==> Base(ip, data) < off)
    requires data < EXTENT_N ==> off <= Base(ip, data + 1)
    ensures data == EXTENT_N <==> off > Base(ip, u)
    ensures data < EXTENT_N ==> InPlace(ip, u, off, data, off - Base(ip, data))
  {
    hide Base;
    BaseFlat(ip, u, EXTENT_N);
    if data < EXTENT_N {
      BaseGrows(ip, data + 1, EXTENT_N);
      if data >= u { BaseFlat(ip, u, data); }
    }
  }

  lemma Started(ip: Inode, u: nat, off: nat, n: nat, data: nat, size: nat)
    requires Shaped(ip, u) && InPlace(ip, u, off, data, size)
    ensures Walking(ip, u, off, n, data, size, off, [])
  {
    assert Base(ip, data + 1) == Base(ip, data) + ip.ext[data].nblocks * BSIZE;
  }

  // An extent whose end the walk has come to: from the first extent it goes on rightly to
  // the second, and from any other it never again is where it should be.
  lemma Jumped(ip: Inode, u: nat, off: nat, n: nat, data: nat, size: nat, o: nat, ps: seq<nat>)
    requires Shaped(ip, u) && data < EXTENT_N && Walking(ip, u, off, n, data, size, o, ps) && o < off + n
    requires size >= ip.ext[data].nblocks * BSIZE
    ensures Walking(ip, u, off, n, data + 1, o - size, o, ps)
  {
    hide Walkable;
    assert data < u ==> Base(ip, data + 1) == Base(ip, data) + ip.ext[data].nblocks * BSIZE;
    if OnTrack(ip, u, off, data, size, o) && !(data == 0 && u > 1) {
      LeavesTrack(ip, u, off, n, data, size, o);
    }
  }

  lemma LeavesTrack(ip: Inode, u: nat, off: nat, n: nat, data: nat, size: nat, o: nat)
    requires Shaped(ip, u) && OnTrack(ip, u, off, data, size, o) && size == ip.ext[data].nblocks * BSIZE
    requires off <= o < off + n && (data > 0 || u == 1)
    ensures !Walkable(ip, u, off, n) && size <= o && Past(ip, u, data + 1, o - size, o)
  {
    assert o == Base(ip, data + 1);
    EndIsNotWalkable(ip, u, off, data + 1, n);
    if data > 0 { BaseGrows(ip, 1, data); }
  }

  // A range that goes on past the end of an extent other than the first, or of the last.
  lemma EndIsNotWalkable(ip: Inode, u: nat, off: nat, k: nat, n: nat)
    requires Shaped(ip, u) && k <= u && (k >= 2 || k == u) && off <= Base(ip, k) < off + n
    ensures !Walkable(ip, u, off, n)
  {
    hide Base, ExtOf;
    if off + n <= Base(ip, u) {
      BaseGrows(ip, Min(2, u), k);
      var e := ExtOf(ip, u, off);
      if e < k { BaseGrows(ip, e + 1, k); } else { BaseGrows(ip, k, e); }
    }
  }

  // A round that moves m bytes, at byte x of the file.
  lemma Moved(ip: Inode, u: nat, off: nat, n: nat, data: nat, size: nat, o: nat, ps: seq<nat>, m: nat)
    requires Shaped(ip, u) && data < EXTENT_N && Walking(ip, u, off, n, data, size, o, ps)
    requires size < ip.ext[data].nblocks * BSIZE && 0 < m <= off + n - o && m <= BSIZE - size % BSIZE
    ensures data < u && InStep(ip, u, Base(ip, data) + size, data, size) && Base(ip, data) + size + m <= Base(ip, u)
    ensures Walking(ip, u, off, n, data, size + m, o + m, ps + Range(Base(ip, data) + size, m))
    ensures InOrder(ps + Range(Base(ip, data) + size, m), off) ==> InOrder(ps, off) && o == Base(ip, data) + size
  {
    hide Walkable, InOrder, Base;
    var x := Base(ip, data) + size;
    RoundUp(size, m, ip.ext[data].nblocks);
    NextBase(ip, data);
    BaseGrows(ip, data + 1, u);
    RangeInOrder(ps, off, x, m);
    if OnTrack(ip, u, off, data, size, o) { TrackIsWalkable(ip, u, off, data, size, o, m); }
  }

  lemma TrackIsWalkable(ip: Inode, u: nat, off: nat, data: nat, size: nat, o: nat, n: nat)
    requires u <= |ip.ext| && OnTrack(ip, u, off, data, size, o) && off <= o && o + n <= Base(ip, data + 1)
    ensures Walkable(ip, u, off, o + n - off)
  {
    hide Base, ExtOf;
    BaseGrows(ip, data + 1, u);
    if o + n > off {
      if data < 2 {
        BaseGrows(ip, data + 1, Min(2, u));
      } else {
        ExtIs(ip, u, off, data);
      }
    }
  }

  lemma RoundUp(size: nat, m: nat, n: nat)
    requires size < n * BSIZE && m <= BSIZE - size % BSIZE
    ensures size + m <= n * BSIZE
  {
  }

  // A walk that has moved all n bytes has moved the right ones exactly if the range is
  // walkable, and one that has run out of extents has a range that is not.
  lemma Ended(ip: Inode, u: nat, off: nat, n: nat, data: nat, size: nat, o: nat, ps: seq<nat>)
    requires Shaped(ip, u) && Walking(ip, u, off, n, data, size, o, ps)
    ensures o == off + n ==> (Walkable(ip, u, off, n) <==> InOrder(ps, off))
    ensures o < off + n && data >= u ==> !Walkable(ip, u, off, n)
  {
  }

  // ---- extents of eight blocks ----

  // The file has only extents that getstartblkno gave out.
  predicate Even(ip: Inode, u: nat) {
    u <= |ip.ext| && forall i :: 0 <= i < u ==> ip.ext[i].nblocks == EXTENT_BLOCKS
  }

  // Such a walk, once it is wrong, never comes to stand inside an extent again.
  predicate EvenWalk(ip: Inode, u: nat, off: nat, n: nat, data: nat, size: nat, o: nat)
    requires u <= |ip.ext|
  {
    || n == 0 || OnTrack(ip, u, off, data, size, o)
    || (o < off + n && (data >= u || (size >= EXTENT_BYTES && o - size >= EXTENT_BYTES)))
  }

  lemma {:induction false} EvenBase(ip: Inode, u: nat, k: nat)
    requires Even(ip, u) && k <= u
    ensures Base(ip, k) == k * EXTENT_BYTES
  {
    if k > 0 { EvenBase(ip, u, k - 1); }
  }

  lemma EvenStarted(ip: Inode, u: nat, off: nat, n: nat, data: nat, size: nat)
    requires Shaped(ip, u) && InPlace(ip, u, off, data, size)
    ensures EvenWalk(ip, u, off, n, data, size, off)
  {
    NextBase(ip, data);
  }

  lemma EvenJumped(ip: Inode, u: nat, off: nat, n: nat, data: nat, size: nat, o: nat)
    requires Shaped(ip, u) && Even(ip, u) && data < EXTENT_N && EvenWalk(ip, u, off, n, data, size, o)
    requires size <= o < off + n && size >= ip.ext[data].nblocks * BSIZE
    ensures EvenWalk(ip, u, off, n, data + 1, o - size, o)
  {
    hide Base;
    if OnTrack(ip, u, off, data, size, o) {
      NoBytes(ip);
      NextBase(ip, 0);
      EvenBase(ip, u, data);
    }
  }

  lemma EvenMoved(ip: Inode, u: nat, off: nat, n: nat, data: nat, size: nat, o: nat, m: nat)
    requires Shaped(ip, u) && Even(ip, u) && data < EXTENT_N && EvenWalk(ip, u, off, n, data, size, o)
    requires size < ip.ext[data].nblocks * BSIZE && m <= BSIZE - size % BSIZE
    ensures EvenWalk(ip, u, off, n, data, size + m, o + m)
  {
    hide Base;
    RoundUp(size, m, ip.ext[data].nblocks);
  }

  lemma EvenEnded(ip: Inode, u: nat, off: nat, n: nat, data: nat, size: nat, o: nat, ps: seq<nat>)
    requires Shaped(ip, u) && Walking(ip, u, off, n, data, size, o, ps) && EvenWalk(ip, u, off, n, data, size, o)
    requires o == off + n
    ensures InOrder(ps, off)
  {
    hide Base, Walkable;
  }

  // ---- what is read ----

  // Part of one block of an extent is that part of the file.
  lemma BlockPart(d: Disk, ip: Inode, u: nat, x: nat, size: nat, data: nat, m: nat)
    requires DiskOk(d) && OnDisk(d, ip, u) && InStep(ip, u, x, data, size) && 0 < m <= BSIZE - size % BSIZE
    ensures ip.ext[data].start + size / BSIZE in d && Whole(d[ip.ext[data].start + size / BSIZE])
    ensures x + m <= Base(ip, u)
    ensures BytesOf(d[ip.ext[data].start + size / BSIZE])[size % BSIZE..size % BSIZE + m] == View(d, ip, u)[x..x + m]
  {
    hide BytesOf, View, Base, Blk, OnDisk;
    RoundUp(size, m, ip.ext[data].nblocks);
    BlkAt(ip, u, x, size, data);
    ViewByte(d, ip, u, x);
    BlkAt(ip, u, x + m - 1, size + m - 1, data);
    var a, b := BytesOf(d[Blk(ip, u, x)])[size % BSIZE..size % BSIZE + m], View(d, ip, u)[x..x + m];
    forall i | 0 <= i < m ensures a[i] == b[i] {
      BlkAt(ip, u, x + i, size + i, data);
      ViewByte(d, ip, u, x + i);
      assert (size + i) / BSIZE == size / BSIZE && (size + i) % BSIZE == size % BSIZE + i;
    }
  }

  // The bytes of v at the given places.
  predicate Picked(v: seq<byte>, ps: seq<nat>, dst: seq<byte>) {
    |dst| == |ps| && forall i :: 0 <= i < |ps| ==> ps[i] < |v| && dst[i] == v[ps[i]]
  }

  lemma PickedMore(v: seq<byte>, ps: seq<nat>, dst: seq<byte>, x: nat, m: nat)
    requires Picked(v, ps, dst) && x + m <= |v|
    ensures Picked(v, ps + Range(x, m), dst + v[x..x + m])
  {
  }

  lemma PickedInOrder(v: seq<byte>, ps: seq<nat>, dst: seq<byte>, off: nat)
    requires Picked(v, ps, dst) && InOrder(ps, off) && off + |ps| <= |v|
    ensures dst == v[off..off + |ps|]
  {
  }

  lemma PickedBoth(v: seq<byte>, ps: seq<nat>, a: seq<byte>, qs: seq<nat>, b: seq<byte>)
    requires Picked(v, ps, a) && Picked(v, qs, b)
    ensures Picked(v, ps + qs, a + b)
  {
  }

  lemma InOrderBoth(ps: seq<nat>, off: nat, qs: seq<nat>)
    ensures InOrder(ps + qs, off) <==> InOrder(ps, off) && InOrder(qs, off + |ps|)
  {
    var rs := ps + qs;
    forall i | 0 <= i < |ps| ensures rs[i] == ps[i] {}
    forall i | 0 <= i < |qs| ensures rs[|ps| + i] == qs[i] {}
  }

  lemma ContentsPart(d: Disk, ip: Inode, u: nat, off: nat, n: nat)
    requires DiskOk(d) && OnDisk(d, ip, u) && off + n <= Min(ip.size, Base(ip, u))
    ensures |Contents(d, ip, u)| == Min(ip.size, Base(ip, u))
    ensures Contents(d, ip, u)[off..off + n] == View(d, ip, u)[off..off + n]
  {
    hide View;
    SliceOfPrefix(View(d, ip, u), Min(ip.size, Base(ip, u)), off, n);
  }

  lemma SliceOfPrefix(v: seq<byte>, k: nat, off: nat, n: nat)
    requires off + n <= k <= |v|
    ensures v[..k][off..off + n] == v[off..off + n]
  {
  }

  // ---- what is written ----

  // v with each byte of src put at its place, in order.
  function Scatter(v: seq<byte>, ps: seq<nat>, src: seq<byte>): (r: seq<byte>)
    requires |ps| == |src| && forall i :: 0 <= i < |ps| ==> ps[i] < |v|
    ensures |r| == |v|
  {
    if ps == [] then v
    else Scatter(v, ps[..|ps| - 1], src[..|ps| - 1])[ps[|ps| - 1] := src[|ps| - 1]]
  }

  lemma ScatterOne(v: seq<byte>, ps: seq<nat>, src: seq<byte>, p: nat, b: byte)
    requires |ps| == |src| && (forall i :: 0 <= i < |ps| ==> ps[i] < |v|) && p < |v|
    ensures forall i :: 0 <= i < |ps + [p]| ==> (ps + [p])[i] < |v|
    ensures Scatter(v, ps + [p], src + [b]) == Scatter(v, ps, src)[p := b]
  {
    assert (ps + [p])[..|ps|] == ps && (src + [b])[..|ps|] == src;
  }

  lemma {:induction false} ScatterChunk(v: seq<byte>, ps: seq<nat>, src: seq<byte>, x: nat, chunk: seq<byte>)
    requires |ps| == |src| && (forall i :: 0 <= i < |ps| ==> ps[i] < |v|) && x + |chunk| <= |v|
    ensures forall i :: 0 <= i < |ps + Range(x, |chunk|)| ==> (ps + Range(x, |chunk|))[i] < |v|
    ensures Scatter(v, ps + Range(x, |chunk|), src + chunk) == Splice(Scatter(v, ps, src), x, chunk)
  {
    hide Scatter, Splice;
    if chunk == [] {
      assert ps + Range(x, |chunk|) == ps && src + chunk == src;
      SpliceNone(Scatter(v, ps, src), x);
    } else {
      var k := |chunk| - 1;
      ScatterChunk(v, ps, src, x, chunk[..k]);
      ScatterOne(v, ps + Range(x, k), src + chunk[..k], x + k, chunk[k]);
      assert ps + Range(x, |chunk|) == ps + Range(x, k) + [x + k];
      assert src + chunk == src + chunk[..k] + [chunk[k]];
      SpliceLast(Scatter(v, ps, src), x, chunk);
    }
  }

  lemma SpliceNone(v: seq<byte>, x: nat)
    requires x <= |v|
    ensures Splice(v, x, []) == v
  {
  }

  lemma SpliceLast(v: seq<byte>, x: nat, chunk: seq<byte>)
    requires chunk != [] && x + |chunk| <= |v|
    ensures Splice(v, x, chunk[..|chunk| - 1])[x + |chunk| - 1 := chunk[|chunk| - 1]] == Splice(v, x, chunk)
  {
  }

  lemma {:induction false} ScatterInOrder(v: seq<byte>, ps: seq<nat>, src: seq<byte>, off: nat)
    requires |ps| == |src| && InOrder(ps, off) && off + |ps| <= |v|
    ensures (forall i :: 0 <= i < |ps| ==> ps[i] < |v|) && Scatter(v, ps, src) == Splice(v, off, src)
    decreases |ps|
  {
    hide Splice;
    if ps == [] {
      assert src == [];
      SpliceNone(v, off);
    } else {
      var k := |ps| - 1;
      ScatterInOrder(v, ps[..k], src[..k], off);
      SpliceLast(v, off, src);
    }
  }

  // ---- how many blocks are written ----

  function BlocksFor(n: nat): nat {
    (n + BSIZE - 1) / BSIZE
  }

  // The blocks that n bytes at off lie in.
  function Touched(off: nat, n: nat): nat {
    if n == 0 then 0 else BlocksFor(off % BSIZE + n)
  }

  // c block writes have taken the first tot of n bytes at off, and unless that is all of
  // them the next write starts on a block boundary.
  predicate Counts(off: nat, tot: nat, n: nat, c: int) {
    tot <= n && (tot == 0 || tot == n || (off + tot) % BSIZE == 0) && c == Touched(off, tot)
  }

  lemma CountsOn(off: nat, tot: nat, n: nat, c: int, m: nat)
    requires Counts(off, tot, n, c) && tot < n && m == Min(n - tot, BSIZE - (off + tot) % BSIZE)
    ensures Counts(off, tot + m, n, c + 1) && m > 0
  {
    if tot > 0 { assert (off % BSIZE + tot) % BSIZE == 0; }
  }

  // The positions lie in different blocks of the file, all before block b.
  predicate Rising(ps: seq<nat>, b: nat) {
    && (forall i, j :: 0 <= i < j < |ps| ==> ps[i] / BSIZE < ps[j] / BSIZE)
    && forall i :: 0 <= i < |ps| ==> ps[i] / BSIZE < b
  }

  lemma RisingMore(ps: seq<nat>, b: nat, k: nat, c: nat)
    requires Rising(ps, b) && b <= k / BSIZE < c
    ensures Rising(ps + [k], c)
  {
  }

  // Then so many different disk blocks are written.
  lemma {:induction false} RisingDistinct(ip: Inode, u: nat, ws: seq<Write>, ps: seq<nat>, b: nat)
    requires u <= |ip.ext| && SelfApart(ip, u) && Rising(ps, b) && |ps| == |ws|
    requires forall i :: 0 <= i < |ps| ==> ps[i] < Base(ip, u) && ws[i].block == Blk(ip, u, ps[i])
    ensures |BlocksOf(ws)| == |ws|
  {
    if ws == [] {
      assert BlocksOf(ws) == {};
    } else {
      var k := |ws| - 1;
      RisingDistinct(ip, u, ws[..k], ps[..k], b);
      OneMoreBlock(ws, k);
      forall i | 0 <= i < k ensures ws[i].block != ws[k].block { SameBlk(ip, u, ps[i], ps[k]); }
      assert ws[k].block !in BlocksOf(ws[..k]);
    }
  }

  lemma OneMoreBlock(ws: seq<Write>, k: nat)
    requires |ws| == k + 1
    ensures BlocksOf(ws) == BlocksOf(ws[..k]) + {ws[k].block}
  {
    forall b | b in BlocksOf(ws[..k]) ensures b in BlocksOf(ws) {
      var i :| 0 <= i < k && ws[..k][i].block == b;
      assert ws[i].block == b;
    }
    forall b | b in BlocksOf(ws) && b != ws[k].block ensures b in BlocksOf(ws[..k]) {
      var i :| 0 <= i < |ws| && ws[i].block == b;
      assert ws[..k][i].block == b;
    }
  }
}
