/**
 The extents of all files on a disk, the bitmap they come from (kernel/fs.c), and what
 giving a file one more extent or writing one block of it changes.
 */
module FileAlloc {
  import opened Prelude
  import opened Blocks
  import opened FileData

  // The extent came from a bitmap byte that is set.
  ghost predicate Owned(bm: seq<byte>, top: nat, start: nat) {
    exists x :: 0 <= x < |bm| && bm[x] != 0 && start == SlotStart(top, x)
  }

  predicate InUse(files: seq<Inode>, used: seq<nat>, f: nat, i: nat) {
    f < |files| && f < |used| && i < used[f] && i < |files[f].ext|
  }

  // The first block a bitmap of n bytes can give out is not below this.
  function DataLow(top: nat, n: nat): int {
    top - n - BSIZE * EXTENT_BLOCKS
  }

  // The extent came from the bitmap, or from mkfs, below everything the bitmap gives out.
  ghost predicate Homed(bm: seq<byte>, top: nat, e: Extent) {
    || (e.nblocks == EXTENT_BLOCKS && Owned(bm, top, e.start))
    || (e.start < DataLow(top, |bm|) && e.start + e.nblocks <= DataLow(top, |bm|))
  }

  ghost predicate AllOwned(files: seq<Inode>, used: seq<nat>, bm: seq<byte>, top: nat) {
    forall f: nat, i: nat :: InUse(files, used, f, i) ==> Homed(bm, top, files[f].ext[i])
  }

  // The extents of files never overlap.
  ghost predicate AllApart(files: seq<Inode>, used: seq<nat>) {
    forall f: nat, g: nat, i: nat, j: nat ::
      InUse(files, used, f, i) && InUse(files, used, g, j) && (f, i) != (g, j) ==>
        Apart(files[f].ext[i], files[g].ext[j])
  }

  // The data blocks that bitmap bytes stand for exist.
  ghost predicate RoomOnDisk(d: Disk, bm: seq<byte>, top: nat) {
    && |bm| % BSIZE == 0 && |bm| + BSIZE * EXTENT_BLOCKS < top
    && forall b :: 0 <= b < top ==> b in d
  }

  ghost predicate StoreOk(d: Disk, files: seq<Inode>, used: seq<nat>, bm: seq<byte>, top: nat) {
    && DiskOk(d) && RoomOnDisk(d, bm, top) && |used| == |files|
    && (forall f :: 0 <= f < |files| ==> OnDisk(d, files[f], used[f]))
    && AllOwned(files, used, bm, top) && AllApart(files, used)
  }

  lemma StoreFacts(d: Disk, files: seq<Inode>, used: seq<nat>, bm: seq<byte>, top: nat, f: nat)
    requires StoreOk(d, files, used, bm, top) && f < |files|
    ensures |used| == |files| && DiskOk(d) && OnDisk(d, files[f], used[f]) && Shaped(files[f], used[f])
  {
  }

  lemma StoreFrame(d: Disk, files: seq<Inode>, used: seq<nat>, bm: seq<byte>, top: nat)
    requires StoreOk(d, files, used, bm, top)
    ensures |used| == |files| && DiskOk(d) && RoomOnDisk(d, bm, top) && |bm| % BSIZE == 0
    ensures forall g :: 0 <= g < |files| ==> OnDisk(d, files[g], used[g])
  {
  }

  lemma SlotOf(bm: seq<byte>, top: nat, start: nat) returns (x: nat)
    requires Owned(bm, top, start)
    ensures x < |bm| && bm[x] != 0 && start == SlotStart(top, x)
  {
    x :| 0 <= x < |bm| && bm[x] != 0 && start == SlotStart(top, x);
  }

  // ---- where the next extent comes from ----

  // The first free bitmap byte, in the order in which the code looks.
  function FirstFree(bm: seq<byte>, x: nat): (r: nat)
    requires x <= |bm|
    ensures x <= r <= |bm| && (r < |bm| ==> bm[r] == 0) && forall y :: x <= y < r ==> bm[y] != 0
    decreases |bm| - x
  {
    if x == |bm| || bm[x] == 0 then x else FirstFree(bm, x + 1)
  }

  lemma FreeIs(bm: seq<byte>)
    ensures FirstFree(bm, 0) <= |bm| && (FirstFree(bm, 0) < |bm| ==> bm[FirstFree(bm, 0)] == 0)
  {
  }

  predicate TakenBy(files: seq<Inode>, used: seq<nat>, start: int) {
    exists f, i ::
      0 <= f < |files| && 0 <= i < |files[f].ext| && InUse(files, used, f, i) && files[f].ext[i].start == start
  }

  // The next extent the bitmap gives is in no file.
  predicate FreeExtent(files: seq<Inode>, used: seq<nat>, bm: seq<byte>, top: nat) {
    FirstFree(bm, 0) < |bm| && !TakenBy(files, used, SlotStart(top, FirstFree(bm, 0)))
  }

  function Grown(files: seq<Inode>, used: seq<nat>, f: nat, start: nat): seq<Inode>
    requires f < |files| && f < |used| && used[f] < |files[f].ext|
  {
    files[f := files[f].(ext := files[f].ext[used[f] := Extent(start, EXTENT_BLOCKS)])]
  }

  // ... and f has got it.
  predicate TookFirst(fa: seq<Inode>, ua: seq<nat>, ba: seq<byte>, fb: seq<Inode>, ub: seq<nat>, bb: seq<byte>,
                      top: nat, f: nat) {
    var x := FirstFree(ba, 0);
    && f < |fa| == |ua| && ua[f] < |fa[f].ext| && x < |ba| && SlotStart(top, x) >= 0
    && fb == Grown(fa, ua, f, SlotStart(top, x)) && ub == ua[f := ua[f] + 1] && bb == ba[x := 0xFF]
  }

  // f can be given c more extents, none of them in use.
  predicate CanGrow(files: seq<Inode>, used: seq<nat>, bm: seq<byte>, top: nat, f: nat, c: nat)
    requires f < |files| && f < |used|
    decreases c
  {
    c == 0 ||
    (var x := FirstFree(bm, 0);
     && used[f] < EXTENT_N && used[f] < |files[f].ext| && x < |bm| && SlotStart(top, x) >= 0
     && !TakenBy(files, used, SlotStart(top, x))
     && CanGrow(Grown(files, used, f, SlotStart(top, x)), used[f := used[f] + 1], bm[x := 0xFF], top, f, c - 1))
  }

  // The bitmap once c bytes of it have been given out.
  function Marked(bm: seq<byte>, c: nat): (r: seq<byte>)
    ensures |r| == |bm|
    decreases c
  {
    if c == 0 || FirstFree(bm, 0) == |bm| then bm else Marked(bm[FirstFree(bm, 0) := 0xFF], c - 1)
  }

  lemma {:induction false} MarkedNext(bm: seq<byte>, c: nat)
    requires FirstFree(Marked(bm, c), 0) < |bm|
    ensures Marked(bm, c + 1) == Marked(bm, c)[FirstFree(Marked(bm, c), 0) := 0xFF]
    decreases c
  {
    hide FirstFree;
    if c > 0 && FirstFree(bm, 0) < |bm| { MarkedNext(bm[FirstFree(bm, 0) := 0xFF], c - 1); }
  }

  // Marking frees nothing.
  lemma {:induction false} MarkedKeeps(bm: seq<byte>, c: nat, x: nat)
    requires x < |bm| && bm[x] != 0
    ensures Marked(bm, c)[x] != 0
    decreases c
  {
    if c > 0 && FirstFree(bm, 0) < |bm| { MarkedKeeps(bm[FirstFree(bm, 0) := 0xFF], c - 1, x); }
  }

  // CanGrow, one round at a time.
  lemma GrowStep(files: seq<Inode>, used: seq<nat>, bm: seq<byte>, top: nat, f: nat, c: nat)
    requires f < |files| && f < |used|
    ensures c == 0 ==> CanGrow(files, used, bm, top, f, c)
    ensures c > 0 && CanGrow(files, used, bm, top, f, c) ==> used[f] < EXTENT_N && FreeExtent(files, used, bm, top)
  {
  }

  lemma GrowNext(fa: seq<Inode>, ua: seq<nat>, ba: seq<byte>, fb: seq<Inode>, ub: seq<nat>, bb: seq<byte>, top: nat,
                 f: nat, c: nat)
    requires TookFirst(fa, ua, ba, fb, ub, bb, top, f) && FreeExtent(fa, ua, ba, top) && ua[f] < EXTENT_N && c > 0
    ensures f < |fb| == |fa| && |ub| == |ua| && (CanGrow(fa, ua, ba, top, f, c) <==> CanGrow(fb, ub, bb, top, f, c - 1))
  {
    hide FirstFree, SlotStart, TakenBy;
  }

  lemma SlotInData(top: nat, n: nat, x: nat)
    requires x < n && n % BSIZE == 0
    ensures DataLow(top, n) <= SlotStart(top, x) <= top - EXTENT_BLOCKS
  {
    assert x / BSIZE * BSIZE <= n - BSIZE;
  }

  // The extent of a bitmap byte keeps apart from every extent that starts elsewhere.
  lemma HomedApart(bm: seq<byte>, top: nat, x: nat, a: Extent, b: Extent)
    requires a == Extent(a.start, EXTENT_BLOCKS) && a.start == SlotStart(top, x) && x < |bm| && |bm| % BSIZE == 0
    requires Homed(bm, top, b) && a.start != b.start
    ensures Apart(a, b) && Apart(b, a)
  {
    hide SlotStart, DataLow;
    SlotInData(top, |bm|, x);
    if b.nblocks == EXTENT_BLOCKS && Owned(bm, top, b.start) {
      var y := SlotOf(bm, top, b.start);
      SlotsOverlap(top, x, y);
    }
  }

  lemma ClashIs(d: Disk, files: seq<Inode>, used: seq<nat>, bm: seq<byte>, top: nat, f: nat, start: nat)
    requires StoreOk(d, files, used, bm, top) && f < |files| && used[f] < |files[f].ext| && TakenBy(files, used, start)
    ensures !AllApart(Grown(files, used, f, start), used[f := used[f] + 1])
  {
    hide DiskOk, AllOwned;
    var g, i :|
      0 <= g < |files| && 0 <= i < |files[g].ext| && InUse(files, used, g, i) && files[g].ext[i].start == start;
    var nf, nu := Grown(files, used, f, start), used[f := used[f] + 1];
    assert OnDisk(d, files[g], used[g]);
    assert InUse(nf, nu, g, i) && InUse(nf, nu, f, used[f]) && (g, i) != (f, used[f]);
    assert !Apart(nf[g].ext[i], nf[f].ext[used[f]]);
  }

  // The bitmap bytes still free.
  function FreeSet(bm: seq<byte>): set<nat> {
    set x | 0 <= x < |bm| && bm[x] == 0
  }

  lemma NoneFree(bm: seq<byte>)
    ensures |FreeSet(bm)| == 0 <==> FirstFree(bm, 0) == |bm|
  {
    var x := FirstFree(bm, 0);
    if x < |bm| { assert x in FreeSet(bm); } else { assert FreeSet(bm) == {}; }
  }

  lemma FreeTaken(bm: seq<byte>, x: nat)
    requires x < |bm| && bm[x] == 0
    ensures |FreeSet(bm[x := 0xFF])| == |FreeSet(bm)| - 1
  {
    assert FreeSet(bm[x := 0xFF]) == FreeSet(bm) - {x};
  }

  // Every extent given out was free.
  lemma {:induction false} GrowFree(files: seq<Inode>, used: seq<nat>, bm: seq<byte>, top: nat, f: nat, c: nat)
    requires f < |files| && f < |used| && CanGrow(files, used, bm, top, f, c)
    ensures |FreeSet(Marked(bm, c))| + c == |FreeSet(bm)|
    decreases c
  {
    hide FreeSet, SlotStart, TakenBy, FirstFree;
    if c > 0 {
      var x := FirstFree(bm, 0);
      FreeIs(bm);
      FreeTaken(bm, x);
      GrowFree(Grown(files, used, f, SlotStart(top, x)), used[f := used[f] + 1], bm[x := 0xFF], top, f, c - 1);
    }
  }

  lemma NotTaken(files: seq<Inode>, used: seq<nat>, bm: seq<byte>, top: nat, x: nat)
    requires AllOwned(files, used, bm, top) && |bm| == BSIZE && x < |bm| && bm[x] == 0
    ensures !TakenBy(files, used, SlotStart(top, x))
  {
    SlotInData(top, |bm|, x);
    forall f, i | 0 <= f < |files| && 0 <= i < |files[f].ext| && InUse(files, used, f, i)
      ensures files[f].ext[i].start != SlotStart(top, x)
    {
      if Owned(bm, top, files[f].ext[i].start) {
        var y := SlotOf(bm, top, files[f].ext[i].start);
        SlotsOverlap(top, x, y);
      }
    }
  }

  lemma OneMore(d: Disk, files: seq<Inode>, used: seq<nat>, bm: seq<byte>, top: nat, f: nat, x: nat)
    requires StoreOk(d, files, used, bm, top) && |bm| == BSIZE && f < |files| && used[f] < EXTENT_N && x < |bm|
    requires bm[x] == 0
    ensures |files[f].ext| == EXTENT_N && SlotStart(top, x) >= 0 && !TakenBy(files, used, SlotStart(top, x))
    ensures |Grown(files, used, f, SlotStart(top, x))| == |files|
    ensures StoreOk(d, Grown(files, used, f, SlotStart(top, x)), used[f := used[f] + 1], bm[x := 0xFF], top)
    ensures |FreeSet(bm[x := 0xFF])| == |FreeSet(bm)| - 1
  {
    hide SlotStart, FreeSet, TakenBy;
    StoreFacts(d, files, used, bm, top, f);
    NotTaken(files, used, bm, top, x);
    NewExtent(d, files, used, bm, top, f, x);
    FreeTaken(bm, x);
  }

  // With one bitmap block the extents given out never clash.
  lemma {:induction false} OneBitmapBlock(d: Disk, files: seq<Inode>, used: seq<nat>, bm: seq<byte>, top: nat, f: nat,
                                          c: nat)
    requires StoreOk(d, files, used, bm, top) && |bm| == BSIZE && f < |files|
    ensures CanGrow(files, used, bm, top, f, c) <==> c == 0 || (used[f] + c <= EXTENT_N && c <= |FreeSet(bm)|)
    decreases c
  {
    hide CanGrow, StoreOk, FreeSet, SlotStart, TakenBy, FirstFree, Grown, OnDisk, DiskOk, Shaped;
    StoreFacts(d, files, used, bm, top, f);
    GrowStep(files, used, bm, top, f, c);
    if c > 0 {
      NoneFree(bm);
      FreeIs(bm);
      var x := FirstFree(bm, 0);
      if used[f] < EXTENT_N && x < |bm| {
        OneMore(d, files, used, bm, top, f, x);
        var nf, nu, nb := Grown(files, used, f, SlotStart(top, x)), used[f := used[f] + 1], bm[x := 0xFF];
        GrowNext(files, used, bm, nf, nu, nb, top, f, c);
        OneBitmapBlock(d, nf, nu, nb, top, f, c - 1);
      }
    }
  }

  // ---- places in a file ----

  // Byte x is offset `size` of extent `data`.
  predicate InStep(ip: Inode, u: nat, x: nat, data: nat, size: nat) {
    data < u <= |ip.ext| && size < ip.ext[data].nblocks * BSIZE && x == Base(ip, data) + size
  }

  lemma Congruent(b: nat, n: nat)
    requires b % BSIZE == 0
    ensures (b + n) % BSIZE == n % BSIZE
  {
  }

  lemma BlkAt(ip: Inode, u: nat, x: nat, size: nat, data: nat)
    requires InStep(ip, u, x, data, size)
    ensures x < Base(ip, u) && Blk(ip, u, x) == ip.ext[data].start + size / BSIZE && x % BSIZE == size % BSIZE
  {
    assert Base(ip, data + 1) == Base(ip, data) + ip.ext[data].nblocks * BSIZE;
    ExtIs(ip, u, x, data);
    Congruent(Base(ip, data), size);
  }

  // Only the extents before k matter for where it begins.
  lemma {:induction false} SamePrefix(ip: Inode, np: Inode, k: nat)
    requires k <= |ip.ext| && k <= |np.ext| && forall i :: 0 <= i < k ==> np.ext[i] == ip.ext[i]
    ensures Base(np, k) == Base(ip, k)
  {
    if k > 0 { SamePrefix(ip, np, k - 1); }
  }

  lemma SamePlace(ip: Inode, u: nat, np: Inode, nu: nat, x: nat)
    requires u <= nu <= |np.ext| && u <= |ip.ext| && (forall i :: 0 <= i < u ==> np.ext[i] == ip.ext[i])
    requires x < Base(ip, u)
    ensures x < Base(np, nu) && Blk(np, nu, x) == Blk(ip, u, x)
  {
    hide Base;
    var k := ExtOf(ip, u, x);
    SamePrefix(ip, np, k);
    SamePrefix(ip, np, k + 1);
    ExtIs(np, nu, x, k);
  }

  // Through the inode as it was, a file that has grown shows what it then had room for.
  lemma OldInode(d: Disk, ip: Inode, u: nat, np: Inode, nu: nat)
    requires DiskOk(d) && OnDisk(d, np, nu) && Shaped(ip, u) && u <= nu && np.ext[..u] == ip.ext[..u]
    ensures OnDisk(d, ip, u) && Base(ip, u) <= Base(np, nu) && View(d, ip, u) == View(d, np, nu)[..Base(ip, u)]
  {
    hide DiskOk, View, Byte, Base, Blk;
    forall i | 0 <= i < u ensures ip.ext[i] == np.ext[i] { assert ip.ext[..u][i] == np.ext[..u][i]; }
    assert OnDisk(d, ip, u);
    SamePrefix(ip, np, u);
    BaseGrows(np, u, nu);
    forall k | 0 <= k < Base(ip, u) ensures View(d, ip, u)[k] == View(d, np, nu)[k] {
      SamePlace(ip, u, np, nu, k);
      ViewByte(d, ip, u, k);
      ViewByte(d, np, nu, k);
    }
  }

  function SetSize(files: seq<Inode>, f: nat, size: nat): seq<Inode>
    requires f < |files|
  {
    files[f := files[f].(size := size)]
  }

  lemma SizeGrows(d: Disk, files: seq<Inode>, used: seq<nat>, bm: seq<byte>, top: nat, f: nat, size: nat)
    requires StoreOk(d, files, used, bm, top) && f < |files|
    ensures StoreOk(d, files[f := files[f].(size := size)], used, bm, top)
    ensures |used| == |files| && DiskOk(d) && OnDisk(d, files[f], used[f])
    ensures OnDisk(d, files[f].(size := size), used[f])
    ensures View(d, files[f].(size := size), used[f]) == View(d, files[f], used[f])
  {
    hide DiskOk, Byte, View, Homed;
    var nf := files[f := files[f].(size := size)];
    assert OnDisk(d, files[f], used[f]);
    forall g: nat, i: nat ensures InUse(nf, used, g, i) <==> InUse(files, used, g, i) {}
    forall g | 0 <= g < |nf| ensures OnDisk(d, nf[g], used[g]) { assert OnDisk(d, files[g], used[g]); }
    OldInode(d, nf[f], used[f], files[f], used[f]);
    SamePrefix(files[f], nf[f], used[f]);
  }

  // ---- a new extent ----

  // A free bitmap byte whose extent is not in use gives an extent apart from all others.
  lemma NewExtent(d: Disk, files: seq<Inode>, used: seq<nat>, bm: seq<byte>, top: nat, f: nat, x: nat)
    requires StoreOk(d, files, used, bm, top) && f < |files| && used[f] < EXTENT_N && x < |bm| && bm[x] == 0
    requires !TakenBy(files, used, SlotStart(top, x))
    ensures OnDisk(d, files[f], used[f]) && SlotStart(top, x) > 0
    ensures forall k :: SlotStart(top, x) <= k < SlotStart(top, x) + EXTENT_BLOCKS ==> k in d
    ensures var nf, nu := Grown(files, used, f, SlotStart(top, x)), used[f := used[f] + 1];
      && StoreOk(d, nf, nu, bm[x := 0xFF], top)
      && View(d, nf[f], nu[f]) == View(d, files[f], used[f]) + ExtentBytes(d, SlotStart(top, x))
  {
    hide View, TakenBy, DiskOk;
    assert OnDisk(d, files[f], used[f]);
    assert SlotStart(top, x) > 0;
    var nf, nu := Grown(files, used, f, SlotStart(top, x)), used[f := used[f] + 1];
    NewOwned(files, used, bm, top, f, x);
    NewApart(files, used, bm, top, f, x);
    NewOnDisk(d, files, used, top, f, x);
    NewView(d, files[f], used[f], Extent(SlotStart(top, x), EXTENT_BLOCKS));
  }

  lemma NewOwned(files: seq<Inode>, used: seq<nat>, bm: seq<byte>, top: nat, f: nat, x: nat)
    requires |used| == |files| && f < |files| && used[f] < |files[f].ext| && x < |bm| && bm[x] == 0
    requires SlotStart(top, x) >= 0
    requires AllOwned(files, used, bm, top)
    ensures AllOwned(Grown(files, used, f, SlotStart(top, x)), used[f := used[f] + 1], bm[x := 0xFF], top)
  {
    hide SlotStart, DataLow;
    var nf, nu, nb := Grown(files, used, f, SlotStart(top, x)), used[f := used[f] + 1], bm[x := 0xFF];
    forall g: nat, i: nat | InUse(nf, nu, g, i) ensures Homed(nb, top, nf[g].ext[i]) {
      if g == f && i == used[f] {
        assert nb[x] != 0;
      } else {
        assert InUse(files, used, g, i);
        if Owned(bm, top, files[g].ext[i].start) {
          var y := SlotOf(bm, top, files[g].ext[i].start);
          assert nb[y] != 0;
        }
      }
    }
  }

  lemma NewApart(files: seq<Inode>, used: seq<nat>, bm: seq<byte>, top: nat, f: nat, x: nat)
    requires |used| == |files| && f < |files| && used[f] < |files[f].ext| && SlotStart(top, x) >= 0 && x < |bm|
    requires |bm| % BSIZE == 0
    requires AllOwned(files, used, bm, top) && AllApart(files, used) && !TakenBy(files, used, SlotStart(top, x))
    ensures AllApart(Grown(files, used, f, SlotStart(top, x)), used[f := used[f] + 1])
  {
    hide Homed, Apart, SlotStart;
    var e := Extent(SlotStart(top, x), EXTENT_BLOCKS);
    var nf, nu := Grown(files, used, f, SlotStart(top, x)), used[f := used[f] + 1];
    forall g: nat, i: nat | InUse(files, used, g, i) ensures Apart(e, files[g].ext[i]) && Apart(files[g].ext[i], e) {
      assert files[g].ext[i].start != SlotStart(top, x);
      HomedApart(bm, top, x, e, files[g].ext[i]);
    }
    forall g: nat, h: nat, i: nat, j: nat | InUse(nf, nu, g, i) && InUse(nf, nu, h, j) && (g, i) != (h, j)
      ensures Apart(nf[g].ext[i], nf[h].ext[j])
    {
      assert (g, i) != (f, used[f]) ==> InUse(files, used, g, i) && nf[g].ext[i] == files[g].ext[i];
      assert (h, j) != (f, used[f]) ==> InUse(files, used, h, j) && nf[h].ext[j] == files[h].ext[j];
    }
  }

  lemma NewOnDisk(d: Disk, files: seq<Inode>, used: seq<nat>, top: nat, f: nat, x: nat)
    requires |used| == |files| && f < |files| && used[f] < EXTENT_N && SlotStart(top, x) >= 0
    requires forall g :: 0 <= g < |files| ==> OnDisk(d, files[g], used[g])
    requires forall b :: 0 <= b < top ==> b in d
    ensures |files[f].ext| == EXTENT_N
    ensures forall g :: 0 <= g < |files| ==>
      OnDisk(d, Grown(files, used, f, SlotStart(top, x))[g], used[f := used[f] + 1][g])
  {
    assert OnDisk(d, files[f], used[f]);
  }

  lemma NewView(d: Disk, ip: Inode, u: nat, e: Extent)
    requires DiskOk(d) && OnDisk(d, ip, u) && u < EXTENT_N && OnDisk(d, ip.(ext := ip.ext[u := e]), u + 1)
    requires e.nblocks == EXTENT_BLOCKS && forall b :: e.start <= b < e.start + EXTENT_BLOCKS ==> b in d
    ensures View(d, ip.(ext := ip.ext[u := e]), u + 1) == View(d, ip, u) + ExtentBytes(d, e.start)
  {
    hide Byte, DiskOk, View, ExtentBytes, Blk;
    var n := ip.(ext := ip.ext[u := e]);
    SamePrefix(ip, n, u);
    assert Base(n, u + 1) == Base(n, u) + EXTENT_BYTES;
    forall k | 0 <= k < Base(n, u + 1)
      ensures View(d, n, u + 1)[k] == (View(d, ip, u) + ExtentBytes(d, e.start))[k]
    {
      ViewByte(d, n, u + 1, k);
      if k < Base(ip, u) {
        ViewByte(d, ip, u, k);
        SamePlace(ip, u, n, u + 1, k);
      } else {
        BlkAt(n, u + 1, k, k - Base(ip, u), u);
        ExtentByte(d, e.start, k - Base(ip, u));
      }
    }
  }

  lemma ExtentByte(d: Disk, start: nat, k: nat)
    requires DiskOk(d) && (forall b :: start <= b < start + EXTENT_BLOCKS ==> b in d) && k < EXTENT_BYTES
    ensures start + k / BSIZE in d && ExtentBytes(d, start)[k] == Byte(d, start + k / BSIZE, k % BSIZE)
  {
  }

  // f may have gained extents of eight blocks, from lo on; nothing else changed.
  ghost predicate OnlyGrew(fa: seq<Inode>, ua: seq<nat>, fb: seq<Inode>, ub: seq<nat>, f: nat, lo: int) {
    && f < |fa| == |fb| == |ua| == |ub| && fb[f].size == fa[f].size
    && ua[f] <= ub[f] && ua[f] <= |fa[f].ext| == |fb[f].ext| && fb[f].ext[..ua[f]] == fa[f].ext[..ua[f]]
    && (forall i :: ua[f] <= i < ub[f] && i < |fb[f].ext| ==>
          lo <= fb[f].ext[i].start && fb[f].ext[i].nblocks == EXTENT_BLOCKS)
    && forall g :: 0 <= g < |fa| && g != f ==> fb[g] == fa[g] && ub[g] == ua[g]
  }

  lemma GrewMore(fa: seq<Inode>, ua: seq<nat>, fb: seq<Inode>, ub: seq<nat>, bb: seq<byte>,
                 fc: seq<Inode>, uc: seq<nat>, bc: seq<byte>, top: nat, f: nat)
    requires OnlyGrew(fa, ua, fb, ub, f, DataLow(top, |bb|)) && TookFirst(fb, ub, bb, fc, uc, bc, top, f)
    requires |bb| % BSIZE == 0
    ensures OnlyGrew(fa, ua, fc, uc, f, DataLow(top, |bb|)) && |fc| == |fb| && uc[f] == ub[f] + 1
    ensures |bc| == |bb| && |FreeSet(bc)| == |FreeSet(bb)| - 1
  {
    hide SlotStart, FreeSet, DataLow;
    SlotInData(top, |bb|, FirstFree(bb, 0));
    FreeTaken(bb, FirstFree(bb, 0));
    assert fc[f].ext[..ua[f]] == fb[f].ext[..ua[f]];
  }

  // ---- one block written ----

  // Every file but f holds what it held.
  ghost predicate OthersSame(a: Disk, b: Disk, files: seq<Inode>, used: seq<nat>, f: nat) {
    forall g :: 0 <= g < |files| && g < |used| && g != f && DiskOk(a) && DiskOk(b) && OnDisk(a, files[g], used[g]) ==>
      OnDisk(b, files[g], used[g]) && View(b, files[g], used[g]) == View(a, files[g], used[g])
  }

  lemma OthersStart(d: Disk, files: seq<Inode>, used: seq<nat>, f: nat)
    ensures OthersSame(d, d, files, used, f)
  {
  }

  lemma SameAgain(a: Disk, b: Disk, c: Disk, files: seq<Inode>, used: seq<nat>, f: nat)
    requires OthersSame(a, b, files, used, f) && OthersSame(b, c, files, used, f) && DiskOk(a) && DiskOk(b) && DiskOk(c)
    ensures OthersSame(a, c, files, used, f)
  {
    hide View, DiskOk, OnDisk;
  }

  lemma OthersAre(a: Disk, b: Disk, files: seq<Inode>, used: seq<nat>, f: nat)
    requires OthersSame(a, b, files, used, f) && DiskOk(a) && DiskOk(b) && |used| == |files|
    requires forall g :: 0 <= g < |files| && g != f ==> OnDisk(a, files[g], used[g]) && OnDisk(b, files[g], used[g])
    ensures forall g :: 0 <= g < |files| && g != f ==> View(b, files[g], used[g]) == View(a, files[g], used[g])
  {
    hide View, DiskOk, OnDisk;
  }

  // The other files, while f gained an extent and a block of it was written.
  lemma GrowthViews(d: Disk, n: Disk, fa: seq<Inode>, ua: seq<nat>, fb: seq<Inode>, ub: seq<nat>, f: nat)
    requires DiskOk(d) && DiskOk(n) && |ua| == |fa| == |fb| == |ub| && OthersSame(d, n, fb, ub, f)
    requires forall g :: 0 <= g < |fa| ==> OnDisk(d, fa[g], ua[g])
    requires forall g :: 0 <= g < |fa| && g != f ==> fb[g] == fa[g] && ub[g] == ua[g]
    ensures forall g :: 0 <= g < |fa| && g != f ==>
      OnDisk(n, fb[g], ub[g]) && View(n, fb[g], ub[g]) == View(d, fa[g], ua[g])
  {
    hide View, DiskOk, OnDisk;
  }

  lemma ElsewhereStart(d: Disk, ip: Inode, u: nat)
    requires u <= |ip.ext|
    ensures Elsewhere(d, d, ip, u)
  {
  }

  lemma ElsewhereAgain(a: Disk, b: Disk, c: Disk, ip: Inode, u: nat)
    requires Elsewhere(a, b, ip, u) && Elsewhere(b, c, ip, u)
    ensures Elsewhere(a, c, ip, u)
  {
  }

  // A change within one block of f keeps the store and shows in f only.
  lemma AllPatched(d: Disk, files: seq<Inode>, used: seq<nat>, bm: seq<byte>, top: nat, f: nat, k: nat, src: seq<byte>)
    requires StoreOk(d, files, used, bm, top) && f < |files| && src != [] && k + |src| <= Base(files[f], used[f])
    requires k % BSIZE + |src| <= BSIZE
    ensures Blk(files[f], used[f], k) in d
    ensures var n := Stored(d, Blk(files[f], used[f], k), k % BSIZE, src);
      && StoreOk(n, files, used, bm, top) && OthersSame(d, n, files, used, f)
      && View(n, files[f], used[f]) == Splice(View(d, files[f], used[f]), k, src)
  {
    hide View, Splice, AllOwned, Stored, DiskOk, Blk, Base, InFile;
    assert OnDisk(d, files[f], used[f]);
    FileApart(files, used, f);
    PatchView(d, files[f], used[f], k, src);
    PatchElsewhere(d, files[f], used[f], k, src);
    var b := Blk(files[f], used[f], k);
    forall g | 0 <= g < |files| && g != f
      ensures OnDisk(Stored(d, b, k % BSIZE, src), files[g], used[g])
      ensures View(Stored(d, b, k % BSIZE, src), files[g], used[g]) == View(d, files[g], used[g])
    {
      assert OnDisk(d, files[g], used[g]);
      NotInOther(files, used, f, g, b);
      PatchOther(d, b, k % BSIZE, src, files[g], used[g]);
    }
  }

  lemma FileApart(files: seq<Inode>, used: seq<nat>, f: nat)
    requires AllApart(files, used) && f < |files| == |used| && used[f] <= |files[f].ext|
    ensures SelfApart(files[f], used[f])
  {
    forall i, j | 0 <= i < j < used[f] ensures Apart(files[f].ext[i], files[f].ext[j]) {
      assert InUse(files, used, f, i) && InUse(files, used, f, j);
    }
  }

  lemma NotInOther(files: seq<Inode>, used: seq<nat>, f: nat, g: nat, b: nat)
    requires AllApart(files, used) && f < |files| == |used| && g < |files| && f != g && InFile(files[f], used[f], b)
    ensures !InFile(files[g], used[g], b)
  {
    var i :| 0 <= i < used[f] && i < |files[f].ext| && InExtent(files[f].ext[i], b);
    forall j | 0 <= j < used[g] && j < |files[g].ext| ensures !InExtent(files[g].ext[j], b) {
      assert InUse(files, used, f, i) && InUse(files, used, g, j);
      assert Apart(files[f].ext[i], files[g].ext[j]);
    }
  }

  // What the disk holds where the next extent will be.
  ghost function NextRaw(d: Disk, bm: seq<byte>, top: nat): seq<byte> {
    var b := SlotStart(top, FirstFree(bm, 0));
    if DiskOk(d) && b >= 0 && forall k :: b <= k < b + EXTENT_BLOCKS ==> k in d then ExtentBytes(d, b) else []
  }

  // Writing into f leaves alone what the next extent holds.
  lemma SameRaw(a: Disk, b: Disk, files: seq<Inode>, used: seq<nat>, bm: seq<byte>, top: nat, f: nat)
    requires StoreOk(a, files, used, bm, top) && f < |files| && DiskOk(b) && Elsewhere(a, b, files[f], used[f])
    requires FreeExtent(files, used, bm, top)
    ensures NextRaw(b, bm, top) == NextRaw(a, bm, top)
  {
    hide BytesOf, FirstFree, SlotStart, StoreOk, InFile;
    var start := SlotStart(top, FirstFree(bm, 0));
    StoreFacts(a, files, used, bm, top, f);
    forall k | start <= k < start + EXTENT_BLOCKS && k in a ensures b[k] == a[k] {
      NextApart(a, files, used, bm, top, f, k);
    }
  }

  lemma NextApart(d: Disk, files: seq<Inode>, used: seq<nat>, bm: seq<byte>, top: nat, f: nat, k: nat)
    requires StoreOk(d, files, used, bm, top) && f < |files| && FreeExtent(files, used, bm, top)
    requires var start := SlotStart(top, FirstFree(bm, 0)); start <= k < start + EXTENT_BLOCKS
    ensures !InFile(files[f], used[f], k)
  {
    hide SlotStart, FirstFree, DiskOk, AllApart, Homed;
    var x := FirstFree(bm, 0);
    FreeIs(bm);
    SlotInData(top, |bm|, x);
    forall i | 0 <= i < used[f] && i < |files[f].ext| ensures !InExtent(files[f].ext[i], k) {
      assert InUse(files, used, f, i);
      assert files[f].ext[i].start != SlotStart(top, x);
      HomedApart(bm, top, x, Extent(SlotStart(top, x), EXTENT_BLOCKS), files[f].ext[i]);
    }
  }
}
