/**
 What a crash leaves of the file system (kernel/fs.c, kernel/file.c): the bitmap, the
 inodes and the data are read back from the disk.

 A write at the end of a file makes the bitmap writes, outside the log, then one
 transaction for the data blocks and one for the block that holds the inode.
 */
module FileCrash {
  import opened Prelude
  import opened Blocks
  import opened CrashLog
  import opened FileData
  import opened FileAlloc

  const DINODE_WORDS := 16
  const PER_BLOCK := 8

  // ---- inodes on disk ----

  // struct dinode number `slot` of a block
  function InodeIn(b: Block, slot: nat): Inode
    requires Whole(b) && slot < PER_BLOCK
  {
    var at := DINODE_WORDS * slot;
    Inode(b.words[at + 1],
          seq(EXTENT_N, i requires 0 <= i < EXTENT_N => Extent(b.words[at + 2 + 2 * i], b.words[at + 3 + 2 * i])))
  }

  predicate Storable(ip: Inode) {
    && |ip.ext| == EXTENT_N && ip.size < 0x1_0000_0000
    && forall i :: 0 <= i < EXTENT_N ==> ip.ext[i].start < 0x1_0000_0000 && ip.ext[i].nblocks < 0x1_0000_0000
  }

  // updatei: the block with the size and extents of one inode replaced.
  function WithInode(b: Block, slot: nat, ip: Inode): (r: Block)
    requires Whole(b) && slot < PER_BLOCK && Storable(ip)
    ensures Whole(r)
  {
    Block(seq(BLOCK_WORDS, k requires 0 <= k < BLOCK_WORDS => InodeWord(b, slot, ip, k)))
  }

  function InodeWord(b: Block, slot: nat, ip: Inode, k: nat): word
    requires Whole(b) && slot < PER_BLOCK && Storable(ip) && k < BLOCK_WORDS
  {
    var at := DINODE_WORDS * slot;
    if k == at + 1 then ip.size
    else if at + 2 <= k < at + DINODE_WORDS then
      (var e := ip.ext[(k - at - 2) / 2]; if (k - at) % 2 == 0 then e.start else e.nblocks)
    else b.words[k]
  }

  lemma InodeBack(b: Block, slot: nat, ip: Inode, other: nat)
    requires Whole(b) && slot < PER_BLOCK && Storable(ip) && other < PER_BLOCK
    ensures InodeIn(WithInode(b, slot, ip), other) == if other == slot then ip else InodeIn(b, other)
  {
    var x, y := InodeIn(WithInode(b, slot, ip), other), if other == slot then ip else InodeIn(b, other);
    forall i | 0 <= i < EXTENT_N ensures x.ext[i] == y.ext[i] {}
  }

  // ---- the whole disk ----

  // Where the inode of a file is.
  datatype Home = Home(block: nat, slot: nat)

  // The start of the log, of the inodes (the bitmap ends there) and the end of the data.
  datatype Format = Format(ls: nat, inodestart: nat, top: nat, home: seq<Home>)

  // The bitmap block of bitmap byte x, in the order in which the code looks at them
  function MapBlock(fm: Format, x: nat): int {
    fm.inodestart - 1 - x / BSIZE
  }

  // Block b is one of the blocks of a bitmap of n bytes.
  predicate InMap(fm: Format, n: nat, b: nat) {
    fm.inodestart - n / BSIZE <= b < fm.inodestart
  }

  predicate IsHome(fm: Format, b: nat) {
    exists f :: 0 <= f < |fm.home| && fm.home[f].block == b
  }

  // The log, the bitmap and the inodes lie below the data and keep apart.
  predicate Formatted(fm: Format, n: nat) {
    var lo := DataLow(fm.top, n);
    && fm.top < 0x1_0000_0000 && n % BSIZE == 0 && n / BSIZE <= fm.inodestart <= lo && fm.ls + LOG_BLOCKS <= lo
    && (fm.inodestart <= fm.ls || fm.ls + LOG_BLOCKS <= fm.inodestart - n / BSIZE)
    && (forall f :: 0 <= f < |fm.home| ==>
          var b := fm.home[f].block; b < lo && fm.home[f].slot < PER_BLOCK && !InLog(fm.ls, b) && !InMap(fm, n, b))
    && forall f, g :: 0 <= f < g < |fm.home| ==> fm.home[f] != fm.home[g]
  }

  predicate Kept(fm: Format, n: nat, b: nat) {
    InLog(fm.ls, b) || InMap(fm, n, b) || IsHome(fm, b)
  }

  // No file has a block of the log, the bitmap or the inodes.
  ghost predicate OwnBlocks(fm: Format, n: nat, files: seq<Inode>, used: seq<nat>) {
    forall f: nat, b: nat :: f < |files| && f < |used| && InFile(files[f], used[f], b) ==> !Kept(fm, n, b)
  }

  predicate IsAt(d: Disk, h: Home, ip: Inode) {
    h.block in d && Whole(d[h.block]) && h.slot < PER_BLOCK && InodeIn(d[h.block], h.slot) == ip
  }

  predicate MapByte(d: Disk, fm: Format, x: nat, v: byte) {
    var b := MapBlock(fm, x);
    b >= 0 && b in d && Whole(d[b]) && BytesOf(d[b])[x % BSIZE] == v
  }

  predicate InodesOn(d: Disk, fm: Format, files: seq<Inode>) {
    |files| == |fm.home| && forall f :: 0 <= f < |files| ==> IsAt(d, fm.home[f], files[f])
  }

  predicate MapOn(d: Disk, fm: Format, bm: seq<byte>) {
    forall x :: 0 <= x < |bm| ==> MapByte(d, fm, x, bm[x])
  }

  datatype State = State(disk: Disk, files: seq<Inode>, used: seq<nat>, bm: seq<byte>)

  // The inodes and the bitmap are the ones on disk, no two files share a block, every
  // extent in use is marked or came from mkfs, and the log is idle.
  ghost predicate Stands(s: State, fm: Format) {
    && StoreOk(s.disk, s.files, s.used, s.bm, fm.top) && Formatted(fm, |s.bm|)
    && Recoverable(s.disk, fm.ls) && s.disk[fm.ls] == ZeroBlock()
    && InodesOn(s.disk, fm, s.files) && MapOn(s.disk, fm, s.bm) && OwnBlocks(fm, |s.bm|, s.files, s.used)
  }

  // File g, as the inode in s says, on a disk
  ghost predicate Holds(d: Disk, ip: Inode, u: nat, c: seq<byte>) {
    DiskOk(d) && OnDisk(d, ip, u) && Contents(d, ip, u) == c
  }

  // The disks hold the same in the file's blocks.
  ghost predicate AgreeOn(a: Disk, b: Disk, ip: Inode, u: nat) {
    forall k: nat :: InFile(ip, u, k) ==> (k in a <==> k in b) && (k in a ==> a[k] == b[k])
  }

  lemma SameContents(a: Disk, b: Disk, ip: Inode, u: nat)
    requires DiskOk(a) && DiskOk(b) && OnDisk(a, ip, u) && AgreeOn(a, b, ip, u)
    ensures OnDisk(b, ip, u) && Contents(b, ip, u) == Contents(a, ip, u)
  {
    hide Byte, DiskOk, View, Base, Blk;
    forall i, k | 0 <= i < u && InExtent(ip.ext[i], k) ensures k in b { assert InFile(ip, u, k); }
    assert OnDisk(b, ip, u);
    forall x | 0 <= x < Base(ip, u) ensures View(b, ip, u)[x] == View(a, ip, u)[x] {
      SameByte(a, b, ip, u, x);
    }
    assert View(b, ip, u) == View(a, ip, u);
  }

  lemma SameByte(a: Disk, b: Disk, ip: Inode, u: nat, x: nat)
    requires DiskOk(a) && DiskOk(b) && OnDisk(a, ip, u) && OnDisk(b, ip, u) && AgreeOn(a, b, ip, u) && x < Base(ip, u)
    ensures View(b, ip, u)[x] == View(a, ip, u)[x]
  {
    hide BytesOf, DiskOk, View, Base, Blk;
    ViewByte(a, ip, u, x);
    ViewByte(b, ip, u, x);
    BlkInExtent(ip, u, x);
    assert InFile(ip, u, Blk(ip, u, x));
  }

  lemma {:induction false} ApplyWhole(d: Disk, ws: seq<Write>)
    requires DiskOk(d) && forall i :: 0 <= i < |ws| ==> Whole(ws[i].data)
    ensures DiskOk(Apply(d, ws))
  {
    if ws != [] { ApplyWhole(d, ws[..|ws| - 1]); }
  }

  // ---- an empty file system ----

  function Unused(): Inode {
    Inode(0, seq(EXTENT_N, _ => Extent(0, 0)))
  }

  function EmptyDisk(top: nat): Disk {
    map b: nat | b < top :: Zeroed(b)
  }

  function Zeroed(b: nat): Block {
    ZeroBlock()
  }

  function Empty(fm: Format, n: nat): State {
    State(EmptyDisk(fm.top), seq(|fm.home|, _ => Unused()), seq(|fm.home|, _ => 0), seq(n, _ => 0))
  }

  lemma ZeroBytes()
    ensures forall i :: 0 <= i < BSIZE ==> BytesOf(ZeroBlock())[i] == 0
  {
  }

  lemma ZeroInode(slot: nat)
    requires slot < PER_BLOCK
    ensures InodeIn(ZeroBlock(), slot) == Unused()
  {
    var x := InodeIn(ZeroBlock(), slot);
    forall i | 0 <= i < EXTENT_N ensures x.ext[i] == Extent(0, 0) {}
    assert x.ext == Unused().ext;
  }

  // A disk of zero blocks is a file system of empty files, for every format.
  lemma EmptyStands(fm: Format, n: nat)
    requires Formatted(fm, n)
    ensures Stands(Empty(fm, n), fm)
  {
    hide BytesOf, InodeIn, ZeroBlock;
    var s := Empty(fm, n);
    ZeroBytes();
    DecodeZero();
    forall f | 0 <= f < |s.files| ensures IsAt(s.disk, fm.home[f], s.files[f]) { ZeroInode(fm.home[f].slot); }
    forall x | 0 <= x < n ensures MapByte(s.disk, fm, x, s.bm[x]) {
      assert x / BSIZE < n / BSIZE;
    }
    assert StoreOk(s.disk, s.files, s.used, s.bm, fm.top);
  }

  // mkfs puts the log after the swap space, then the bitmap, then the inodes.
  lemma MkfsFormat(swap: nat, nbitmap: nat, top: nat, home: seq<Home>)
    requires var start, lo := 2 + swap + LOG_BLOCKS + nbitmap, DataLow(top, nbitmap * BSIZE);
      && top < 0x1_0000_0000 && start <= lo
      && forall f :: 0 <= f < |home| ==> start <= home[f].block < lo && home[f].slot < PER_BLOCK
    requires forall f, g :: 0 <= f < g < |home| ==> home[f] != home[g]
    ensures Formatted(Format(2 + swap, 2 + swap + LOG_BLOCKS + nbitmap, top, home), nbitmap * BSIZE)
  {
  }

  // ---- the bitmap ----

  lemma InItsBlock(fm: Format, n: nat, x: nat)
    requires Formatted(fm, n) && x < n
    ensures MapBlock(fm, x) >= 0 && InMap(fm, n, MapBlock(fm, x))
  {
  }

  // Byte x is set on disk, and every other byte is as it was.
  lemma MapMarked(d: Disk, fm: Format, bm: seq<byte>, x: nat)
    requires DiskOk(d) && MapOn(d, fm, bm) && x < |bm|
    ensures MapBlock(fm, x) >= 0 && MapBlock(fm, x) in d
    ensures MapOn(Stored(d, MapBlock(fm, x), x % BSIZE, [0xFF]), fm, bm[x := 0xFF])
  {
    hide DiskOk, BytesOf, Stored;
    assert MapByte(d, fm, x, bm[x]);
    var e, nb := Stored(d, MapBlock(fm, x), x % BSIZE, [0xFF]), bm[x := 0xFF];
    forall y | 0 <= y < |bm| ensures MapByte(e, fm, y, nb[y]) {
      assert MapByte(d, fm, y, bm[y]);
      StoredByte(d, MapBlock(fm, x), x % BSIZE, [0xFF], MapBlock(fm, y), y % BSIZE);
      BlockIsWhole(e, MapBlock(fm, y));
    }
  }

  lemma BlockIsWhole(d: Disk, b: nat)
    requires DiskOk(d) && b in d
    ensures Whole(d[b])
  {
  }

  // getstartblkno's bitmap writes, for c extents.
  function MapWrites(d: Disk, fm: Format, bm: seq<byte>, c: nat): (ws: seq<Write>)
    requires DiskOk(d) && MapOn(d, fm, bm)
    decreases c
  {
    if c == 0 || FirstFree(bm, 0) == |bm| then []
    else
      var x := FirstFree(bm, 0);
      MapMarked(d, fm, bm, x);
      var b := MapBlock(fm, x);
      var e := Stored(d, b, x % BSIZE, [0xFF]);
      [Write(b, e[b])] + MapWrites(e, fm, bm[x := 0xFF], c - 1)
  }

  // After k of them the bitmap on disk has k more bytes set; they stay in the bitmap.
  lemma {:induction false} MapWritten(d: Disk, fm: Format, bm: seq<byte>, c: nat, k: nat)
    requires DiskOk(d) && MapOn(d, fm, bm) && Formatted(fm, |bm|) && k <= |MapWrites(d, fm, bm, c)|
    ensures var e := Apply(d, MapWrites(d, fm, bm, c)[..k]); DiskOk(e) && MapOn(e, fm, Marked(bm, k))
    ensures forall i :: 0 <= i < k ==>
      Whole(MapWrites(d, fm, bm, c)[i].data) && InMap(fm, |bm|, MapWrites(d, fm, bm, c)[i].block)
    decreases c
  {
    hide DiskOk, Stored, MapOn, InMap, Formatted;
    var ws := MapWrites(d, fm, bm, c);
    if k > 0 {
      var x := FirstFree(bm, 0);
      FreeIs(bm);
      MapMarked(d, fm, bm, x);
      InItsBlock(fm, |bm|, x);
      var b := MapBlock(fm, x);
      var e := Stored(d, b, x % BSIZE, [0xFF]);
      BlockIsWhole(e, b);
      var rest := MapWrites(e, fm, bm[x := 0xFF], c - 1);
      MapWritten(e, fm, bm[x := 0xFF], c - 1, k - 1);
      assert ws == [Write(b, e[b])] + rest;
      assert ws[..k] == [Write(b, e[b])] + rest[..k - 1];
      ApplyAppend(d, [Write(b, e[b])], rest[..k - 1]);
      OneWrite(d, Write(b, e[b]));
      OneStored(d, b, x % BSIZE, [0xFF]);
    } else {
      assert ws[..k] == [];
    }
  }

  lemma OneStored(d: Disk, b: nat, o: nat, src: seq<byte>)
    requires DiskOk(d) && b in d && o + |src| <= BSIZE
    ensures Stored(d, b, o, src) == d[b := Stored(d, b, o, src)[b]]
  {
  }

  lemma OneWrite(d: Disk, w: Write)
    ensures Apply(d, [w]) == d[w.block := w.data]
  {
    assert [w][..0] == [];
  }

  lemma {:induction false} MapWritesAll(d: Disk, fm: Format, bm: seq<byte>, c: nat)
    requires DiskOk(d) && MapOn(d, fm, bm)
    ensures Marked(bm, |MapWrites(d, fm, bm, c)|) == Marked(bm, c)
    decreases c
  {
    hide DiskOk, Stored, MapOn, FirstFree;
    if c > 0 && FirstFree(bm, 0) < |bm| {
      var x := FirstFree(bm, 0);
      MapMarked(d, fm, bm, x);
      MapWritesAll(Stored(d, MapBlock(fm, x), x % BSIZE, [0xFF]), fm, bm[x := 0xFF], c - 1);
    }
  }

  // ---- where the machine stops ----

  datatype Point =
    | Mapped(k: nat)     // after k bitmap writes, with nothing in the log
    | InData(k: nat)     // k writes into the data blocks' transaction
    | InInode(k: nat)    // ... and into the inode's; past its end, the write is over

  // The commit block of the inode's transaction is written.
  predicate Took(pt: Point) {
    pt.InInode? && pt.k > 1
  }

  // One write at the end of a file: the bitmap writes, the data writes, and the new inode.
  datatype Job = Job(pre: seq<Write>, ws: seq<Write>, home: Home, ip: Inode)

  ghost predicate Setting(d: Disk, ls: nat, j: Job) {
    && DiskOk(d) && Recoverable(d, ls) && d[ls] == ZeroBlock()
    && TxOk(d, ls, j.ws) && (forall i :: 0 <= i < |j.ws| ==> j.ws[i].block != j.home.block && Whole(j.ws[i].data))
    && (forall i :: 0 <= i < |j.pre| ==>
          Target(d, ls, j.pre[i].block) && j.pre[i].block != j.home.block && Whole(j.pre[i].data))
    && Target(d, ls, j.home.block) && j.home.slot < PER_BLOCK && Storable(j.ip)
  }

  function D1(d: Disk, j: Job): Disk {
    Apply(d, j.pre)
  }

  function D2(d: Disk, j: Job): Disk {
    Apply(D1(d, j), j.ws)
  }

  function Update(d: Disk, j: Job): Write
    requires j.home.block in d && Whole(d[j.home.block]) && j.home.slot < PER_BLOCK && Storable(j.ip)
  {
    Write(j.home.block, WithInode(d[j.home.block], j.home.slot, j.ip))
  }

  // The disk when the machine stops.
  function Stopped(d: Disk, ls: nat, j: Job, pt: Point): (r: Disk)
    requires Setting(d, ls, j)
    ensures Recoverable(r, ls)
  {
    AfterMap(d, ls, j, |j.pre|);
    match pt
    case Mapped(k) =>
      AfterMap(d, ls, j, k);
      Apply(d, Cut(j.pre, k))
    case InData(k) =>
      CrashAtomicity(D1(d, j), ls, j.ws, k, []);
      StoppedAt(D1(d, j), ls, j.ws, k)
    case InInode(k) =>
      AfterData(d, ls, j);
      CrashAtomicity(DataDone(d, ls, j), ls, [Update(d, j)], k, []);
      StoppedAt(DataDone(d, ls, j), ls, [Update(d, j)], k)
  }

  // The disk once the data transaction is over.
  function DataDone(d: Disk, ls: nat, j: Job): Disk
    requires Setting(d, ls, j)
  {
    AfterMap(d, ls, j, |j.pre|);
    Apply(D1(d, j), Cut(TxPlan(D1(d, j), ls, j.ws), |TxPlan(D1(d, j), ls, j.ws)|))
  }

  // The recoveries ks, each cut short after so many of its writes, then one that completes
  function Survivor(d: Disk, ls: nat, j: Job, pt: Point, ks: seq<nat>): Disk
    requires Setting(d, ls, j)
  {
    Recovered(Reboots(Stopped(d, ls, j, pt), ls, ks), ls)
  }

  // What they leave outside the log
  ghost function Leaves(d: Disk, ls: nat, j: Job, pt: Point): Disk
    requires Setting(d, ls, j)
  {
    match pt
    case Mapped(k) => Apply(d, Cut(j.pre, k))
    case InData(k) => if k > |j.ws| then D2(d, j) else D1(d, j)
    case InInode(k) => if k > 1 then Apply(D2(d, j), [Update(d, j)]) else D2(d, j)
  }

  lemma {:induction false} ApplyKeepsTargets(d: Disk, ls: nat, ws: seq<Write>)
    requires Recoverable(d, ls) && d[ls] == ZeroBlock() && forall i :: 0 <= i < |ws| ==> Target(d, ls, ws[i].block)
    ensures var e := Apply(d, ws); e.Keys == d.Keys && Recoverable(e, ls) && e[ls] == ZeroBlock()
  {
    DecodeZero();
    if ws != [] {
      ApplyKeepsTargets(d, ls, ws[..|ws| - 1]);
      assert Target(d, ls, ws[|ws| - 1].block);
    }
  }

  lemma AfterMap(d: Disk, ls: nat, j: Job, k: nat)
    requires Setting(d, ls, j)
    ensures var e := Apply(d, Cut(j.pre, k));
      && e.Keys == d.Keys && Recoverable(e, ls) && e[ls] == ZeroBlock() && TxOk(e, ls, j.ws)
      && DiskOk(e) && e[j.home.block] == d[j.home.block]
    ensures Cut(j.pre, |j.pre|) == j.pre
  {
    hide Apply, Recoverable, Decode;
    var pre := Cut(j.pre, k);
    ApplyKeepsTargets(d, ls, pre);
    ApplyWhole(d, pre);
    ApplyMisses(d, pre, j.home.block);
    forall i | 0 <= i < |j.ws| ensures Target(Apply(d, pre), ls, j.ws[i].block) { assert Target(d, ls, j.ws[i].block); }
  }

  lemma AfterData(d: Disk, ls: nat, j: Job)
    requires Setting(d, ls, j)
    ensures j.home.block in d && Whole(d[j.home.block])
    ensures var e := DataDone(d, ls, j);
      && Recoverable(e, ls) && ls in e && e[ls] == ZeroBlock() && SameOffLog(ls, e, D2(d, j))
      && TxOk(e, ls, [Update(d, j)]) && D2(d, j).Keys == d.Keys && D2(d, j)[j.home.block] == d[j.home.block]
  {
    hide Apply, Recoverable, Decode, TxPlan, DiskOk;
    AfterMap(d, ls, j, |j.pre|);
    TxDone(D1(d, j), ls, j.ws);
    ApplyMisses(D1(d, j), j.ws, j.home.block);
    forall i | 0 <= i < |j.ws| ensures Target(D1(d, j), ls, j.ws[i].block) {}
    ApplyKeepsTargets(D1(d, j), ls, j.ws);
    BlockIsWhole(d, j.home.block);
  }

  // Whatever happens, recovery leaves one of these disks outside the log, and an idle log.
  lemma StopsSomewhere(d: Disk, ls: nat, j: Job, pt: Point, ks: seq<nat>)
    requires Setting(d, ls, j)
    ensures var r := Survivor(d, ls, j, pt, ks);
      SameOffLog(ls, r, Leaves(d, ls, j, pt)) && ls in r && r[ls] == ZeroBlock()
  {
    hide Recoverable, TxPlan, DiskOk, StoppedAt, SameOffLog, Apply, Recovered, Reboots;
    AfterMap(d, ls, j, |j.pre|);
    match pt {
      case Mapped(k) =>
        AfterMap(d, ls, j, k);
        IdleCrash(Apply(d, Cut(j.pre, k)), ls, ks);
      case InData(k) => CrashAtomicity(D1(d, j), ls, j.ws, k, ks);
      case InInode(k) =>
        AfterData(d, ls, j);
        var e, w := DataDone(d, ls, j), [Update(d, j)];
        CrashAtomicity(e, ls, w, k, ks);
        ApplySameOffLog(ls, e, D2(d, j), w);
        Through(ls, Survivor(d, ls, j, pt, ks), if k > 1 then Apply(e, w) else e, Leaves(d, ls, j, pt));
    }
  }

  lemma Through(ls: nat, a: Disk, b: Disk, c: Disk)
    requires SameOffLog(ls, a, b) && SameOffLog(ls, b, c)
    ensures SameOffLog(ls, a, c)
  {
  }

  lemma IdleCrash(d: Disk, ls: nat, ks: seq<nat>)
    requires Recoverable(d, ls) && d[ls] == ZeroBlock()
    ensures var r := Recovered(Reboots(d, ls, ks), ls); SameOffLog(ls, r, d) && ls in r && r[ls] == ZeroBlock()
  {
    CrashAtomicity(d, ls, [], 0, ks);
    assert StoppedAt(d, ls, [], 0) == d;
  }

  // ---- the blocks stay whole ----

  lemma PlanWhole(d: Disk, ls: nat, es: seq<Write>)
    requires Recoverable(d, ls) && d[ls] == ZeroBlock() && TxOk(d, ls, es) && forall i :: 0 <= i < |es| ==>
      Whole(es[i].data)
    ensures forall i :: 0 <= i < |TxPlan(d, ls, es)| ==> Whole(TxPlan(d, ls, es)[i].data)
  {
    hide Apply, Decode, Encode;
    CommittedDisk(d, ls, es);
    TxFits(d, ls, es);
    var ws, ps := LogWrites(ls, es), RecoverPlan(AfterCommit(d, ls, es), ls);
    assert Whole(Committed(d[ls], es));
    assert ps == es + [Write(ls, ZeroBlock())];
  }

  lemma StoppedWhole(d: Disk, ls: nat, es: seq<Write>, k: nat)
    requires DiskOk(d) && Recoverable(d, ls) && d[ls] == ZeroBlock() && TxOk(d, ls, es)
    requires forall i :: 0 <= i < |es| ==> Whole(es[i].data)
    ensures DiskOk(StoppedAt(d, ls, es, k))
  {
    hide Apply, Recoverable, TxPlan, DiskOk;
    PlanWhole(d, ls, es);
    ApplyWhole(d, Cut(TxPlan(d, ls, es), k));
  }

  lemma PartWhole(d: Disk, ls: nat, k: nat)
    requires DiskOk(d) && Recoverable(d, ls)
    ensures DiskOk(PartRecovered(d, ls, k)) && DiskOk(Recovered(d, ls))
  {
    hide Apply, Decode;
    var plan := RecoverPlan(d, ls);
    forall i | 0 <= i < |plan| ensures Whole(plan[i].data) { if i < |plan| - 1 { InLogAt(ls, i); } }
    ApplyWhole(d, Cut(plan, k));
    ApplyWhole(d, plan);
  }

  lemma {:induction false} RebootsWhole(d: Disk, ls: nat, ks: seq<nat>)
    requires DiskOk(d) && Recoverable(d, ls)
    ensures DiskOk(Reboots(d, ls, ks))
    decreases |ks|
  {
    hide Recoverable, DiskOk, PartRecovered;
    if ks != [] {
      CutRecovery(d, ls, ks[0]);
      PartWhole(d, ls, ks[0]);
      RebootsWhole(PartRecovered(d, ls, ks[0]), ls, ks[1..]);
    }
  }

  lemma SurvivorWhole(d: Disk, ls: nat, j: Job, pt: Point, ks: seq<nat>)
    requires Setting(d, ls, j)
    ensures DiskOk(Survivor(d, ls, j, pt, ks))
  {
    hide Recoverable, DiskOk, TxPlan, StoppedAt, Apply, Recovered, Reboots, WithInode;
    AfterMap(d, ls, j, |j.pre|);
    if pt.InData? {
      StoppedWhole(D1(d, j), ls, j.ws, pt.k);
    } else if pt.InInode? {
      AfterData(d, ls, j);
      DataDoneWhole(d, ls, j);
      StoppedWhole(DataDone(d, ls, j), ls, [Update(d, j)], pt.k);
    } else {
      AfterMap(d, ls, j, pt.k);
    }
    var e := Stopped(d, ls, j, pt);
    RebootsWhole(e, ls, ks);
    PartWhole(Reboots(e, ls, ks), ls, 0);
  }

  lemma DataDoneWhole(d: Disk, ls: nat, j: Job)
    requires Setting(d, ls, j)
    ensures DiskOk(DataDone(d, ls, j))
  {
    hide Recoverable, DiskOk, TxPlan, Apply;
    AfterMap(d, ls, j, |j.pre|);
    StoppedWhole(D1(d, j), ls, j.ws, |TxPlan(D1(d, j), ls, j.ws)|);
  }

  // ---- what a write at the end of a file changes ----

  // n is s with src at the end of file f, by the block writes ws.
  ghost predicate Wrote(s: State, n: State, fm: Format, ws: seq<Write>, f: nat, src: seq<byte>) {
    && f < |s.files| == |s.used| && |n.files| == |n.used| == |s.files|
    && StoreOk(n.disk, n.files, n.used, n.bm, fm.top) && n.disk == Apply(s.disk, ws) && |ws| <= MAX_ENTRIES
    && (forall i :: 0 <= i < |ws| ==> InFile(n.files[f], n.used[f], ws[i].block) && Whole(ws[i].data))
    && OnlyGrew(s.files, s.used, SetSize(n.files, f, s.files[f].size), n.used, f, DataLow(fm.top, |s.bm|))
    && n.bm == Marked(s.bm, n.used[f] - s.used[f]) && n.files[f].size < 0x1_0000_0000
    && DiskOk(s.disk) && OnDisk(s.disk, s.files[f], s.used[f])
    && (var c := Contents(s.disk, s.files[f], s.used[f]);
        Holds(n.disk, s.files[f], s.used[f], c) && Holds(n.disk, n.files[f], n.used[f], c + src))
    && forall g :: 0 <= g < |s.files| && g != f ==> SameFile(s.disk, n.disk, s.files[g], s.used[g])
  }

  ghost predicate SameFile(a: Disk, b: Disk, ip: Inode, u: nat) {
    && DiskOk(a) && OnDisk(a, ip, u) && DiskOk(b) && OnDisk(b, ip, u) && Contents(a, ip, u) == Contents(b, ip, u)
  }

  function JobOf(s: State, n: State, fm: Format, ws: seq<Write>, f: nat): Job
    requires f < |fm.home| && f < |n.files| && f < |s.used| && f < |n.used| && s.used[f] <= n.used[f]
    requires DiskOk(s.disk) && MapOn(s.disk, fm, s.bm)
  {
    Job(MapWrites(s.disk, fm, s.bm, n.used[f] - s.used[f]), ws, fm.home[f], n.files[f])
  }

  // A file's own blocks are targets of the log.
  lemma OwnTargets(s: State, fm: Format, n: nat, g: nat, b: nat)
    requires StoreOk(s.disk, s.files, s.used, s.bm, fm.top) && Formatted(fm, n) && OwnBlocks(fm, n, s.files, s.used)
    requires g < |s.files| && g < |s.used| && InFile(s.files[g], s.used[g], b)
    ensures b < fm.top && Target(s.disk, fm.ls, b) && !InMap(fm, n, b) && !IsHome(fm, b)
  {
    hide StoreOk, DiskOk, Formatted;
    BelowTop(s.disk, s.files, s.used, s.bm, fm.top, g);
    StoreFrame(s.disk, s.files, s.used, s.bm, fm.top);
    assert !Kept(fm, n, b);
    var i :| 0 <= i < s.used[g] && i < |s.files[g].ext| && InExtent(s.files[g].ext[i], b);
    TopIsSmall(fm, n);
  }

  lemma TopIsSmall(fm: Format, n: nat)
    requires Formatted(fm, n)
    ensures fm.top < 0x1_0000_0000 && n % BSIZE == 0
  {
  }

  lemma BelowTop(d: Disk, files: seq<Inode>, used: seq<nat>, bm: seq<byte>, top: nat, f: nat)
    requires StoreOk(d, files, used, bm, top) && f < |files|
    ensures |used| == |files| && used[f] <= |files[f].ext|
    ensures forall i :: 0 <= i < used[f] ==> files[f].ext[i].start + files[f].ext[i].nblocks <= top
  {
    hide DiskOk, AllApart, SlotStart;
    StoreFacts(d, files, used, bm, top, f);
    forall i | 0 <= i < used[f] ensures files[f].ext[i].start + files[f].ext[i].nblocks <= top {
      assert InUse(files, used, f, i);
      if Owned(bm, top, files[f].ext[i].start) {
        var x := SlotOf(bm, top, files[f].ext[i].start);
        SlotInData(top, |bm|, x);
      }
    }
  }

  lemma IsStorable(ip: Inode, u: nat, top: nat)
    requires Shaped(ip, u) && ip.size < 0x1_0000_0000 && top < 0x1_0000_0000
    requires forall i :: 0 <= i < u ==> ip.ext[i].start + ip.ext[i].nblocks <= top
    ensures Storable(ip)
  {
  }

  // The new extents lie above the log, the bitmap and the inodes.
  lemma StillOwn(s: State, n: State, fm: Format, ws: seq<Write>, f: nat, src: seq<byte>)
    requires Stands(s, fm) && Wrote(s, n, fm, ws, f, src)
    ensures OwnBlocks(fm, |s.bm|, n.files, n.used)
  {
    hide StoreOk, Recoverable, InodesOn, MapOn, InFile, Contents;
    forall g: nat, b: nat | g < |n.files| && g < |n.used| && InFile(n.files[g], n.used[g], b)
      ensures !Kept(fm, |s.bm|, b)
    {
      if g == f {
        if Kept(fm, |s.bm|, b) {
          KeptIsLow(fm, |s.bm|, b);
          OldBlock(s.files, s.used, n.files, n.used, f, DataLow(fm.top, |s.bm|), b);
        }
      } else {
        assert SetSize(n.files, f, s.files[f].size)[g] == n.files[g];
      }
    }
  }

  lemma KeptIsLow(fm: Format, n: nat, b: nat)
    requires Formatted(fm, n) && Kept(fm, n, b)
    ensures b < DataLow(fm.top, n)
  {
  }

  lemma OldBlock(fa: seq<Inode>, ua: seq<nat>, fb: seq<Inode>, ub: seq<nat>, f: nat, lo: int, b: nat)
    requires f < |fa| && f < |ua| && f < |fb| && f < |ub| && b < lo && InFile(fb[f], ub[f], b)
    requires OnlyGrew(fa, ua, SetSize(fb, f, fa[f].size), ub, f, lo)
    ensures InFile(fa[f], ua[f], b)
  {
    var i :| 0 <= i < ub[f] && i < |fb[f].ext| && InExtent(fb[f].ext[i], b);
    assert i < ua[f];
    assert fb[f].ext[..ua[f]][i] == fa[f].ext[..ua[f]][i];
  }

  // ---- what is where after a crash ----

  // The bitmap writes are to the bitmap, the data writes to neither it, the log or inodes.
  ghost predicate Split(fm: Format, n: nat, j: Job) {
    && (forall i :: 0 <= i < |j.pre| ==> InMap(fm, n, j.pre[i].block))
    && (forall i :: 0 <= i < |j.ws| ==> !InMap(fm, n, j.ws[i].block) && !IsHome(fm, j.ws[i].block))
    && IsHome(fm, j.home.block) && forall b :: IsHome(fm, b) ==> !InMap(fm, n, b)
  }

  // The data blocks' commit block is written.
  predicate DataIn(j: Job, pt: Point) {
    pt.InInode? || (pt.InData? && pt.k > |j.ws|)
  }

  // How many bitmap writes were made
  function Marks(j: Job, pt: Point): (k: nat)
    ensures k <= |j.pre|
  {
    if pt.Mapped? then Min(pt.k, |j.pre|) else |j.pre|
  }

  lemma CutIs(j: Job, k: nat)
    ensures Cut(j.pre, k) == j.pre[..Min(k, |j.pre|)] && j.pre[..|j.pre|] == j.pre
  {
  }

  lemma LeavesIs(d: Disk, ls: nat, j: Job, pt: Point)
    requires Setting(d, ls, j)
    ensures j.home.block in d && Whole(d[j.home.block])
    ensures var e := Apply(d, j.pre[..Marks(j, pt)]);
      var x := if DataIn(j, pt) then Apply(e, j.ws) else e;
      Leaves(d, ls, j, pt) == if Took(pt) then x[j.home.block := WithInode(d[j.home.block], j.home.slot, j.ip)] else x
  {
    hide Apply, Recoverable, WithInode, DiskOk;
    AfterData(d, ls, j);
    CutIs(j, if pt.Mapped? then pt.k else 0);
    OneWrite(D2(d, j), Update(d, j));
  }

  lemma LeftMap(d: Disk, ls: nat, fm: Format, n: nat, j: Job, pt: Point, b: nat)
    requires Setting(d, ls, j) && Split(fm, n, j) && InMap(fm, n, b)
    ensures var e, x := Apply(d, j.pre[..Marks(j, pt)]), Leaves(d, ls, j, pt);
      (b in x <==> b in e) && (b in x ==> x[b] == e[b])
  {
    hide Setting, Leaves, Apply, InMap, IsHome;
    LeavesIs(d, ls, j, pt);
    ApplyMisses(Apply(d, j.pre[..Marks(j, pt)]), j.ws, b);
  }

  lemma LeftHome(d: Disk, ls: nat, fm: Format, n: nat, j: Job, pt: Point, b: nat)
    requires Setting(d, ls, j) && Split(fm, n, j) && IsHome(fm, b) && b in d
    ensures j.home.block in d && Whole(d[j.home.block]) && j.home.slot < PER_BLOCK && Storable(j.ip)
    ensures var x := Leaves(d, ls, j, pt);
      b in x && x[b] == if Took(pt) && b == j.home.block then WithInode(d[b], j.home.slot, j.ip) else d[b]
  {
    hide Leaves, Apply, InMap, IsHome, Recoverable, WithInode, DiskOk;
    LeavesIs(d, ls, j, pt);
    var pre := j.pre[..Marks(j, pt)];
    ApplyMisses(d, pre, b);
    ApplyMisses(Apply(d, pre), j.ws, b);
  }

  lemma LeftData(d: Disk, ls: nat, fm: Format, n: nat, j: Job, pt: Point, b: nat)
    requires Setting(d, ls, j) && Split(fm, n, j) && !InMap(fm, n, b) && !IsHome(fm, b)
    ensures var e, x := if DataIn(j, pt) then Apply(d, j.ws) else d, Leaves(d, ls, j, pt);
      (b in x <==> b in e) && (b in x ==> x[b] == e[b])
  {
    hide Setting, Leaves, Apply, InMap, IsHome, WithInode;
    LeavesIs(d, ls, j, pt);
    var pre := j.pre[..Marks(j, pt)];
    ApplyMisses(d, pre, b);
    SameWrites(d, Apply(d, pre), j.ws, b);
  }

  // ---- the state that is read back ----

  ghost function After(s: State, n: State, fm: Format, j: Job, pt: Point, ks: seq<nat>): State
    requires Setting(s.disk, fm.ls, j)
  {
    State(Survivor(s.disk, fm.ls, j, pt, ks),
          if Took(pt) then n.files else s.files, if Took(pt) then n.used else s.used,
          Marked(s.bm, Marks(j, pt)))
  }

  lemma IsSetting(s: State, n: State, fm: Format, ws: seq<Write>, f: nat, src: seq<byte>)
    requires Stands(s, fm) && Wrote(s, n, fm, ws, f, src)
    ensures f < |fm.home| && f < |n.files| == |s.used| == |n.used| == |s.files| && s.used[f] <= n.used[f]
    ensures DiskOk(s.disk) && MapOn(s.disk, fm, s.bm)
    ensures var j := JobOf(s, n, fm, ws, f); Setting(s.disk, fm.ls, j) && Split(fm, |s.bm|, j)
  {
    hide StoreOk, Recoverable, MapOn, DiskOk, MapWrites, Apply, Contents, InFile, OnDisk, InodesOn;
    InodeCount(s.disk, fm, s.files);
    StoreFrame(s.disk, s.files, s.used, s.bm, fm.top);
    BelowTop(n.disk, n.files, n.used, n.bm, fm.top, f);
    StoreFacts(n.disk, n.files, n.used, n.bm, fm.top, f);
    IsStorable(n.files[f], n.used[f], fm.top);
    StillOwn(s, n, fm, ws, f, src);
    var j := JobOf(s, n, fm, ws, f);
    MapWritten(s.disk, fm, s.bm, n.used[f] - s.used[f], |j.pre|);
    forall i | 0 <= i < |ws|
      ensures Target(s.disk, fm.ls, ws[i].block) && !InMap(fm, |s.bm|, ws[i].block) && !IsHome(fm, ws[i].block)
    {
      OwnTargets(n, fm, |s.bm|, f, ws[i].block);
    }
  }

  lemma InodeCount(d: Disk, fm: Format, files: seq<Inode>)
    requires InodesOn(d, fm, files)
    ensures |files| == |fm.home|
  {
  }

  // The inodes on disk are the old ones, with the new one once its commit is written.
  lemma InodesAfter(s: State, n: State, fm: Format, j: Job, f: nat, pt: Point, r: Disk)
    requires Setting(s.disk, fm.ls, j) && Split(fm, |s.bm|, j) && InodesOn(s.disk, fm, s.files) && Formatted(fm, |s.bm|)
    requires f < |s.files| == |n.files| && j.home == fm.home[f] && j.ip == n.files[f]
    requires forall g :: 0 <= g < |s.files| && g != f ==> n.files[g] == s.files[g]
    requires SameOffLog(fm.ls, r, Leaves(s.disk, fm.ls, j, pt))
    ensures InodesOn(r, fm, if Took(pt) then n.files else s.files)
  {
    hide Setting, Leaves, InodeIn, WithInode, Split, InMap;
    var files := if Took(pt) then n.files else s.files;
    forall g | 0 <= g < |files| ensures IsAt(r, fm.home[g], files[g]) {
      var b, slot := fm.home[g].block, fm.home[g].slot;
      assert IsAt(s.disk, fm.home[g], s.files[g]);
      LeftHome(s.disk, fm.ls, fm, |s.bm|, j, pt, b);
      InodeBack(s.disk[j.home.block], j.home.slot, j.ip, slot);
      assert g != f ==> fm.home[g] != fm.home[f];
    }
  }

  lemma MapAfter(s: State, fm: Format, j: Job, c: nat, pt: Point, r: Disk)
    requires Setting(s.disk, fm.ls, j) && Split(fm, |s.bm|, j) && MapOn(s.disk, fm, s.bm) && Formatted(fm, |s.bm|)
    requires j.pre == MapWrites(s.disk, fm, s.bm, c)
    requires SameOffLog(fm.ls, r, Leaves(s.disk, fm.ls, j, pt))
    ensures MapOn(r, fm, Marked(s.bm, Marks(j, pt)))
  {
    hide Leaves, MapWrites, Apply, Marked, BytesOf, DiskOk, Recoverable, Split;
    var k := Marks(j, pt);
    MapWritten(s.disk, fm, s.bm, c, k);
    var e, nb := Apply(s.disk, j.pre[..k]), Marked(s.bm, k);
    forall x | 0 <= x < |nb| ensures MapByte(r, fm, x, nb[x]) {
      assert MapByte(e, fm, x, nb[x]);
      InItsBlock(fm, |s.bm|, x);
      LeftMap(s.disk, fm.ls, fm, |s.bm|, j, pt, MapBlock(fm, x));
    }
  }

  // A file's blocks are those of the disk before, or of the disk with the data writes.
  lemma DataAfter(s: State, fm: Format, j: Job, pt: Point, r: Disk, ip: Inode, u: nat)
    requires Setting(s.disk, fm.ls, j) && Split(fm, |s.bm|, j) && SameOffLog(fm.ls, r, Leaves(s.disk, fm.ls, j, pt))
    requires forall b: nat :: InFile(ip, u, b) ==> !Kept(fm, |s.bm|, b)
    ensures AgreeOn(if DataIn(j, pt) then Apply(s.disk, j.ws) else s.disk, r, ip, u)
  {
    hide Setting, Leaves, Apply, InFile, Split, InMap, IsHome;
    forall b: nat | InFile(ip, u, b)
      ensures var e := if DataIn(j, pt) then Apply(s.disk, j.ws) else s.disk;
        (b in e <==> b in r) && (b in e ==> e[b] == r[b])
    {
      LeftData(s.disk, fm.ls, fm, |s.bm|, j, pt, b);
    }
  }

  // Marking more of the bitmap takes no extent from its owner.
  lemma StillOwned(files: seq<Inode>, used: seq<nat>, bm: seq<byte>, top: nat, k: nat)
    requires AllOwned(files, used, bm, top)
    ensures AllOwned(files, used, Marked(bm, k), top)
  {
    hide SlotStart, Marked, DataLow;
    forall f: nat, i: nat | InUse(files, used, f, i) ensures Homed(Marked(bm, k), top, files[f].ext[i]) {
      if Owned(bm, top, files[f].ext[i].start) {
        var x := SlotOf(bm, top, files[f].ext[i].start);
        MarkedKeeps(bm, k, x);
      }
    }
  }

  // The files hold on any disk with the same blocks.
  lemma StoreAgain(d: Disk, r: Disk, files: seq<Inode>, used: seq<nat>, bm: seq<byte>, nb: seq<byte>, top: nat)
    requires StoreOk(d, files, used, bm, top) && DiskOk(r) && r.Keys == d.Keys && |nb| == |bm|
    requires AllOwned(files, used, nb, top)
    ensures StoreOk(r, files, used, nb, top)
  {
    hide DiskOk, AllOwned, AllApart;
    forall f | 0 <= f < |files| ensures OnDisk(r, files[f], used[f]) { assert OnDisk(d, files[f], used[f]); }
  }

  // What file g holds after the crash
  ghost predicate BytesAfter(s: State, r: State, f: nat, src: seq<byte>, pt: Point, g: nat) {
    && g < |s.files| == |s.used| && DiskOk(s.disk) && OnDisk(s.disk, s.files[g], s.used[g])
    && |r.files| == |r.used| == |s.files|
    && var c := Contents(s.disk, s.files[g], s.used[g]);
       Holds(r.disk, r.files[g], r.used[g], if g == f && Took(pt) then c + src else c)
  }

  lemma FileAfter(s: State, n: State, fm: Format, ws: seq<Write>, f: nat, src: seq<byte>, pt: Point, r: State, g: nat)
    requires Stands(s, fm) && Wrote(s, n, fm, ws, f, src) && g < |s.files| && f < |fm.home|
    requires s.used[f] <= n.used[f] && DiskOk(s.disk) && DiskOk(r.disk)
    requires var j := JobOf(s, n, fm, ws, f);
      && Setting(s.disk, fm.ls, j) && Split(fm, |s.bm|, j) && SameOffLog(fm.ls, r.disk, Leaves(s.disk, fm.ls, j, pt))
    requires r.files == (if Took(pt) then n.files else s.files) && r.used == if Took(pt) then n.used else s.used
    ensures BytesAfter(s, r, f, src, pt, g)
  {
    hide StoreOk, Recoverable, MapOn, DiskOk, Apply, Contents, InFile, OnDisk, InodesOn, Leaves, Setting, Split;
    hide MapWrites, AgreeOn;
    var j := JobOf(s, n, fm, ws, f);
    StillOwn(s, n, fm, ws, f, src);
    StoreFacts(s.disk, s.files, s.used, s.bm, fm.top, g);
    var ip, u := r.files[g], r.used[g];
    assert g != f ==> SetSize(n.files, f, s.files[f].size)[g] == n.files[g];
    DataAfter(s, fm, j, pt, r.disk, ip, u);
    SameContents(if DataIn(j, pt) then n.disk else s.disk, r.disk, ip, u);
  }

  lemma StateAfter(s: State, n: State, fm: Format, ws: seq<Write>, f: nat, src: seq<byte>, pt: Point, r: State)
    requires Stands(s, fm) && Wrote(s, n, fm, ws, f, src) && f < |fm.home|
    requires s.used[f] <= n.used[f] && DiskOk(s.disk) && DiskOk(r.disk)
    requires var j := JobOf(s, n, fm, ws, f);
      && Setting(s.disk, fm.ls, j) && Split(fm, |s.bm|, j) && SameOffLog(fm.ls, r.disk, Leaves(s.disk, fm.ls, j, pt))
      && r.bm == Marked(s.bm, Marks(j, pt))
    requires fm.ls in r.disk && r.disk[fm.ls] == ZeroBlock()
    requires r.files == (if Took(pt) then n.files else s.files) && r.used == if Took(pt) then n.used else s.used
    ensures Stands(r, fm)
  {
    hide Recoverable, MapOn, DiskOk, Apply, Contents, InFile, OnDisk, InodesOn, Leaves, Setting, Split, MapWrites;
    hide AllOwned, AllApart;
    hide Marked, OwnBlocks, RoomOnDisk, Formatted;
    var j := JobOf(s, n, fm, ws, f);
    StillOwn(s, n, fm, ws, f, src);
    forall g | 0 <= g < |s.files| && g != f ensures n.files[g] == s.files[g] {
      assert SetSize(n.files, f, s.files[f].size)[g] == n.files[g];
    }
    InodeCount(s.disk, fm, s.files);
    InodesAfter(s, n, fm, j, f, pt, r.disk);
    MapAfter(s, fm, j, n.used[f] - s.used[f], pt, r.disk);
    StillOwned(s.files, s.used, s.bm, fm.top, Marks(j, pt));
    MapWritesAll(s.disk, fm, s.bm, n.used[f] - s.used[f]);
    LeavesKeys(s.disk, fm.ls, j, pt);
    IdleIs(s.disk, r.disk, fm.ls);
    if Took(pt) {
      LeavesKeys(s.disk, fm.ls, j, InData(|j.ws| + 1));
      StoreAgain(n.disk, r.disk, r.files, r.used, n.bm, r.bm, fm.top);
    } else {
      StoreAgain(s.disk, r.disk, r.files, r.used, s.bm, r.bm, fm.top);
    }
  }

  lemma LeavesKeys(d: Disk, ls: nat, j: Job, pt: Point)
    requires Setting(d, ls, j)
    ensures Leaves(d, ls, j, pt).Keys == d.Keys && Apply(d, j.ws).Keys == d.Keys
  {
    hide Apply, Recoverable, WithInode, DiskOk;
    LeavesIs(d, ls, j, pt);
    var pre := j.pre[..Marks(j, pt)];
    forall i | 0 <= i < |j.ws| ensures j.ws[i].block in d { assert Target(d, ls, j.ws[i].block); }
    ApplyKeys(d, pre);
    ApplyKeys(Apply(d, pre), j.ws);
    ApplyKeys(d, j.ws);
  }

  lemma IdleIs(d: Disk, r: Disk, ls: nat)
    requires Recoverable(d, ls) && r.Keys == d.Keys && ls in r && r[ls] == ZeroBlock()
    ensures Recoverable(r, ls)
  {
    DecodeZero();
  }

  // Wherever a write at the end of a file is cut short, and however many recoveries are
  // cut short after it: the inodes and the bitmap on the disk are again those of a file
  // system in which no two files share a block and every extent in use is marked; file f
  // has all of src added if the commit block of its inode's transaction was written and
  // none of it if not; and every other file holds what it held.
  lemma WriteSurvives(s: State, n: State, fm: Format, ws: seq<Write>, f: nat, src: seq<byte>, pt: Point, ks: seq<nat>)
    requires Stands(s, fm) && Wrote(s, n, fm, ws, f, src)
    ensures f < |fm.home| && s.used[f] <= n.used[f] && DiskOk(s.disk) && Setting(s.disk, fm.ls, JobOf(s, n, fm, ws, f))
    ensures var r := After(s, n, fm, JobOf(s, n, fm, ws, f), pt, ks);
      Stands(r, fm) && forall g :: 0 <= g < |s.files| ==> BytesAfter(s, r, f, src, pt, g)
  {
    hide Stands, Wrote, Leaves, Setting, Split, MapWrites, Survivor, SameOffLog, Marked, BytesAfter, MapOn;
    IsSetting(s, n, fm, ws, f, src);
    var j := JobOf(s, n, fm, ws, f);
    var r := After(s, n, fm, j, pt, ks);
    StopsSomewhere(s.disk, fm.ls, j, pt, ks);
    SurvivorWhole(s.disk, fm.ls, j, pt, ks);
    StateAfter(s, n, fm, ws, f, src, pt, r);
    forall g | 0 <= g < |s.files| ensures BytesAfter(s, r, f, src, pt, g) {
      FileAfter(s, n, fm, ws, f, src, pt, r, g);
    }
  }
}
