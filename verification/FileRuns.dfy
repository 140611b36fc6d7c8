/**
 Runs of writes and crashes (kernel/fs.c, kernel/file.c): the file system is read from the
 disk, writes to its files, stops anywhere, recovers, and is read from the disk again.
 */
module FileRuns {
  import opened Prelude
  import opened Blocks
  import opened CrashLog
  import opened FileData
  import opened FileAlloc
  import opened FileCrash
  import FileStore

  // What is in memory
  ghost function StateOf(store: FileStore.Store): State
    reads store, store.bitmap
  {
    State(store.disk, store.files, store.used, store.bitmap[..])
  }

  // The inodes and the bitmap as they are read from the disk: there is only one state
  // that stands on it.
  method Boot(d: Disk, fm: Format, n: nat, buffers: nat, ghost s: State) returns (store: FileStore.Store)
    requires Stands(s, fm) && s.disk == d && |s.bm| == n
    ensures fresh(store) && fresh(store.bitmap) && store.Valid() && StateOf(store) == s
    ensures store.top == fm.top && store.nbuf == buffers
  {
    hide Stands, StoreOk, InodeIn;
    StandsFacts(s, fm);
    var files, used, f := [], [], 0;
    while f < |fm.home|
      invariant 0 <= f <= |fm.home| == |s.files| == |s.used|
      invariant files == s.files[..f] && used == s.used[..f]
    {
      InodeFacts(s, fm, f);
      var ip := InodeIn(d[fm.home[f].block], fm.home[f].slot);
      var u := 0;
      while u < EXTENT_N && ip.ext[u].nblocks != 0
        invariant 0 <= u <= s.used[f]
      {
        u := u + 1;
      }
      files, used, f := files + [ip], used + [u], f + 1;
    }
    var bm, x := [], 0;
    while x < n
      invariant 0 <= x <= n && bm == s.bm[..x]
    {
      ByteFacts(s, fm, x);
      bm, x := bm + [BytesOf(d[MapBlock(fm, x)])[x % BSIZE]], x + 1;
    }
    assert s.files[..f] == s.files && s.used[..f] == s.used && s.bm[..x] == s.bm;
    store := new FileStore.Store(d, fm.top, bm, files, used, buffers);
  }

  lemma StandsFacts(s: State, fm: Format)
    requires Stands(s, fm)
    ensures StoreOk(s.disk, s.files, s.used, s.bm, fm.top) && |fm.home| == |s.files| == |s.used| && |s.bm| % BSIZE == 0
  {
    hide Recoverable, InodeIn, MapOn, DiskOk;
  }

  lemma InodeFacts(s: State, fm: Format, f: nat)
    requires Stands(s, fm) && f < |s.files| == |fm.home| == |s.used|
    ensures IsAt(s.disk, fm.home[f], s.files[f]) && Shaped(s.files[f], s.used[f])
  {
    hide Recoverable, InodeIn, MapOn, DiskOk;
    StoreFacts(s.disk, s.files, s.used, s.bm, fm.top, f);
  }

  lemma ByteFacts(s: State, fm: Format, x: nat)
    requires Stands(s, fm) && x < |s.bm|
    ensures MapByte(s.disk, fm, x, s.bm[x])
  {
    hide Recoverable, InodeIn, StoreOk;
  }

  // filewrite at the end of a file, in memory.  The writes it makes are j's, and the file
  // system survives a crash anywhere among them.
  method Append(store: FileStore.Store, fm: Format, f: nat, src: seq<byte>) returns (j: Job)
    requires store.Valid() && f < |store.files| && |store.used| == |store.files| && store.top == fm.top
    requires Stands(StateOf(store), fm)
    requires FileStore.Appends(store.files, store.used, store.bitmap[..], store.top, store.nbuf, f, |src|)
    modifies store, store.bitmap
    ensures Wrote(old(StateOf(store)), StateOf(store), fm, j.ws, f, src)
    ensures f < |fm.home| && f < |old(store.used)| && f < |store.files| && f < |store.used|
    ensures old(store.used[f]) <= store.used[f]
    ensures DiskOk(old(store.disk)) && MapOn(old(store.disk), fm, old(store.bitmap[..]))
    ensures j == JobOf(old(StateOf(store)), StateOf(store), fm, j.ws, f)
    ensures forall pt, ks :: Survives(old(StateOf(store)), StateOf(store), fm, j, f, src, pt, ks)
  {
    hide Stands, Wrote, StoreOk, FileStore.Appends, FileStore.Logged, OnlyGrew, DataLow, BlocksOf, DiskOk, OnDisk;
    hide Contents, View;
    hide Base, Setting, Survives, MapOn, MapWrites, Marked, BytesAfter, FileStore.Fits;
    var d, bm, u := store.disk, store.bitmap[..], store.used[f];
    ghost var s := StateOf(store);
    StoreFrame(d, store.files, store.used, bm, store.top);
    StoreFacts(d, store.files, store.used, bm, store.top, f);
    SizeIsSmall(store.files, store.used, bm, store.top, store.nbuf, f, |src|);
    store.AppendOne(f, src, |src|);
    ghost var n := StateOf(store);
    StoreFrame(store.disk, store.files, store.used, store.bitmap[..], store.top);
    StoreFacts(store.disk, store.files, store.used, store.bitmap[..], store.top, f);
    FileStore.LengthIs(s.files, s.used, SetSize(n.files, f, s.files[f].size), n.used, f, DataLow(fm.top, |s.bm|));
    forall g | 0 <= g < |s.files| && g != f
      ensures Contents(n.disk, n.files[g], n.used[g]) == Contents(s.disk, s.files[g], s.used[g])
    {
      assert store.FileBytes(g) == old(store.FileBytes(g));
    }
    IsWrote(s, n, fm, store.trace, store.spots, f, src);
    IsSetting(s, n, fm, store.trace, f, src);
    j := Job(MapWrites(d, fm, bm, store.used[f] - u), store.trace, fm.home[f], store.files[f]);
    forall pt, ks ensures Survives(s, n, fm, j, f, src, pt, ks) {
      WriteSurvives(s, n, fm, store.trace, f, src, pt, ks);
      SurvivesIs(s, n, fm, j, f, src, pt, ks);
    }
  }

  // After a crash at pt and the recoveries ks the file system stands again, and has all of
  // the write or none of it.
  ghost predicate Survives(s: State, n: State, fm: Format, j: Job, f: nat, src: seq<byte>, pt: Point, ks: seq<nat>) {
    && Setting(s.disk, fm.ls, j)
    && var r := After(s, n, fm, j, pt, ks);
       Stands(r, fm) && forall g :: 0 <= g < |s.files| ==> BytesAfter(s, r, f, src, pt, g)
  }

  lemma SurvivesIs(s: State, n: State, fm: Format, j: Job, f: nat, src: seq<byte>, pt: Point, ks: seq<nat>)
    requires Setting(s.disk, fm.ls, j) && Stands(After(s, n, fm, j, pt, ks), fm)
    requires forall g :: 0 <= g < |s.files| ==> BytesAfter(s, After(s, n, fm, j, pt, ks), f, src, pt, g)
    ensures Survives(s, n, fm, j, f, src, pt, ks)
  {
  }

  lemma SizeIsSmall(files: seq<Inode>, used: seq<nat>, bm: seq<byte>, top: nat, nbuf: nat, f: nat, n: nat)
    requires f < |files| && f < |used| && FileStore.Appends(files, used, bm, top, nbuf, f, n)
    ensures files[f].size + n < 0x1_0000_0000
  {
  }

  lemma IsWrote(s: State, n: State, fm: Format, ws: seq<Write>, ps: seq<nat>, f: nat, src: seq<byte>)
    requires f < |s.files| == |s.used| && |n.files| == |n.used| == |s.files|
    requires StoreOk(s.disk, s.files, s.used, s.bm, fm.top) && StoreOk(n.disk, n.files, n.used, n.bm, fm.top)
    requires FileStore.Logged(s.disk, n.disk, ws, ps, n.files[f], n.used[f]) && |ws| <= MAX_ENTRIES
    requires OnlyGrew(s.files, s.used, SetSize(n.files, f, s.files[f].size), n.used, f, DataLow(fm.top, |s.bm|))
    requires n.files[f].size < 0x1_0000_0000 && s.used[f] <= n.used[f] && n.bm == Marked(s.bm, n.used[f] - s.used[f])
    requires DiskOk(s.disk) && OnDisk(s.disk, s.files[f], s.used[f])
    requires var c := Contents(s.disk, s.files[f], s.used[f]);
      Holds(n.disk, s.files[f], s.used[f], c) && Holds(n.disk, n.files[f], n.used[f], c + src)
    requires forall g :: 0 <= g < |s.files| ==>
      OnDisk(s.disk, s.files[g], s.used[g]) && OnDisk(n.disk, n.files[g], n.used[g])
    requires forall g :: 0 <= g < |s.files| && g != f ==>
      Contents(n.disk, n.files[g], n.used[g]) == Contents(s.disk, s.files[g], s.used[g])
    ensures Wrote(s, n, fm, ws, f, src)
  {
    hide StoreOk, DiskOk, OnDisk, Contents, Apply, Base, Blk, DataLow, Marked;
    forall i | 0 <= i < |ws| ensures InFile(n.files[f], n.used[f], ws[i].block) {
      BlkInExtent(n.files[f], n.used[f], ps[i]);
    }
    forall g | 0 <= g < |s.files| && g != f ensures SameFile(s.disk, n.disk, s.files[g], s.used[g]) {
      assert SetSize(n.files, f, s.files[f].size)[g] == n.files[g];
    }
  }

  // ---- a run ----

  // A write of src at the end of file f, during which or after which the machine stops, and
  // the recoveries that are cut short before one completes.
  datatype Op = Op(f: nat, src: seq<byte>, stop: Point, recoveries: seq<nat>)

  // What the run has added to file g
  function Added(ops: seq<Op>, g: nat): seq<byte> {
    if ops == [] then []
    else
      var op := ops[|ops| - 1];
      Added(ops[..|ops| - 1], g) + if op.f == g && Took(op.stop) then op.src else []
  }

  // The bytes of file g
  ghost function Bytes(s: State, fm: Format, g: nat): seq<byte>
    requires Stands(s, fm) && g < |fm.home|
  {
    StandsFacts(s, fm);
    StoreFacts(s.disk, s.files, s.used, s.bm, fm.top, g);
    Contents(s.disk, s.files[g], s.used[g])
  }

  // Op by op, up to the first that is not a write at the end of a file that fits: each is
  // cut short anywhere, the machine recovers, and the next one starts from what is then
  // on the disk.  Every file holds what it held and, in order, exactly the writes whose
  // inode was committed.
  method Session(d: Disk, fm: Format, n: nat, buffers: nat, ops: seq<Op>, ghost s: State)
    returns (e: Disk, k: nat, ghost r: State)
    requires Stands(s, fm) && s.disk == d && |s.bm| == n
    ensures k <= |ops| && Stands(r, fm) && r.disk == e && |r.bm| == n
    ensures forall g :: 0 <= g < |fm.home| ==> Bytes(r, fm, g) == Bytes(s, fm, g) + Added(ops[..k], g)
    ensures k < |ops| && ops[k].f < |fm.home| ==>
      && ops[k].f < |r.files| && ops[k].f < |r.used|
      && !FileStore.Appends(r.files, r.used, r.bm, fm.top, buffers, ops[k].f, |ops[k].src|)
  {
    hide Stands, StoreOk, FileStore.Appends, Wrote, Setting, Survivor, BytesAfter, Survives, MapOn, MapWrites, DiskOk;
    e, k, r := d, 0, s;
    while k < |ops|
      invariant 0 <= k <= |ops| && Stands(r, fm) && r.disk == e && |r.bm| == n
      invariant forall g :: 0 <= g < |fm.home| ==> Bytes(r, fm, g) == Bytes(s, fm, g) + Added(ops[..k], g)
    {
      var op := ops[k];
      StandsFacts(r, fm);
      var store := Boot(e, fm, n, buffers, r);
      if op.f >= |fm.home| ||
         !FileStore.Appends(store.files, store.used, store.bitmap[..], fm.top, buffers, op.f, |op.src|) {
        return;
      }
      var j := Append(store, fm, op.f, op.src);
      assert Survives(r, StateOf(store), fm, j, op.f, op.src, op.stop, op.recoveries);
      ghost var t := Later(r, StateOf(store), fm, j, op);
      StepDone(s, r, StateOf(store), fm, j, ops, k, t);
      e := Survivor(e, fm.ls, j, op.stop, op.recoveries);
      r, k := t, k + 1;
    }
  }

  ghost function Later(s: State, n: State, fm: Format, j: Job, op: Op): (r: State)
    requires Survives(s, n, fm, j, op.f, op.src, op.stop, op.recoveries)
    ensures Setting(s.disk, fm.ls, j) && r.disk == Survivor(s.disk, fm.ls, j, op.stop, op.recoveries)
    ensures |r.bm| == |s.bm|
  {
    After(s, n, fm, j, op.stop, op.recoveries)
  }

  lemma StepDone(s: State, r: State, n: State, fm: Format, j: Job, ops: seq<Op>, k: nat, t: State)
    requires Stands(s, fm) && Stands(r, fm) && k < |ops| && ops[k].f < |fm.home|
    requires Survives(r, n, fm, j, ops[k].f, ops[k].src, ops[k].stop, ops[k].recoveries)
    requires t == Later(r, n, fm, j, ops[k])
    requires forall g :: 0 <= g < |fm.home| ==> Bytes(r, fm, g) == Bytes(s, fm, g) + Added(ops[..k], g)
    ensures Stands(t, fm)
    ensures forall g :: 0 <= g < |fm.home| ==> Bytes(t, fm, g) == Bytes(s, fm, g) + Added(ops[..k + 1], g)
  {
    hide Stands, Setting, Survivor, MapOn, DiskOk, Contents, Wrote;
    StandsFacts(r, fm);
    StandsFacts(t, fm);
    assert ops[..k + 1][..k] == ops[..k];
    forall g | 0 <= g < |fm.home| ensures Bytes(t, fm, g) == Bytes(s, fm, g) + Added(ops[..k + 1], g) {
      assert BytesAfter(r, t, ops[k].f, ops[k].src, ops[k].stop, g);
    }
  }
}
