/**
 writei's transaction on the log and the buffer cache (kernel/fs.c, kernel/bio.c): the
 block writes that `FileStore` collects are run through `FsLog`.
 */
module FileLog {
  import opened Prelude
  import opened Blocks
  import opened CrashLog
  import opened FileData
  import opened FileAlloc
  import opened FileWalk
  import BufferCache
  import FileCrash
  import FileStore
  import FsLog
  import QuietCache

  // The log is idle and lies below what the bitmap gives out; none of its blocks is f's.
  ghost predicate Idle(log: FsLog.Log)
    reads log, log.bufs, log.bc, log.bc.buf, log.bc.next, log.bc.prev
  {
    && log.Valid() && log.size == 0 && QuietCache.Quiet(log.bc.View()) && QuietCache.DirtySet(log.bc.View()) == {}
    && FsLog.Ready(log.bc.disk, log.ls)
  }

  ghost predicate Beyond(ls: nat, n: nat, top: nat, ip: Inode, u: nat) {
    && top < 0x1_0000_0000 && ls + LOG_BLOCKS <= DataLow(top, n) && forall b: nat :: InFile(ip, u, b) ==> !InLog(ls, b)
  }

  // The disk is d or, all at once, e.
  ghost predicate OneOf(r: Disk, ls: nat, d: Disk, e: Disk) {
    Recoverable(r, ls) && (SameOffLog(ls, Recovered(r, ls), d) || SameOffLog(ls, Recovered(r, ls), e))
  }

  // writei with its commit made by the log itself: the write is complete, and every byte
  // in place, exactly on the arithmetic condition; the cache's panic leaves the disk as
  // it was; a commit that ends leaves the disk of the file store outside the log; and a
  // reboot in the middle of it leaves the one or the other.
  method Writei(store: FileStore.Store, log: FsLog.Log, f: nat, off: nat, src: seq<byte>)
    returns (st: FileStore.Fate, out: FsLog.Status, ghost places: seq<nat>)
    requires store.Valid() && f < |store.files| && |store.used| == |store.files| && off + |src| < FileStore.MAX_UINT
    requires Idle(log) && log.bc.disk == store.disk && log.bc.n == store.nbuf
    requires Beyond(log.ls, |store.bitmap[..]|, store.top, store.files[f], store.used[f])
    modifies store, store.bitmap, log, log.bufs, log.bc, log.bc.buf, log.bc.next, log.bc.prev
    ensures st == FileStore.Done && InOrder(places, off) <==>
      old(FileStore.Completes(store.files, store.used, store.bitmap[..], store.top, store.nbuf, f, off, |src|))
    ensures st == FileStore.NoBuffers ==> log.bc.disk == old(log.bc.disk)
    ensures st == FileStore.Done && out == FsLog.Done ==>
      SameOffLog(log.ls, log.bc.disk, store.disk) && FsLog.Ready(log.bc.disk, log.ls)
    ensures st == FileStore.Done && out != FsLog.Done ==> OneOf(log.bc.disk, log.ls, old(store.disk), store.disk)
  {
    hide StoreOk, FsLog.Ready, QuietCache.Quiet, QuietCache.DirtySet, BlocksOf, FileStore.Logged, OnlyGrew, Walkable;
    hide CanGrow;
    hide InOrder, FileStore.Placed, FileStore.RestRaw, FreeSet, Marked, Base, Touched, TxPlan, Beyond, Cut;
    hide SameOffLog, InFile;
    ghost var d, ls, f0, u0 := store.disk, log.ls, store.files, store.used;
    ReadyIs(log.bc.disk, ls);
    StoreFacts(d, store.files, store.used, store.bitmap[..], store.top, f);
    StoreFrame(d, store.files, store.used, store.bitmap[..], store.top);
    out := FsLog.Done;
    st, places := store.Fill(f, off, src);
    if st == FileStore.Done {
      if |store.trace| > MAX_ENTRIES {
        st := FileStore.LogOver;
      } else {
        TraceOk(d, store.disk, f0, u0, store.files, store.used, store.bitmap[..], store.top, f, ls,
                store.trace, store.spots);
        ghost var crashn := log.bc.crashn;
        out := log.Transaction(store.trace);
        if out == FsLog.Panicked {
          st := FileStore.NoBuffers;
        } else {
          Committed(d, ls, store.trace, log.bc.disk, store.disk,
                    FsLog.Completed(log.bc.crashnEnable, crashn, |TxPlan(d, ls, store.trace)|));
        }
      }
    }
  }

  lemma ReadyIs(d: Disk, ls: nat)
    requires FsLog.Ready(d, ls)
    ensures Recoverable(d, ls) && ls in d && d[ls] == ZeroBlock()
  {
  }

  // The blocks of a file that has grown are there and outside the log.
  lemma TraceOk(d: Disk, e: Disk, fa: seq<Inode>, ua: seq<nat>, files: seq<Inode>, used: seq<nat>, bm: seq<byte>,
                top: nat,
                f: nat, ls: nat, ws: seq<Write>, ps: seq<nat>)
    requires f < |fa| == |ua| == |files| == |used| && StoreOk(e, files, used, bm, top) && |ws| <= MAX_ENTRIES
    requires OnlyGrew(fa, ua, files, used, f, DataLow(top, |bm|)) && Beyond(ls, |bm|, top, fa[f], ua[f])
    requires FileStore.Logged(d, e, ws, ps, files[f], used[f]) && forall b :: 0 <= b < top ==> b in d
    ensures TxOk(d, ls, ws) && e == Apply(d, ws)
  {
    hide StoreOk, DataLow, Base, Blk, Apply;
    FileCrash.BelowTop(e, files, used, bm, top, f);
    assert SetSize(files, f, fa[f].size) == files;
    forall i | 0 <= i < |ws| ensures Target(d, ls, ws[i].block) {
      var b := ws[i].block;
      BlkInExtent(files[f], used[f], ps[i]);
      assert InFile(files[f], used[f], b);
      if InLog(ls, b) { FileCrash.OldBlock(fa, ua, files, used, f, DataLow(top, |bm|), b); }
    }
  }

  // The transaction's plan, cut anywhere.
  lemma Committed(d: Disk, ls: nat, ws: seq<Write>, r: Disk, e: Disk, k: nat)
    requires Recoverable(d, ls) && d[ls] == ZeroBlock() && TxOk(d, ls, ws) && e == Apply(d, ws)
    requires r == Apply(d, Cut(TxPlan(d, ls, ws), k)) && k <= |TxPlan(d, ls, ws)|
    ensures k == |TxPlan(d, ls, ws)| ==> SameOffLog(ls, r, e) && FsLog.Ready(r, ls)
    ensures OneOf(r, ls, d, e)
  {
    hide Apply, TxPlan, Recoverable, SameOffLog;
    CrashAtomicity(d, ls, ws, k, []);
    TxDone(d, ls, ws);
  }
}
