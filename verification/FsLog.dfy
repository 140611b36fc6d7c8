/**
 log_write, log_commit_tx and log_recover of kernel/fs.c, running on the buffer cache.

 `crashn` of kernel/bio.c decides where the machine reboots: the first `crashn`
 block writes complete and the next one never starts.  What is then left is the disk.
 */
module FsLog {
  import opened Prelude
  import opened Blocks
  import opened BufferCache
  import opened CacheProtocol
  import opened Bio
  import opened QuietCache
  import opened CrashLog

  datatype Status = Done | Rebooted | Panicked

  // How many of n writes complete.
  function Completed(enable: bool, crashn: int, n: nat): nat {
    if !enable then n else if crashn <= 0 then 0 else if crashn < n then crashn else n
  }

  // No log block is pinned, so the disk holds what a reader of it gets.
  predicate LogClean(c: Cache, ls: nat) {
    forall i :: 0 <= i < |c.bufs| && c.bufs[i].dirty ==> !InLog(ls, c.bufs[i].blockno)
  }

  // From entry k on, no install can meet the panic or lose its source: there are two
  // clean buffers, or each target is pinned and so already has a buffer.
  predicate CanInstall(c: Cache, cb: CommitBlock, k: nat) {
    TwoSpare(c) || forall j :: k <= j < cb.size && j < |cb.dst| ==> Pinned(c, cb.dst[j])
  }

  // An install cleans the target's buffer, so afterwards two are clean.
  lemma AfterInstall(c: Cache, r: Cache, ls: nat, d: nat)
    requires Cleaned(c, r, d) && Spare(c) && LogClean(c, ls) && (TwoSpare(c) || Pinned(c, d))
    ensures TwoSpare(r) && Spare(r) && LogClean(r, ls)
    ensures forall b :: Pinned(r, b) ==> Pinned(c, b)
  {
    if TwoSpare(c) {
      var i, j :| 0 <= i < j < |c.bufs| && !c.bufs[i].dirty && !c.bufs[j].dirty;
      assert !r.bufs[i].dirty && !r.bufs[j].dirty;
    } else {
      var i :| 0 <= i < |c.bufs| && !c.bufs[i].dirty;
      var j :| 0 <= j < |c.bufs| && Holds(c.bufs[j], ROOTDEV, d) && c.bufs[j].dirty;
      assert !r.bufs[i].dirty && !r.bufs[j].dirty;
      assert i < j || j < i;
    }
    forall b | Pinned(r, b) ensures Pinned(c, b) {
      var i :| 0 <= i < |r.bufs| && Holds(r.bufs[i], ROOTDEV, b) && r.bufs[i].dirty;
      assert Holds(c.bufs[i], ROOTDEV, b) && c.bufs[i].dirty;
    }
  }

  lemma SameDirtySelf(c: Cache)
    ensures SameDirty(c, c)
  {
  }

  lemma SameDirtyThrough(c: Cache, m: Cache, r: Cache)
    requires SameDirty(c, m) && SameDirty(m, r)
    ensures SameDirty(c, r)
  {
  }

  // The commit block, if it is cached, is itself in a clean buffer.
  lemma CommitBlockClean(c: Cache, ls: nat)
    requires LogClean(c, ls) && Cached(c, ls)
    ensures Spare(c)
  {
    var i :| 0 <= i < |c.bufs| && Holds(c.bufs[i], ROOTDEV, ls);
    assert InLog(ls, ls);
  }

  // A log block's own write leaves every pinned buffer pinned.
  lemma LogBlockWritten(c: Cache, r: Cache, ls: nat, b: nat)
    requires LogClean(c, ls) && InLog(ls, b) && Cleaned(c, r, b)
    ensures SameDirty(c, r)
  {
    forall j | 0 <= j < |c.bufs| && c.bufs[j].dirty ensures !Holds(c.bufs[j], ROOTDEV, b) {
      assert !InLog(ls, c.bufs[j].blockno);
    }
  }

  lemma SameDirtyKeeps(c: Cache, r: Cache, ls: nat)
    requires SameDirty(c, r)
    ensures Spare(c) ==> Spare(r)
    ensures LogClean(c, ls) ==> LogClean(r, ls)
    ensures TwoSpare(c) ==> TwoSpare(r)
    ensures forall b :: Pinned(c, b) <==> Pinned(r, b)
  {
    if Spare(c) {
      var i :| 0 <= i < |c.bufs| && !c.bufs[i].dirty;
      assert !r.bufs[i].dirty;
    }
    if TwoSpare(c) {
      var i, j :| 0 <= i < j < |c.bufs| && !c.bufs[i].dirty && !c.bufs[j].dirty;
      assert !r.bufs[i].dirty && !r.bufs[j].dirty;
    }
    forall b ensures Pinned(c, b) <==> Pinned(r, b) {
      if i :| 0 <= i < |c.bufs| && Holds(c.bufs[i], ROOTDEV, b) && c.bufs[i].dirty {
        assert Holds(r.bufs[i], ROOTDEV, b);
      }
      if i :| 0 <= i < |r.bufs| && Holds(r.bufs[i], ROOTDEV, b) && r.bufs[i].dirty {
        assert Holds(c.bufs[i], ROOTDEV, b);
      }
    }
  }

  // The first k targets a commit block names.
  function Named(cb: CommitBlock, k: nat): set<nat> {
    set j | 0 <= j < k && j < |cb.dst| :: cb.dst[j] as nat
  }

  lemma NamedMore(cb: CommitBlock, k: nat)
    requires k < |cb.dst|
    ensures Named(cb, k + 1) == Named(cb, k) + {cb.dst[k] as nat} && Named(cb, 0) == {}
  {
  }

  lemma NamedAre(cb: CommitBlock, es: seq<Write>)
    requires |es| <= |cb.dst| && forall j :: 0 <= j < |es| ==> cb.dst[j] == es[j].block
    ensures Named(cb, |es|) == BlocksOf(es)
  {
    forall j | 0 <= j < |es| ensures es[j].block in Named(cb, |es|) { assert cb.dst[j] as nat == es[j].block; }
  }

  // An install unpins its target and nothing else.
  lemma CleanedSet(c: Cache, r: Cache, b: nat)
    requires Quiet(c) && Cleaned(c, r, b)
    ensures DirtySet(r) == DirtySet(c) - {b}
  {
    forall i | 0 <= i < |c.bufs| && c.bufs[i].dirty ensures c.bufs[i].dev == ROOTDEV {
      assert BufOk(c.disk, c.bufs[i]);
    }
    forall x | x in DirtySet(c) - {b} ensures x in DirtySet(r) {
      var i :| 0 <= i < |c.bufs| && c.bufs[i].dirty && c.bufs[i].blockno == x;
      assert r.bufs[i].dirty;
    }
  }

  lemma SameDirtySet(c: Cache, r: Cache)
    requires SameDirty(c, r)
    ensures DirtySet(r) == DirtySet(c)
  {
    forall x | x in DirtySet(c) ensures x in DirtySet(r) {
      var i :| 0 <= i < |c.bufs| && c.bufs[i].dirty && c.bufs[i].blockno == x;
      assert r.bufs[i].dirty;
    }
  }

  lemma NoBlocks(ws: seq<Write>)
    ensures BlocksOf(ws[..0]) == {}
  {
  }

  lemma MoreBlocks(ws: seq<Write>, k: nat)
    requires k < |ws|
    ensures BlocksOf(ws[..k + 1]) == BlocksOf(ws[..k]) + {ws[k].block}
    ensures |BlocksOf(ws[..k])| <= |BlocksOf(ws)|
  {
    assert forall i :: 0 <= i < k ==> ws[..k][i] == ws[i] && ws[..k + 1][i] == ws[i];
    assert ws[..k + 1][k] == ws[k];
    forall b | b in BlocksOf(ws[..k]) ensures b in BlocksOf(ws) {
      var i :| 0 <= i < k && ws[..k][i].block == b;
      assert ws[i].block == b;
    }
    Subset(BlocksOf(ws[..k]), BlocksOf(ws));
    forall b | b in BlocksOf(ws[..k]) + {ws[k].block} ensures b in BlocksOf(ws[..k + 1]) {
      if b != ws[k].block {
        var i :| 0 <= i < k && ws[..k][i].block == b;
        assert ws[..k + 1][i].block == b;
      }
    }
    forall b | b in BlocksOf(ws[..k + 1]) ensures b in BlocksOf(ws[..k]) + {ws[k].block} {
      var i :| 0 <= i < k + 1 && ws[..k + 1][i].block == b;
      assert i < k ==> ws[..k][i].block == b;
    }
  }

  lemma {:induction false} Subset(a: set<nat>, b: set<nat>)
    requires a <= b
    ensures |a| <= |b|
  {
    if x :| x in a {
      Subset(a - {x}, b - {x});
    }
  }

  lemma InDisk(d: Disk, ls: nat, ws: seq<Write>, k: nat)
    requires TxOk(d, ls, ws) && k < |ws|
    ensures ws[k].block in d
  {
    assert Target(d, ls, ws[k].block);
  }

  lemma DirtyAreTargets(c: Cache, ls: nat, ws: seq<Write>)
    requires Quiet(c) && TxOk(c.disk, ls, ws) && DirtySet(c) == BlocksOf(ws)
    ensures LogClean(c, ls)
    ensures forall i :: 0 <= i < |ws| ==> Pinned(c, ws[i].block)
  {
    forall i | 0 <= i < |c.bufs| && c.bufs[i].dirty ensures !InLog(ls, c.bufs[i].blockno) {
      assert c.bufs[i].blockno in DirtySet(c);
      var j :| 0 <= j < |ws| && ws[j].block == c.bufs[i].blockno;
      assert Target(c.disk, ls, ws[j].block);
    }
    forall i | 0 <= i < |ws| ensures Pinned(c, ws[i].block) {
      assert ws[i].block in BlocksOf(ws);
      PinnedIffDirty(c, ws[i].block);
    }
  }

  lemma ValueOnDisk(c: Cache, ls: nat, b: nat)
    requires Quiet(c) && LogClean(c, ls) && InLog(ls, b) && b in c.disk
    ensures Value(c, ROOTDEV, b) == c.disk[b]
  {
    var k := Search(c, ROOTDEV, b, 0);
    if k < |c.order| { assert BufOk(c.disk, c.bufs[c.order[k]]); }
  }

  class Log {
    const bc: Bcache
    const ls: nat                   // sb.logstart
    const bufs: array<Write>        // log_cache.bufs
    var size: nat                   // log_cache.size

    ghost predicate Valid()
      reads this, bufs, bc, bc.buf, bc.next, bc.prev
    {
      && bufs.Length == LOG_BLOCKS && size <= LOG_BLOCKS
      && bc.Valid() && bc.next != bc.prev
    }

    ghost function Entries(): seq<Write>
      requires size <= bufs.Length
      reads this, bufs
    {
      bufs[..size]
    }

    constructor (bc: Bcache, ls: nat)
      requires bc.Valid()
      ensures Valid() && this.bc == bc && this.ls == ls && size == 0 && fresh(bufs)
    {
      this.bc, this.ls, size := bc, ls, 0;
      bufs := new Write[LOG_BLOCKS](_ => Write(0, ZeroBlock()));
    }

    // bread, copy the data out, brelse
    method ReadBlock(b: nat) returns (st: Status, data: Block)
      requires Valid() && Quiet(bc.View()) && b in bc.disk
      modifies bc`disk, bc`order, bc.buf, bc.next, bc.prev
      ensures Valid() && bc.disk == old(bc.disk)
      ensures st != Rebooted && (st == Panicked <==> !Cached(old(bc.View()), b) && !Spare(old(bc.View())))
      ensures st == Done ==>
        && Quiet(bc.View()) && SameDirty(old(bc.View()), bc.View())
        && data == Value(old(bc.View()), ROOTDEV, b)
    {
      hide Quiet, Linked, Bread, Unlocked, Value, Spare, Cached, SameDirty;
      ghost var c := bc.View();
      BreadOutcome(c, b);
      var r := bc.BreadBlock(ROOTDEV, b);
      if r == None { return Panicked, ZeroBlock(); }
      data := bc.buf[r.value].data;
      ReadCycle(c, bc.View(), r.value, b);
      bc.BrelseBlock(r.value);
      return Done, data;
    }

    // bread, copy new data in, bwrite, brelse
    method WriteBlock(b: nat, data: Block) returns (st: Status)
      requires Valid() && Quiet(bc.View()) && b in bc.disk
      modifies bc`disk, bc`crashn, bc`order, bc.buf, bc.next, bc.prev
      ensures Valid()
      ensures st == Panicked <==> !Cached(old(bc.View()), b) && !Spare(old(bc.View()))
      ensures st == Rebooted <==> st != Panicked && bc.crashnEnable && old(bc.crashn) <= 0
      ensures st != Done ==> bc.disk == old(bc.disk)
      ensures st == Done ==>
        && Quiet(bc.View()) && Cleaned(old(bc.View()), bc.View(), b)
        && bc.disk == old(bc.disk)[b := data]
        && bc.crashn == if bc.crashnEnable then old(bc.crashn) - 1 else old(bc.crashn)
    {
      hide Quiet, Cleaned, Linked, Busy, Bread, Unlocked, Value, Spare, Cached;
      ghost var c := bc.View();
      BreadOutcome(c, b);
      var r := bc.BreadBlock(ROOTDEV, b);
      if r == None { return Panicked; }
      st := Finish(r.value, b, data, c);
    }

    // The rest of WriteBlock, once the caller holds buffer i for block b.
    method Finish(i: nat, b: nat, data: Block, ghost c: Cache) returns (st: Status)
      requires Valid() && Quiet(c) && Handed(c, bc.View(), i, b)
      requires c.bufs[i].dirty ==> Holds(c.bufs[i], ROOTDEV, b)
      modifies bc`disk, bc`crashn, bc`order, bc.buf, bc.next, bc.prev
      ensures Valid() && st != Panicked
      ensures st == Rebooted <==> bc.crashnEnable && old(bc.crashn) <= 0
      ensures st == Rebooted ==> bc.disk == old(bc.disk)
      ensures st == Done ==>
        && Quiet(bc.View()) && Cleaned(c, bc.View(), b)
        && bc.disk == old(bc.disk)[b := data]
        && bc.crashn == if bc.crashnEnable then old(bc.crashn) - 1 else old(bc.crashn)
    {
      hide Quiet, Cleaned, Busy, Linked;
      WriteCycle(c, bc.View(), i, b, data);
      ghost var n := bc.View();
      bc.Store(i, data);
      var ok := bc.Bwrite(i);
      if !ok { return Rebooted; }
      assert bc.View() == Overwrite(n, i, data);
      bc.BrelseBlock(i);
      return Done;
    }

    // log_write: copy the caller's buffer into the log cache and pin it.
    method LogWrite(i: nat)
      requires Valid() && size < LOG_BLOCKS && i < bc.n && bc.buf[i].locked
      modifies this`size, bufs, bc.buf
      ensures Valid() && Entries() == old(Entries()) + [Write(old(bc.buf[i]).blockno, old(bc.buf[i]).data)]
      ensures bc.View() == With(old(bc.View()), i, old(bc.buf[i]).(dirty := true))
    {
      bufs[size] := Write(bc.buf[i].blockno, bc.buf[i].data);
      size := size + 1;
      bc.MarkDirty(i);
    }

    // A whole transaction, as writei makes it: each block is read, changed, logged and
    // released; then the commit.  It meets the panic exactly when it writes as many
    // different blocks as there are buffers.
    method Transaction(ws: seq<Write>) returns (st: Status)
      requires Valid() && Quiet(bc.View()) && DirtySet(bc.View()) == {} && size == 0
      requires Recoverable(bc.disk, ls) && bc.disk[ls] == ZeroBlock() && TxOk(bc.disk, ls, ws)
      modifies this`size, bufs, bc`disk, bc`crashn, bc`order, bc.buf, bc.next, bc.prev
      ensures Valid()
      ensures st == Panicked <==> |BlocksOf(ws)| >= bc.n
      ensures st == Panicked ==> bc.disk == old(bc.disk)
      ensures st != Panicked ==>
        var plan := TxPlan(old(bc.disk), ls, ws);
        var k := Completed(bc.crashnEnable, old(bc.crashn), |plan|);
        bc.disk == Apply(old(bc.disk), Cut(plan, k)) && (st == Done <==> k == |plan|)
      ensures st == Done ==> size == 0 && Quiet(bc.View()) && LogClean(bc.View(), ls) && DirtySet(bc.View()) == {}
    {
      hide Quiet, LogClean, Spare, Pinned, Linked, Listed, Apply, Value, Target, TxPlan, Recoverable, DirtySet;
      hide Cached, BlocksOf;
      assert Entries() == ws[..0];
      var k := 0;
      NoBlocks(ws);
      while k < |ws|
        invariant 0 <= k <= |ws|
        invariant Valid() && Quiet(bc.View()) && bc.disk == old(bc.disk) && bc.crashn == old(bc.crashn)
        invariant size == k && Entries() == ws[..k] && DirtySet(bc.View()) == BlocksOf(ws[..k])
      {
        ghost var c := bc.View();
        AllPinned(c);
        MoreBlocks(ws, k);
        InDisk(bc.disk, ls, ws, k);
        st := LogOne(ws[k]);
        if st == Panicked { return; }
        assert ws[..k + 1] == ws[..k] + [ws[k]];
        k := k + 1;
      }
      assert ws[..k] == ws;
      AllPinned(bc.View());
      DirtyAreTargets(bc.View(), ls, ws);
      st := LogCommitTx();
    }

    // bread, store, log_write and brelse of one block.
    method LogOne(w: Write) returns (st: Status)
      requires Valid() && Quiet(bc.View()) && w.block in bc.disk && size < LOG_BLOCKS
      modifies this`size, bufs, bc`disk, bc`order, bc.buf, bc.next, bc.prev
      ensures Valid() && st != Rebooted && bc.disk == old(bc.disk)
      ensures st == Panicked <==> !Cached(old(bc.View()), w.block) && !Spare(old(bc.View()))
      ensures st == Done ==>
        && Quiet(bc.View()) && DirtySet(bc.View()) == DirtySet(old(bc.View())) + {w.block}
        && Entries() == old(Entries()) + [w]
    {
      hide Quiet, Spare, Cached, DirtySet, Linked, Busy, Bread, Unlocked, Value;
      ghost var c := bc.View();
      BreadOutcome(c, w.block);
      var r := bc.BreadBlock(ROOTDEV, w.block);
      if r == None { return Panicked; }
      PinCycle(c, bc.View(), r.value, w.block, w.data);
      ghost var n := bc.View();
      bc.Store(r.value, w.data);
      LogWrite(r.value);
      assert bc.View() == QuietCache.Pin(n, r.value, w.data);
      bc.BrelseBlock(r.value);
      return Done;
    }

    // log_commit_tx
    method LogCommitTx() returns (st: Status)
      requires Valid() && Quiet(bc.View()) && LogClean(bc.View(), ls)
      requires Recoverable(bc.disk, ls) && bc.disk[ls] == ZeroBlock() && TxOk(bc.disk, ls, Entries())
      requires forall i :: 0 <= i < size ==> Pinned(bc.View(), bufs[i].block)
      modifies this`size, bufs, bc`disk, bc`crashn, bc`order, bc.buf, bc.next, bc.prev
      ensures Valid()
      ensures st == Panicked <==> !Spare(old(bc.View()))
      ensures st == Panicked ==> bc.disk == old(bc.disk)
      ensures st != Panicked ==>
        var plan := TxPlan(old(bc.disk), ls, old(Entries()));
        var k := Completed(bc.crashnEnable, old(bc.crashn), |plan|);
        bc.disk == Apply(old(bc.disk), Cut(plan, k)) && (st == Done <==> k == |plan|)
      ensures st == Done ==> size == 0 && Quiet(bc.View()) && LogClean(bc.View(), ls)
      ensures st == Done ==> DirtySet(bc.View()) == DirtySet(old(bc.View())) - BlocksOf(old(Entries()))
    {
      hide Quiet, LogClean, Spare, TwoSpare, Pinned, Cleaned, SameDirty, Linked, Listed, Apply, LogWrites, Value;
      hide Target,
        Encode, Fill, TxPlan, RecoverPlan, AfterCommit, Cut, Installs, Fits, Cached, DirtySet, BlocksOf;
      ghost var c, d, es := bc.View(), bc.disk, Entries();
      if Cached(c, ls) { CommitBlockClean(c, ls); }
      ValueOnDisk(c, ls, ls);
      var data, cb;
      st, data := ReadBlock(ls);
      if st == Panicked { return; }
      ghost var m := bc.View();
      SameDirtyKeeps(c, m, ls);
      TxFits(d, ls, es);
      st, cb := CopyEntries(Decode(data));
      TxPrefix(d, ls, es, Completed(bc.crashnEnable, old(bc.crashn), 2 * |es| + 2));
      if st == Rebooted { return; }
      SameDirtyKeeps(m, bc.View(), ls);
      SameDirtySet(c, m);
      SameDirtySet(m, bc.View());
      st := CommitAndInstall(cb, d, es);
    }

    // The rest of log_commit_tx: the log is written, and the commit block is next.
    method CommitAndInstall(cb: CommitBlock, ghost d: Disk, ghost es: seq<Write>) returns (st: Status)
      requires Valid() && Quiet(bc.View()) && LogClean(bc.View(), ls) && Spare(bc.View())
      requires Recoverable(d, ls) && d[ls] == ZeroBlock() && TxOk(d, ls, es) && Fits(es)
      requires bc.disk == Apply(d, LogWrites(ls, es)[..|es|]) && cb.Valid() && cb == Fill(Decode(d[ls]), es, |es|)
      requires forall i :: 0 <= i < |es| ==> Pinned(bc.View(), es[i].block)
      modifies this`size, bufs, bc`disk, bc`crashn, bc`order, bc.buf, bc.next, bc.prev
      ensures Valid() && st != Panicked && Recoverable(AfterCommit(d, ls, es), ls)
      ensures var k := Completed(bc.crashnEnable, old(bc.crashn), |es| + 2);
        && bc.disk == (if k == 0 then old(bc.disk)
             else Apply(AfterCommit(d, ls, es), Cut(RecoverPlan(AfterCommit(d, ls, es), ls), k - 1)))
        && (st == Done <==> k == |es| + 2)
      ensures st == Done ==> size == 0 && Quiet(bc.View()) && LogClean(bc.View(), ls)
      ensures st == Done ==> DirtySet(bc.View()) == DirtySet(old(bc.View())) - BlocksOf(es)
    {
      hide Quiet, LogClean, Spare, TwoSpare, Pinned, Cleaned, SameDirty, Linked, Listed, Apply, LogWrites, Value;
      hide Target,
        Encode, Fill, RecoverPlan, AfterCommit, Cut, Installs, Fits, Cached, DirtySet, BlocksOf, Named;
      CommitWritten(d, ls, es, bc.disk);
      CommitNames(d, ls, es);
      NamedAre(Decode(AfterCommit(d, ls, es)[ls]), es);
      ghost var n := bc.View();
      forall i | 0 <= i < bufs.Length { bufs[i] := Write(0, ZeroBlock()); }
      size := 0;
      st := WriteBlock(ls, Encode(cb.(flag := 1)));
      if st == Rebooted { return; }
      LogBlockWritten(n, bc.View(), ls, ls);
      SameDirtyKeeps(n, bc.View(), ls);
      SameDirtySet(n, bc.View());
      st := LogRecover();
    }

    // The copying loop of log_commit_tx.
    method CopyEntries(cb0: CommitBlock) returns (st: Status, cb: CommitBlock)
      requires Valid() && Quiet(bc.View()) && LogClean(bc.View(), ls) && Spare(bc.View())
      requires Layout(bc.disk, ls) && Fits(Entries()) && size <= MAX_ENTRIES && cb0.Valid()
      modifies bc`disk, bc`crashn, bc`order, bc.buf, bc.next, bc.prev
      ensures Valid() && st != Panicked
      ensures var k := Completed(bc.crashnEnable, old(bc.crashn), size);
        bc.disk == Apply(old(bc.disk), LogWrites(ls, Entries())[..k]) && (st == Done <==> k == size)
      ensures st == Done ==>
        && cb.Valid() && cb == Fill(cb0, Entries(), size)
        && Quiet(bc.View()) && SameDirty(old(bc.View()), bc.View())
        && bc.crashn == if bc.crashnEnable then old(bc.crashn) - size else old(bc.crashn)
    {
      hide Quiet, LogClean, Spare, Cleaned, SameDirty, Linked, Listed, Apply, LogWrites, Layout;
      ghost var c, d := bc.View(), bc.disk;
      NoLogWrites(d, ls, Entries());
      SameDirtySelf(c);
      cb := cb0;
      var i := 0;
      while i < size
        invariant 0 <= i <= size
        invariant Valid() && Quiet(bc.View()) && LogClean(bc.View(), ls) && Spare(bc.View())
        invariant SameDirty(c, bc.View())
        invariant cb.Valid() && cb == Fill(cb0, Entries(), i)
        invariant bc.disk == Apply(d, LogWrites(ls, Entries())[..i])
        invariant bc.crashn == if bc.crashnEnable then old(bc.crashn) - i else old(bc.crashn)
        invariant i > 0 && bc.crashnEnable ==> bc.crashn >= 0
      {
        LogWritesGrow(d, ls, Entries(), i, bc.disk);
        cb := cb.(dst := cb.dst[i := bufs[i].block], size := (cb.size + 1) % 0x1_0000_0000);
        ghost var m := bc.View();
        st := WriteBlock(ls + 1 + i, bufs[i].data);
        if st == Rebooted { return; }
        LogBlockWritten(m, bc.View(), ls, ls + 1 + i);
        SameDirtyKeeps(m, bc.View(), ls);
        SameDirtyThrough(c, m, bc.View());
        i := i + 1;
      }
      return Done, cb;
    }

    // log_recover
    method LogRecover() returns (st: Status)
      requires Valid() && Quiet(bc.View()) && LogClean(bc.View(), ls) && Spare(bc.View())
      requires Recoverable(bc.disk, ls) && CanInstall(bc.View(), Decode(bc.disk[ls]), 0)
      modifies bc`disk, bc`crashn, bc`order, bc.buf, bc.next, bc.prev
      ensures Valid() && st != Panicked
      ensures var plan := RecoverPlan(old(bc.disk), ls);
        var k := Completed(bc.crashnEnable, old(bc.crashn), |plan|);
        bc.disk == Apply(old(bc.disk), Cut(plan, k)) && (st == Done <==> k == |plan|)
      ensures st == Done ==> Quiet(bc.View()) && LogClean(bc.View(), ls)
      ensures st == Done ==> var cb := Decode(old(bc.disk)[ls]);
        DirtySet(bc.View()) == DirtySet(old(bc.View())) - (if cb.flag == 1 then Named(cb, cb.size) else {})
    {
      hide Quiet, LogClean, Spare, TwoSpare, Pinned, Cleaned, SameDirty, Linked, Listed, Cached, Apply, Installs;
      hide Value, DirtySet, Named;
      ghost var c, d := bc.View(), bc.disk;
      ValueOnDisk(c, ls, ls);
      var data;
      st, data := ReadBlock(ls);
      SameDirtyKeeps(c, bc.View(), ls);
      SameDirtySet(c, bc.View());
      var cb := Decode(data);
      if cb.flag == 1 {
        RecoveryPrefix(d, ls, Completed(bc.crashnEnable, bc.crashn, cb.size + 1));
        st := InstallAll(cb);
        if st == Done {
          InstallsStay(d, ls, cb, cb.size);
          ghost var m := bc.View();
          st := WriteBlock(ls, ZeroBlock());
          if st == Done {
            LogBlockWritten(m, bc.View(), ls, ls);
            SameDirtyKeeps(m, bc.View(), ls);
            SameDirtySet(m, bc.View());
          }
        }
      } else {
        NothingToRecover(d, ls);
      }
    }

    // The loop of log_recover.
    method InstallAll(cb: CommitBlock) returns (st: Status)
      requires Valid() && Quiet(bc.View()) && LogClean(bc.View(), ls) && Spare(bc.View())
      requires Layout(bc.disk, ls) && Installable(bc.disk, ls, cb) && CanInstall(bc.View(), cb, 0)
      modifies bc`disk, bc`crashn, bc`order, bc.buf, bc.next, bc.prev
      ensures Valid() && st != Panicked
      ensures var k := Completed(bc.crashnEnable, old(bc.crashn), cb.size);
        bc.disk == Apply(old(bc.disk), Installs(old(bc.disk), ls, cb.dst, k)) && (st == Done <==> k == cb.size)
      ensures st == Done ==>
        && Quiet(bc.View()) && LogClean(bc.View(), ls) && Spare(bc.View())
        && DirtySet(bc.View()) == DirtySet(old(bc.View())) - Named(cb, cb.size)
        && bc.crashn == if bc.crashnEnable then old(bc.crashn) - cb.size else old(bc.crashn)
    {
      hide Quiet, LogClean, Spare, TwoSpare, Pinned, Cleaned, Linked, Listed, Apply, Installs, Target, Layout;
      hide DirtySet, Named;
      ghost var d := bc.disk;
      var i := 0;
      assert bc.disk == Apply(d, Installs(d, ls, cb.dst, 0)) by { NoInstalls(d, ls, cb.dst); }
      NamedMore(cb, 0);
      while i < cb.size
        invariant 0 <= i <= cb.size
        invariant Valid() && Quiet(bc.View()) && LogClean(bc.View(), ls) && Spare(bc.View())
        invariant CanInstall(bc.View(), cb, i) && DirtySet(bc.View()) == DirtySet(old(bc.View())) - Named(cb, i)
        invariant bc.disk == Apply(d, Installs(d, ls, cb.dst, i))
        invariant bc.crashn == if bc.crashnEnable then old(bc.crashn) - i else old(bc.crashn)
        invariant i > 0 && bc.crashnEnable ==> bc.crashn >= 0
      {
        InstallsGrow(d, ls, cb, i, bc.disk);
        ghost var c := bc.View();
        st := InstallEntry(i, cb.dst[i]);
        if st == Rebooted { return; }
        AfterInstall(c, bc.View(), ls, cb.dst[i]);
        CleanedSet(c, bc.View(), cb.dst[i]);
        NamedMore(cb, i);
        i := i + 1;
      }
      return Done;
    }

    // One round of log_recover's loop.  The source buffer is read after its brelse.
    method InstallEntry(k: nat, d: nat) returns (st: Status)
      requires Valid() && Quiet(bc.View()) && LogClean(bc.View(), ls) && Spare(bc.View())
      requires k < MAX_ENTRIES && ls + 1 + k in bc.disk && Target(bc.disk, ls, d)
      requires TwoSpare(bc.View()) || Pinned(bc.View(), d)
      modifies bc`disk, bc`crashn, bc`order, bc.buf, bc.next, bc.prev
      ensures Valid() && st != Panicked
      ensures st == Rebooted <==> bc.crashnEnable && old(bc.crashn) <= 0
      ensures st == Rebooted ==> bc.disk == old(bc.disk)
      ensures st == Done ==>
        && Quiet(bc.View()) && Cleaned(old(bc.View()), bc.View(), d)
        && bc.disk == old(bc.disk)[d := old(bc.disk)[ls + 1 + k]]
        && bc.crashn == if bc.crashnEnable then old(bc.crashn) - 1 else old(bc.crashn)
    {
      hide Quiet, LogClean, Spare, TwoSpare, Pinned, Cleaned, SameDirty, Linked, Listed, Handed;
      ghost var c := bc.View();
      var src := ReadSource(ls + 1 + k);
      ghost var m := bc.View();
      var dst := HoldTarget(src, d, c);
      st := Finish(dst, d, bc.buf[src].data, m);
      if st == Done { CleanedThrough(c, m, bc.View(), d); }
    }

    // bread of the target, which leaves the released source buffer as it was.
    method HoldTarget(src: nat, d: nat, ghost c: Cache) returns (dst: nat)
      requires Valid() && Quiet(bc.View()) && SameDirty(c, bc.View()) && d in bc.disk
      requires src < bc.n && |bc.order| > 0 && bc.order[0] == src
      requires !bc.buf[src].dirty && !Holds(bc.buf[src], ROOTDEV, d)
      requires TwoSpare(c) || Pinned(c, d)
      modifies bc`disk, bc.buf
      ensures Valid() && dst < bc.n && dst != src && bc.buf[src] == old(bc.buf[src])
      ensures Handed(old(bc.View()), bc.View(), dst, d)
      ensures old(bc.buf[dst]).dirty ==> Holds(old(bc.buf[dst]), ROOTDEV, d)
    {
      SourceStays(c, bc.View(), d);
      var q := bc.BreadBlock(ROOTDEV, d);
      dst := q.value;
    }

    // bread of a log block, then brelse; the caller keeps the buffer's index.
    method ReadSource(b: nat) returns (src: nat)
      requires Valid() && Quiet(bc.View()) && LogClean(bc.View(), ls) && Spare(bc.View())
      requires InLog(ls, b) && b in bc.disk
      modifies bc`disk, bc`order, bc.buf, bc.next, bc.prev
      ensures Valid() && Quiet(bc.View()) && SameDirty(old(bc.View()), bc.View()) && bc.disk == old(bc.disk)
      ensures src < bc.n && |bc.order| > 0 && bc.order[0] == src
      ensures Holds(bc.buf[src], ROOTDEV, b) && !bc.buf[src].dirty && bc.buf[src].data == bc.disk[b]
    {
      hide Linked, Bread, Unlocked, Value, Cached;
      ghost var c := bc.View();
      ValueOnDisk(c, ls, b);
      BreadOutcome(c, b);
      var r := bc.BreadBlock(ROOTDEV, b);
      src := r.value;
      ReadCycle(c, bc.View(), src, b);
      bc.BrelseBlock(src);
    }
  }

  // A disk on which a transaction can start.
  ghost predicate Ready(d: Disk, ls: nat) {
    Recoverable(d, ls) && ls in d && d[ls] == ZeroBlock()
  }

  // A run of transactions on the running kernel.  Wherever the machine reboots, the
  // recovery of what is on the disk gives exactly a prefix of the transactions: those
  // that finished, with or without the one under way.
  method Session(log: Log, txs: seq<seq<Write>>) returns (n: nat, st: Status)
    requires log.Valid() && Quiet(log.bc.View()) && DirtySet(log.bc.View()) == {} && log.size == 0
    requires Ready(log.bc.disk, log.ls) && forall i :: 0 <= i < |txs| ==> TxOk(log.bc.disk, log.ls, txs[i])
    modifies log, log.bufs, log.bc, log.bc.buf, log.bc.next, log.bc.prev
    ensures n <= |txs| && (st == Done <==> n == |txs|)
    ensures st == Done ==> SameOffLog(log.ls, log.bc.disk, Apply(old(log.bc.disk), Flatten(txs)))
    ensures st == Panicked ==> |BlocksOf(txs[n])| >= log.bc.n
    ensures st == Panicked ==> SameOffLog(log.ls, log.bc.disk, Apply(old(log.bc.disk), Flatten(txs[..n])))
    ensures st == Rebooted ==> Recoverable(log.bc.disk, log.ls) && Ready(Recovered(log.bc.disk, log.ls), log.ls)
    ensures st == Rebooted ==>
      var r := Recovered(log.bc.disk, log.ls);
      exists m :: n <= m <= n + 1 && SameOffLog(log.ls, r, Apply(old(log.bc.disk), Flatten(txs[..m])))
  {
    hide Quiet, LogClean, Linked, Listed, Apply, Target, TxPlan, Recoverable, DirtySet, BlocksOf, SameOffLog, TxOk, Cut;
    ghost var d0, ls := log.bc.disk, log.ls;
    n, st := 0, Done;
    NothingDone(d0, ls, txs);
    while n < |txs|
      invariant n <= |txs| && st == Done && log.Valid() && log.size == 0
      invariant Quiet(log.bc.View()) && DirtySet(log.bc.View()) == {}
      invariant Recoverable(log.bc.disk, ls) && ls in log.bc.disk && log.bc.disk[ls] == ZeroBlock()
      invariant SameOffLog(ls, log.bc.disk, Apply(d0, Flatten(txs[..n])))
    {
      ghost var d, crashn := log.bc.disk, log.bc.crashn;
      TxStillOk(d0, d, ls, txs, n);
      st := log.Transaction(txs[n]);
      if st == Panicked {
        return;
      }
      if st == Rebooted {
        CutShort(d0, d, ls, txs, n, log.bc.disk, Completed(log.bc.crashnEnable, crashn, |TxPlan(d, ls, txs[n])|));
        return;
      }
      TxDone(d, ls, txs[n]);
      OneMore(d0, d, ls, txs, n, log.bc.disk);
      n := n + 1;
    }
    assert txs[..n] == txs;
  }

  lemma NothingDone(d: Disk, ls: nat, txs: seq<seq<Write>>)
    requires Recoverable(d, ls)
    ensures ls in d && SameOffLog(ls, d, Apply(d, Flatten(txs[..0])))
  {
    assert InLog(ls, ls);
  }

  // Transactions write only blocks that exist, so the next one's targets are there.
  lemma TxStillOk(d0: Disk, d: Disk, ls: nat, txs: seq<seq<Write>>, n: nat)
    requires n < |txs| && (forall i :: 0 <= i < |txs| ==> TxOk(d0, ls, txs[i]))
    requires SameOffLog(ls, d, Apply(d0, Flatten(txs[..n])))
    ensures TxOk(d, ls, txs[n])
  {
    FlatOk(d0, ls, txs, n);
    ApplyKeys(d0, Flatten(txs[..n]));
    forall i | 0 <= i < |txs[n]| ensures Target(d, ls, txs[n][i].block) { assert Target(d0, ls, txs[n][i].block); }
  }

  lemma {:induction false} FlatOk(d: Disk, ls: nat, txs: seq<seq<Write>>, n: nat)
    requires n <= |txs| && (forall i :: 0 <= i < |txs| ==> TxOk(d, ls, txs[i]))
    ensures forall i :: 0 <= i < |Flatten(txs[..n])| ==> Flatten(txs[..n])[i].block in d
  {
    if n > 0 {
      FlatOk(d, ls, txs, n - 1);
      FlattenStep(txs, n - 1);
      var tx := txs[n - 1];
      forall i | 0 <= i < |tx| ensures tx[i].block in d { assert Target(d, ls, tx[i].block); }
    }
  }

  lemma OneMore(d0: Disk, d: Disk, ls: nat, txs: seq<seq<Write>>, n: nat, e: Disk)
    requires n < |txs| && SameOffLog(ls, d, Apply(d0, Flatten(txs[..n]))) && SameOffLog(ls, e, Apply(d, txs[n]))
    ensures SameOffLog(ls, e, Apply(d0, Flatten(txs[..n + 1])))
  {
    hide Apply;
    ApplySameOffLog(ls, d, Apply(d0, Flatten(txs[..n])), txs[n]);
    FlattenStep(txs, n);
    ApplyAppend(d0, Flatten(txs[..n]), txs[n]);
  }

  // A transaction that does not finish leaves, after recovery, all of it or none.
  lemma CutShort(d0: Disk, d: Disk, ls: nat, txs: seq<seq<Write>>, n: nat, e: Disk, k: nat)
    requires n < |txs| && SameOffLog(ls, d, Apply(d0, Flatten(txs[..n])))
    requires Recoverable(d, ls) && d[ls] == ZeroBlock() && TxOk(d, ls, txs[n])
    requires e == Apply(d, Cut(TxPlan(d, ls, txs[n]), k))
    ensures Recoverable(e, ls) && Ready(Recovered(e, ls), ls)
    ensures exists m :: n <= m <= n + 1 && SameOffLog(ls, Recovered(e, ls), Apply(d0, Flatten(txs[..m])))
  {
    hide Apply, SameOffLog, TxPlan, Recoverable, Cut;
    CrashAtomicity(d, ls, txs[n], k, []);
    assert e == StoppedAt(d, ls, txs[n], k) && Reboots(e, ls, []) == e;
    var r := Recovered(e, ls);
    OutcomeRecoverable(d, ls, txs[n], k > |txs[n]|, r);
    if k > |txs[n]| {
      OneMore(d0, d, ls, txs, n, r);
    } else {
      OffLogThrough(ls, r, d, Apply(d0, Flatten(txs[..n])));
    }
  }

  lemma OffLogThrough(ls: nat, a: Disk, b: Disk, c: Disk)
    requires SameOffLog(ls, a, b) && SameOffLog(ls, b, c)
    ensures SameOffLog(ls, a, c)
  {
  }

  lemma CleanedThrough(c: Cache, m: Cache, r: Cache, d: nat)
    requires SameDirty(c, m) && Cleaned(m, r, d)
    ensures Cleaned(c, r, d)
  {
  }

  // With a clean buffer besides the source's, or the target pinned, the target's
  // bread finds a buffer and leaves the source's alone.
  lemma SourceStays(c: Cache, m: Cache, d: nat)
    requires Quiet(m) && SameDirty(c, m) && |m.order| > 0 && d in m.disk
    requires !m.bufs[m.order[0]].dirty && !Holds(m.bufs[m.order[0]], ROOTDEV, d)
    requires TwoSpare(c) || Pinned(c, d)
    ensures Bread(m, ROOTDEV, d).Some? && Unlocked(m, ROOTDEV, d)
    ensures var r := Bread(m, ROOTDEV, d).value;
      && Handed(m, r.0, r.1, d) && r.1 != m.order[0]
      && (m.bufs[r.1].dirty ==> Holds(m.bufs[r.1], ROOTDEV, d))
  {
    if Pinned(c, d) {
      var i :| 0 <= i < |c.bufs| && Holds(c.bufs[i], ROOTDEV, d) && c.bufs[i].dirty;
      assert Holds(m.bufs[i], ROOTDEV, d);
    } else {
      var i, j :| 0 <= i < j < |c.bufs| && !c.bufs[i].dirty && !c.bufs[j].dirty;
      assert !m.bufs[i].dirty && !m.bufs[j].dirty;
    }
    assert Spare(m);
    BreadOutcome(m, d);
    BreadIsBusy(m, d);
    ReleasedSurvives(m, d);
  }

  lemma FreshIsQuiet(c: Cache)
    requires Listed(c) && forall i :: 0 <= i < |c.bufs| ==> c.bufs[i] == Buf(0, 0, false, false, 0, false, ZeroBlock())
    ensures Quiet(c) && (|c.bufs| >= 2 ==> TwoSpare(c) && Spare(c)) && DirtySet(c) == {}
    ensures forall ls: nat :: LogClean(c, ls)
  {
    if |c.bufs| >= 2 { assert !c.bufs[0].dirty && !c.bufs[1].dirty; }
  }

  // The boot after a crash: all that survives is the disk; iinit recovers it.
  method Boot(n: nat, disk: Disk, ls: nat) returns (log: Log)
    requires n >= 2 && Recoverable(disk, ls)
    ensures log.Valid() && log.ls == ls && log.bc.n == n && log.size == 0 && fresh(log)
    ensures log.bc.disk == Recovered(disk, ls)
    ensures Quiet(log.bc.View()) && LogClean(log.bc.View(), ls) && DirtySet(log.bc.View()) == {}
  {
    var bc := new Bcache(n, disk);
    log := new Log(bc, ls);
    FreshIsQuiet(bc.View());
    var st := log.LogRecover();
    assert Cut(RecoverPlan(disk, ls), |RecoverPlan(disk, ls)|) == RecoverPlan(disk, ls);
  }
}
