/**
 The cache between operations of a single process: what one bread/brelse pair does
 to it, which buffers stay pinned, and when the "no buffers" panic is reached.
 */
module QuietCache {
  import opened Prelude
  import opened Blocks
  import opened BufferCache
  import opened CacheProtocol
  import opened Bio

  // Nobody uses any buffer.
  predicate Quiet(c: Cache) {
    && Listed(c) && Unique(c)
    && forall i :: 0 <= i < |c.bufs| ==> BufOk(c.disk, c.bufs[i]) && c.bufs[i].refcnt == 0 && !c.bufs[i].locked
  }

  predicate Cached(c: Cache, b: nat) {
    exists i :: 0 <= i < |c.bufs| && Holds(c.bufs[i], ROOTDEV, b)
  }

  // Held in the cache until its transaction is installed.
  predicate Pinned(c: Cache, b: nat) {
    exists i :: 0 <= i < |c.bufs| && Holds(c.bufs[i], ROOTDEV, b) && c.bufs[i].dirty
  }

  predicate Spare(c: Cache) {
    exists i :: 0 <= i < |c.bufs| && !c.bufs[i].dirty
  }

  predicate TwoSpare(c: Cache) {
    exists i, j :: 0 <= i < j < |c.bufs| && !c.bufs[i].dirty && !c.bufs[j].dirty
  }

  // The same buffers are dirty, and those are unchanged.
  predicate SameDirty(c: Cache, r: Cache) {
    && |c.bufs| == |r.bufs|
    && forall j :: 0 <= j < |c.bufs| ==>
         r.bufs[j].dirty == c.bufs[j].dirty && (c.bufs[j].dirty ==> r.bufs[j] == c.bufs[j])
  }

  // As SameDirty, but the buffer for block b, if it was dirty, has become clean.
  predicate Cleaned(c: Cache, r: Cache, b: nat) {
    && |c.bufs| == |r.bufs|
    && forall j :: 0 <= j < |c.bufs| ==>
         && r.bufs[j].dirty == (c.bufs[j].dirty && !Holds(c.bufs[j], ROOTDEV, b))
         && (r.bufs[j].dirty ==> r.bufs[j] == c.bufs[j])
  }

  // Buffer i of n is held by its one user for block b; the rest are quiet.
  predicate Busy(n: Cache, i: nat, b: nat) {
    && Listed(n) && Unique(n) && i < |n.bufs| && b in n.disk
    && Holds(n.bufs[i], ROOTDEV, b) && n.bufs[i].valid && n.bufs[i].refcnt == 1 && n.bufs[i].locked
    && forall j :: 0 <= j < |n.bufs| && j != i ==>
         BufOk(n.disk, n.bufs[j]) && n.bufs[j].refcnt == 0 && !n.bufs[j].locked
  }

  // ---- bread ----

  lemma PanicExactly(c: Cache, b: nat)
    requires Quiet(c)
    ensures Get(c, ROOTDEV, b) == None <==> !Cached(c, b) && !Spare(c)
  {
    var k, v := Search(c, ROOTDEV, b, 0), Victim(c, |c.order|);
    if k < |c.order| {
      assert Holds(c.bufs[c.order[k]], ROOTDEV, b);
    } else {
      forall i | 0 <= i < |c.bufs| ensures !Holds(c.bufs[i], ROOTDEV, b) && (v == 0 ==> c.bufs[i].dirty) {
        var l := Position(c.order, i);
        assert v == 0 ==> !Recyclable(c.bufs[c.order[l]]);
      }
      if v > 0 { assert !c.bufs[c.order[v - 1]].dirty; }
    }
  }

  // The buffer bget picks: the block's own, or a clean one; the front of the list
  // only if every other buffer is dirty.
  lemma GetPicks(c: Cache, b: nat)
    requires Quiet(c) && Get(c, ROOTDEV, b).Some?
    ensures var i := Get(c, ROOTDEV, b).value.1;
      && i < |c.bufs| && Unlocked(c, ROOTDEV, b)
      && (Cached(c, b) <==> Holds(c.bufs[i], ROOTDEV, b))
      && (!Cached(c, b) ==> !c.bufs[i].dirty)
      && (!Cached(c, b) && i == c.order[0] ==> forall j :: 0 <= j < |c.bufs| && j != i ==> c.bufs[j].dirty)
  {
    var k, v := Search(c, ROOTDEV, b, 0), Victim(c, |c.order|);
    if k == |c.order| {
      forall j | 0 <= j < |c.bufs|
        ensures !Holds(c.bufs[j], ROOTDEV, b)
        ensures v == 1 && j != c.order[0] ==> c.bufs[j].dirty
      {
        var l := Position(c.order, j);
        assert v <= l ==> !Recyclable(c.bufs[c.order[l]]);
      }
    }
  }

  // What bread hands out: the block's contents in a buffer held by the caller alone,
  // every other buffer as it was.
  predicate Handed(c: Cache, n: Cache, i: nat, b: nat) {
    && Busy(n, i, b) && i < |c.bufs| && n.bufs == c.bufs[i := n.bufs[i]] && n.order == c.order && n.disk == c.disk
    && Listed(c) && n.bufs[i].data == Value(c, ROOTDEV, b)
    && n.bufs[i].dirty == c.bufs[i].dirty
    && (n.bufs[i].dirty || n.bufs[i].data == n.disk[b])
  }

  lemma HitIsBusy(c: Cache, i: nat, b: nat)
    requires Quiet(c) && i < |c.bufs| && Holds(c.bufs[i], ROOTDEV, b) && c.bufs[i].valid
    ensures Handed(c, With(c, i, c.bufs[i].(refcnt := 1, locked := true)), i, b)
  {
    ValueCached(c, i);
    assert BufOk(c.disk, c.bufs[i]);
  }

  lemma ReadIsBusy(c: Cache, i: nat, b: nat)
    requires Quiet(c) && i < |c.bufs| && b in c.disk
    requires if Cached(c, b) then Holds(c.bufs[i], ROOTDEV, b) && !c.bufs[i].valid else !c.bufs[i].dirty
    ensures Handed(c, With(c, i, Buf(ROOTDEV, b, true, false, 1, true, c.disk[b])), i, b)
  {
    if Cached(c, b) {
      ValueCached(c, i);
      assert BufOk(c.disk, c.bufs[i]);
    } else {
      ValueUncached(c, ROOTDEV, b);
    }
    assert Unique(With(c, i, Buf(ROOTDEV, b, true, false, 1, true, c.disk[b])));
  }

  lemma BreadIsBusy(c: Cache, b: nat)
    requires Quiet(c) && b in c.disk && Bread(c, ROOTDEV, b).Some?
    ensures var r := Bread(c, ROOTDEV, b).value;
      Handed(c, r.0, r.1, b) && r.1 == Get(c, ROOTDEV, b).value.1
  {
    GetPicks(c, b);
    var r := Bread(c, ROOTDEV, b).value;
    var i := r.1;
    assert BufOk(c.disk, c.bufs[i]);
    if c.bufs[i].valid && Cached(c, b) {
      HitIsBusy(c, i, b);
      assert r.0 == With(c, i, c.bufs[i].(refcnt := 1, locked := true));
    } else {
      ReadIsBusy(c, i, b);
      assert r.0 == With(c, i, Buf(ROOTDEV, b, true, false, 1, true, c.disk[b]));
    }
  }

  // bread on a quiet cache: it panics exactly when the block is not cached and every
  // buffer is pinned; otherwise it hands the block out without waiting.
  lemma BreadOutcome(c: Cache, b: nat)
    requires Quiet(c) && b in c.disk
    ensures Bread(c, ROOTDEV, b) == None <==> !Cached(c, b) && !Spare(c)
    ensures Unlocked(c, ROOTDEV, b)
    ensures Bread(c, ROOTDEV, b).Some? ==>
      && Handed(c, Bread(c, ROOTDEV, b).value.0, Bread(c, ROOTDEV, b).value.1, b)
      && (c.bufs[Bread(c, ROOTDEV, b).value.1].dirty ==> Holds(c.bufs[Bread(c, ROOTDEV, b).value.1], ROOTDEV, b))
  {
    PanicExactly(c, b);
    if Get(c, ROOTDEV, b).Some? {
      GetPicks(c, b);
      BreadIsBusy(c, b);
    }
  }

  // ---- brelse ----

  lemma BrelseIsQuiet(n: Cache, i: nat, b: nat)
    requires Busy(n, i, b) && (n.bufs[i].dirty || n.bufs[i].data == n.disk[b])
    ensures i in n.order
    ensures var r := Brelse(n, i);
      && Quiet(r) && r.bufs == n.bufs[i := n.bufs[i].(refcnt := 0, locked := false)]
      && r.disk == n.disk && |r.order| > 0 && r.order[0] == i
  {
    var m := With(n, i, n.bufs[i].(refcnt := 0, locked := false));
    MoveToFrontKeepsList(m, i);
    assert Brelse(n, i) == m.(order := MoveToFront(m.order, i));
  }

  // ---- bwrite ----

  lemma WriteIsBusy(n: Cache, i: nat, b: nat)
    requires Busy(n, i, b)
    ensures var r := WriteBack(n, i);
      && Busy(r, i, b) && r.bufs == n.bufs[i := n.bufs[i].(dirty := false, valid := true)]
      && r.disk == n.disk[b := n.bufs[i].data] && r.order == n.order
  {
    var r := WriteBack(n, i);
    forall j | 0 <= j < |r.bufs| && j != i ensures BufOk(r.disk, r.bufs[j]) {
      assert BufOk(n.disk, n.bufs[j]);
      NoOtherSlot(n, i, j);
    }
  }

  // Store and bwrite on a held buffer.
  function Overwrite(n: Cache, i: nat, data: Block): Cache
    requires i < |n.bufs| && n.bufs[i].blockno in n.disk
  {
    WriteBack(With(n, i, n.bufs[i].(data := data)), i)
  }

  // bread, store, bwrite and brelse of one block, from a quiet cache to a quiet cache.
  lemma WriteCycle(c: Cache, n: Cache, i: nat, b: nat, data: Block)
    requires Quiet(c) && Handed(c, n, i, b) && (c.bufs[i].dirty ==> Holds(c.bufs[i], ROOTDEV, b))
    ensures n.bufs[i].locked && n.bufs[i].blockno == b && b in n.disk
    ensures i in n.order && Overwrite(n, i, data).order == n.order
    ensures |Overwrite(n, i, data).bufs| == |n.bufs|
    ensures Overwrite(n, i, data).bufs[i].refcnt == 1 && Overwrite(n, i, data).bufs[i].locked
    ensures Quiet(Brelse(Overwrite(n, i, data), i)) && Cleaned(c, Brelse(Overwrite(n, i, data), i), b)
    ensures Brelse(Overwrite(n, i, data), i).disk == c.disk[b := data]
  {
    var m := With(n, i, n.bufs[i].(data := data));
    WriteIsBusy(m, i, b);
    BrelseIsQuiet(WriteBack(m, i), i, b);
    forall j | 0 <= j < |c.bufs| && j != i
      ensures !Holds(c.bufs[j], ROOTDEV, b)
    {
      NoOtherSlot(n, i, j);
    }
  }

  // bread and brelse of one block.
  lemma ReadCycle(c: Cache, n: Cache, i: nat, b: nat)
    requires Quiet(c) && Handed(c, n, i, b) && (c.bufs[i].dirty ==> Holds(c.bufs[i], ROOTDEV, b))
    ensures i in n.order
    ensures var r := Brelse(n, i);
      && Quiet(r) && SameDirty(c, r) && r.disk == c.disk && |r.order| > 0 && r.order[0] == i
      && Holds(r.bufs[i], ROOTDEV, b) && r.bufs[i].data == Value(c, ROOTDEV, b)
  {
    BrelseIsQuiet(n, i, b);
    assert c.bufs[i].dirty ==> BufOk(c.disk, c.bufs[i]);
    if c.bufs[i].dirty { ValueCached(c, i); }
  }

  // A buffer just released is at the front of the list, so the next bread takes it
  // only when it has no choice.
  lemma ReleasedSurvives(c: Cache, b: nat)
    requires Quiet(c) && Get(c, ROOTDEV, b).Some? && |c.order| > 0
    requires !c.bufs[c.order[0]].dirty && !Holds(c.bufs[c.order[0]], ROOTDEV, b)
    ensures Get(c, ROOTDEV, b).value.1 == c.order[0] <==>
      !Cached(c, b) && forall j :: 0 <= j < |c.bufs| && j != c.order[0] ==> c.bufs[j].dirty
  {
    GetPicks(c, b);
    var i := Get(c, ROOTDEV, b).value.1;
    if !Cached(c, b) && (forall j :: 0 <= j < |c.bufs| && j != c.order[0] ==> c.bufs[j].dirty) {
      assert !c.bufs[i].dirty;
    }
  }

  // ---- pinning ----

  // bread, store, mark dirty and brelse: block b is now pinned with the new data.
  function Pin(n: Cache, i: nat, data: Block): Cache
    requires i < |n.bufs|
  {
    With(n, i, n.bufs[i].(data := data, dirty := true))
  }

  lemma PinCycle(c: Cache, n: Cache, i: nat, b: nat, data: Block)
    requires Quiet(c) && Handed(c, n, i, b) && (c.bufs[i].dirty ==> Holds(c.bufs[i], ROOTDEV, b))
    ensures i in n.order && n.bufs[i].refcnt == 1 && n.bufs[i].locked && n.bufs[i].blockno == b
    ensures Quiet(Brelse(Pin(n, i, data), i)) && Brelse(Pin(n, i, data), i).disk == c.disk
    ensures DirtySet(Brelse(Pin(n, i, data), i)) == DirtySet(c) + {b}
  {
    var m := Pin(n, i, data);
    BrelseIsQuiet(m, i, b);
    var r := Brelse(m, i);
    forall x
      ensures x in DirtySet(r) <==> x in DirtySet(c) + {b}
    {
      if x in DirtySet(c) {
        var j :| 0 <= j < |c.bufs| && c.bufs[j].dirty && c.bufs[j].blockno == x;
        assert r.bufs[j].dirty && r.bufs[j].blockno == x;
      }
      if x in DirtySet(r) {
        var j :| 0 <= j < |r.bufs| && r.bufs[j].dirty && r.bufs[j].blockno == x;
        assert j != i ==> c.bufs[j].dirty && c.bufs[j].blockno == x;
      }
      assert r.bufs[i].dirty && r.bufs[i].blockno == b;
    }
  }

  function DirtySet(c: Cache): set<nat> {
    set i | 0 <= i < |c.bufs| && c.bufs[i].dirty :: c.bufs[i].blockno
  }

  function DirtyBelow(c: Cache, m: nat): set<nat>
    requires m <= |c.bufs|
  {
    if m == 0 then {}
    else if c.bufs[m - 1].dirty then DirtyBelow(c, m - 1) + {c.bufs[m - 1].blockno}
    else DirtyBelow(c, m - 1)
  }

  lemma {:induction false} DirtyBelowHas(c: Cache, m: nat, b: nat)
    requires m <= |c.bufs|
    ensures b in DirtyBelow(c, m) <==> exists i :: 0 <= i < m && c.bufs[i].dirty && c.bufs[i].blockno == b
  {
    if m > 0 { DirtyBelowHas(c, m - 1, b); }
  }

  predicate DirtyDistinct(c: Cache) {
    forall i, j :: 0 <= i < j < |c.bufs| && c.bufs[i].dirty && c.bufs[j].dirty ==>
      c.bufs[i].blockno != c.bufs[j].blockno
  }

  lemma QuietDistinct(c: Cache)
    requires Quiet(c)
    ensures DirtyDistinct(c)
  {
    forall i, j | 0 <= i < j < |c.bufs| && c.bufs[i].dirty && c.bufs[j].dirty
      ensures c.bufs[i].blockno != c.bufs[j].blockno
    {
      assert BufOk(c.disk, c.bufs[i]) && BufOk(c.disk, c.bufs[j]);
    }
  }

  // Dirty buffers are for different blocks, so there are as many blocks as buffers.
  lemma {:induction false} DirtyCount(c: Cache, m: nat)
    requires DirtyDistinct(c) && m <= |c.bufs|
    ensures |DirtyBelow(c, m)| <= m
    ensures |DirtyBelow(c, m)| == m <==> forall i :: 0 <= i < m ==> c.bufs[i].dirty
  {
    if m > 0 {
      DirtyCount(c, m - 1);
      DirtyBelowHas(c, m - 1, c.bufs[m - 1].blockno);
    }
  }

  lemma AllPinned(c: Cache)
    requires Quiet(c)
    ensures |DirtySet(c)| <= |c.bufs|
    ensures |DirtySet(c)| == |c.bufs| <==> !Spare(c)
  {
    QuietDistinct(c);
    DirtyCount(c, |c.bufs|);
    assert DirtySet(c) == DirtyBelow(c, |c.bufs|) by {
      forall b: nat ensures b in DirtySet(c) <==> b in DirtyBelow(c, |c.bufs|) { DirtyBelowHas(c, |c.bufs|, b); }
    }
  }

  lemma PinnedIffDirty(c: Cache, b: nat)
    requires Quiet(c)
    ensures Pinned(c, b) <==> b in DirtySet(c)
  {
    if i :| 0 <= i < |c.bufs| && c.bufs[i].dirty && c.bufs[i].blockno == b {
      assert BufOk(c.disk, c.bufs[i]);
      assert Holds(c.bufs[i], ROOTDEV, b);
    }
  }
}
