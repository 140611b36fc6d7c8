/**
 The buffer cache of kernel/bio.c: its state as a value, and what each locked
 section of `bget`, `bread`, `bwrite` and `brelse` does to it.

 `order` is the doubly linked list read from `bcache.head.next`: most recently
 released first.  The disk answers `iderw` at once, as kernel/memide.c does.
 */
module BufferCache {
  import opened Prelude
  import opened Blocks

  datatype Buf = Buf(dev: nat, blockno: nat, valid: bool, dirty: bool, refcnt: nat, locked: bool, data: Block)

  datatype Cache = Cache(bufs: seq<Buf>, order: seq<nat>, disk: Disk)

  // ---- the list ----

  predicate Listed(c: Cache) {
    && |c.order| == |c.bufs|
    && (forall k :: 0 <= k < |c.order| ==> c.order[k] < |c.bufs|)
    && (forall k, l :: 0 <= k < l < |c.order| ==> c.order[k] != c.order[l])
    && (forall i :: 0 <= i < |c.bufs| ==> i in c.order)
  }

  function Position(order: seq<nat>, i: nat): (k: nat)
    requires i in order
    ensures k < |order| && order[k] == i
  {
    if order[0] == i then 0 else 1 + Position(order[1..], i)
  }

  function MoveToFront(order: seq<nat>, i: nat): seq<nat>
    requires i in order
  {
    var k := Position(order, i);
    [i] + order[..k] + order[k + 1..]
  }

  // ---- the scans of bget ----

  predicate Holds(b: Buf, dev: nat, blockno: nat) {
    b.dev == dev && b.blockno == blockno
  }

  // Unused and clean: dirty and unlocked means not yet committed.
  predicate Recyclable(b: Buf) {
    b.refcnt == 0 && !b.dirty
  }

  // Forward scan: the first place from k on whose buffer holds the block.
  function Search(c: Cache, dev: nat, blockno: nat, k: nat): (r: nat)
    requires Listed(c) && k <= |c.order|
    ensures k <= r <= |c.order|
    ensures forall l :: k <= l < r ==> !Holds(c.bufs[c.order[l]], dev, blockno)
    ensures r < |c.order| ==> Holds(c.bufs[c.order[r]], dev, blockno)
    decreases |c.order| - k
  {
    if k == |c.order| || Holds(c.bufs[c.order[k]], dev, blockno) then k
    else Search(c, dev, blockno, k + 1)
  }

  // Backward scan: the last place before k whose buffer can be recycled, plus one.
  function Victim(c: Cache, k: nat): (r: nat)
    requires Listed(c) && k <= |c.order|
    ensures r <= k
    ensures forall l :: r <= l < k ==> !Recyclable(c.bufs[c.order[l]])
    ensures r > 0 ==> Recyclable(c.bufs[c.order[r - 1]])
  {
    if k == 0 || Recyclable(c.bufs[c.order[k - 1]]) then k else Victim(c, k - 1)
  }

  function With(c: Cache, i: nat, b: Buf): Cache
    requires i < |c.bufs|
  {
    c.(bufs := c.bufs[i := b])
  }

  // The block is cached in buffer i: one more user.
  function Hit(c: Cache, i: nat): Cache
    requires i < |c.bufs|
  {
    With(c, i, c.bufs[i].(refcnt := c.bufs[i].refcnt + 1))
  }

  // Buffer i becomes the buffer for the block, with nothing read yet.
  function Recycle(c: Cache, i: nat, dev: nat, blockno: nat): Cache
    requires i < |c.bufs|
  {
    With(c, i, Buf(dev, blockno, false, false, 1, c.bufs[i].locked, c.bufs[i].data))
  }

  // bget up to the point where it waits for the buffer's lock.  None is the panic.
  function Get(c: Cache, dev: nat, blockno: nat): (r: Option<(Cache, nat)>)
    requires Listed(c)
  {
    var k := Search(c, dev, blockno, 0);
    if k < |c.order| then Some((Hit(c, c.order[k]), c.order[k]))
    else
      var v := Victim(c, |c.order|);
      if v == 0 then None else Some((Recycle(c, c.order[v - 1], dev, blockno), c.order[v - 1]))
  }

  // iderw: a dirty buffer is written to disk, any other is read from it.
  function Sync(c: Cache, i: nat): Cache
    requires i < |c.bufs| && c.bufs[i].blockno in c.disk
  {
    var b := c.bufs[i];
    if b.dirty then With(c, i, b.(dirty := false, valid := true)).(disk := c.disk[b.blockno := b.data])
    else With(c, i, b.(valid := true, data := c.disk[b.blockno]))
  }

  // bwrite
  function WriteBack(c: Cache, i: nat): Cache
    requires i < |c.bufs| && c.bufs[i].blockno in c.disk
  {
    Sync(With(c, i, c.bufs[i].(dirty := true)), i)
  }

  // brelse after `releasesleep`
  function Drop(c: Cache, i: nat): Cache
    requires i in c.order && i < |c.bufs| && c.bufs[i].refcnt > 0
  {
    var b := c.bufs[i].(refcnt := c.bufs[i].refcnt - 1);
    if b.refcnt == 0 then With(c, i, b).(order := MoveToFront(c.order, i)) else With(c, i, b)
  }

  // ---- facts about the list ----

  lemma MoveToFrontKeepsAll(order: seq<nat>, i: nat, j: nat)
    requires i in order && j in order
    ensures j in MoveToFront(order, i)
  {
    var k, l := Position(order, i), Position(order, j);
    var o := MoveToFront(order, i);
    assert if l == k then o[0] == j else if l < k then o[l + 1] == j else o[l] == j;
  }

  lemma MoveToFrontKeepsList(c: Cache, i: nat)
    requires Listed(c) && i < |c.bufs|
    ensures Listed(c.(order := MoveToFront(c.order, i)))
  {
    forall j | 0 <= j < |c.bufs|
      ensures j in MoveToFront(c.order, i)
    {
      MoveToFrontKeepsAll(c.order, i, j);
    }
  }

  // ---- the block map the cache stands for ----

  // At most one buffer per block of a real device.
  predicate Unique(c: Cache) {
    forall i, j :: 0 <= i < j < |c.bufs| && c.bufs[i].dev != 0 ==>
      !Holds(c.bufs[j], c.bufs[i].dev, c.bufs[i].blockno)
  }

  // The contents a reader of the block would be given.
  function Value(c: Cache, dev: nat, blockno: nat): Block
    requires Listed(c) && blockno in c.disk
  {
    var k := Search(c, dev, blockno, 0);
    if k < |c.order| && c.bufs[c.order[k]].valid then c.bufs[c.order[k]].data else c.disk[blockno]
  }

  // The buffer that holds a block is the one the scan finds.
  lemma SearchFinds(c: Cache, i: nat)
    requires Listed(c) && Unique(c) && i < |c.bufs| && c.bufs[i].dev != 0
    ensures var k := Search(c, c.bufs[i].dev, c.bufs[i].blockno, 0); k < |c.order| && c.order[k] == i
  {
    var l := Position(c.order, i);
    var k := Search(c, c.bufs[i].dev, c.bufs[i].blockno, 0);
    assert k <= l;
    assert !(c.order[k] < i) && !(i < c.order[k]);
  }

  lemma ValueCached(c: Cache, i: nat)
    requires Listed(c) && Unique(c) && i < |c.bufs| && c.bufs[i].dev != 0 && c.bufs[i].blockno in c.disk
    ensures Value(c, c.bufs[i].dev, c.bufs[i].blockno) ==
      if c.bufs[i].valid then c.bufs[i].data else c.disk[c.bufs[i].blockno]
  {
    SearchFinds(c, i);
  }

  lemma ValueUncached(c: Cache, dev: nat, blockno: nat)
    requires Listed(c) && blockno in c.disk
    requires forall i :: 0 <= i < |c.bufs| ==> !Holds(c.bufs[i], dev, blockno)
    ensures Value(c, dev, blockno) == c.disk[blockno]
  {
  }
}
