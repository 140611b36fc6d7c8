/**
 Any number of processes using the buffer cache at once.

 A step is one critical section of kernel/bio.c or one wait for a buffer's
 sleeplock; steps of different processes interleave freely.
 */
module CacheProtocol {
  import opened Prelude
  import opened Blocks
  import opened BufferCache

  const ROOTDEV := 1

  // Where a process is with a buffer: bget has counted it but it has no lock yet;
  // it holds the lock; brelse has dropped the lock but not yet the reference.
  datatype Client =
    | Idle
    | Waiting(i: nat, blockno: nat)
    | Holding(i: nat, blockno: nat)
    | Leaving(i: nat, blockno: nat)

  // `stamps[i]` is the time at which buffer i was last released by its last user.
  datatype Sys = Sys(c: Cache, clients: seq<Client>, stamps: seq<nat>, now: nat)

  datatype Step =
    | Bget(p: nat, blockno: nat)
    | Lock(p: nat)
    | ReadIn(p: nat)
    | Store(p: nat, data: Block)
    | Bwrite(p: nat)
    | Pin(p: nat)
    | Unlock(p: nat)
    | Unref(p: nat)

  function Moved(s: Sys, p: nat, c: Cache, x: Client): Sys
    requires p < |s.clients|
  {
    s.(c := c, clients := s.clients[p := x])
  }

  predicate AtValid(s: Sys, p: nat) {
    && p < |s.clients| && s.clients[p].Holding?
    && s.clients[p].i < |s.c.bufs| && s.c.bufs[s.clients[p].i].valid
    && s.c.bufs[s.clients[p].i].blockno in s.c.disk
  }

  // The rule of bio.c's header: a buffer whose data was changed is written, or
  // pinned dirty for the log, before it is let go.
  predicate Settled(s: Sys, p: nat)
    requires AtValid(s, p)
  {
    var b := s.c.bufs[s.clients[p].i];
    b.dirty || b.data == s.c.disk[b.blockno]
  }

  predicate Enabled(s: Sys, t: Step) {
    && t.p < |s.clients| && Listed(s.c)
    && var x := s.clients[t.p];
       match t
       case Bget(_, b) => x.Idle? && b in s.c.disk && Get(s.c, ROOTDEV, b).Some?
       case Lock(_) => x.Waiting? && x.i < |s.c.bufs| && !s.c.bufs[x.i].locked
       case ReadIn(_) => x.Holding? && x.i < |s.c.bufs| && !s.c.bufs[x.i].valid && s.c.bufs[x.i].blockno in s.c.disk
       case Store(_, _) => AtValid(s, t.p)
       case Bwrite(_) => AtValid(s, t.p)
       case Pin(_) => AtValid(s, t.p)
       case Unlock(_) => AtValid(s, t.p) && Settled(s, t.p)
       case Unref(_) => x.Leaving? && x.i < |s.c.bufs| && s.c.bufs[x.i].refcnt > 0
  }

  function Next(s: Sys, t: Step): Sys
    requires Enabled(s, t)
  {
    var p := t.p;
    var x := s.clients[p];
    match t
    case Bget(_, b) =>
      var r := Get(s.c, ROOTDEV, b).value;
      Moved(s, p, r.0, Waiting(r.1, b))
    case Lock(_) =>
      Moved(s, p, With(s.c, x.i, s.c.bufs[x.i].(locked := true)), Holding(x.i, x.blockno))
    case ReadIn(_) => s.(c := Sync(s.c, x.i))
    case Store(_, data) => s.(c := With(s.c, x.i, s.c.bufs[x.i].(data := data)))
    case Bwrite(_) => s.(c := WriteBack(s.c, x.i))
    case Pin(_) => s.(c := With(s.c, x.i, s.c.bufs[x.i].(dirty := true)))
    case Unlock(_) =>
      Moved(s, p, With(s.c, x.i, s.c.bufs[x.i].(locked := false)), Leaving(x.i, x.blockno))
    case Unref(_) =>
      var n := Moved(s, p, Drop(s.c, x.i), Idle);
      if s.c.bufs[x.i].refcnt == 1 && x.i < |s.stamps|
      then n.(stamps := s.stamps[x.i := s.now + 1], now := s.now + 1) else n
  }

  // ---- counting ----

  predicate At(x: Client, i: nat) {
    !x.Idle? && x.i == i
  }

  predicate HoldsLock(x: Client, i: nat) {
    x.Holding? && x.i == i
  }

  function Users(xs: seq<Client>, i: nat): nat {
    if xs == [] then 0 else Users(xs[..|xs| - 1], i) + if At(xs[|xs| - 1], i) then 1 else 0
  }

  function Holders(xs: seq<Client>, i: nat): nat {
    if xs == [] then 0 else Holders(xs[..|xs| - 1], i) + if HoldsLock(xs[|xs| - 1], i) then 1 else 0
  }

  lemma {:induction false} CountUpdate(xs: seq<Client>, p: nat, x: Client, i: nat)
    requires p < |xs|
    ensures Users(xs[p := x], i) == Users(xs, i) + (if At(x, i) then 1 else 0) - (if At(xs[p], i) then 1 else 0)
    ensures Holders(xs[p := x], i) ==
      Holders(xs, i) + (if HoldsLock(x, i) then 1 else 0) - (if HoldsLock(xs[p], i) then 1 else 0)
  {
    var n := |xs| - 1;
    if p == n {
      assert xs[p := x][..n] == xs[..n];
    } else {
      CountUpdate(xs[..n], p, x, i);
      assert xs[p := x][..n] == xs[..n][p := x];
    }
  }

  lemma {:induction false} CountPositive(xs: seq<Client>, p: nat, i: nat)
    requires p < |xs|
    ensures At(xs[p], i) ==> Users(xs, i) > 0
    ensures HoldsLock(xs[p], i) ==> Holders(xs, i) > 0
    ensures Holders(xs, i) <= Users(xs, i)
  {
    var n := |xs| - 1;
    if p < n {
      CountPositive(xs[..n], p, i);
    } else if n > 0 {
      CountPositive(xs[..n], 0, i);
    }
  }

  lemma {:induction false} TwoHolders(xs: seq<Client>, p: nat, q: nat, i: nat)
    requires p < q < |xs| && HoldsLock(xs[p], i) && HoldsLock(xs[q], i)
    ensures Holders(xs, i) >= 2
  {
    var n := |xs| - 1;
    if q < n { TwoHolders(xs[..n], p, q, i); } else { CountPositive(xs[..n], p, i); }
  }

  // ---- the invariant ----

  // One buffer's own state.
  predicate BufOk(d: Disk, b: Buf) {
    && (b.dev == 0 || b.dev == ROOTDEV)
    && (b.dev == 0 ==> !b.valid && b.refcnt == 0)
    && (b.dev != 0 ==> b.blockno in d)
    && (!b.valid ==> !b.dirty)
    // a clean buffer nobody is using agrees with the disk
    && (b.valid && !b.dirty && !b.locked ==> b.data == d[b.blockno])
  }

  // A process and the buffer it waits for, holds or leaves: the buffer still holds
  // the block the process asked for.
  predicate ClientOk(c: Cache, x: Client) {
    x.Idle? || (x.i < |c.bufs| && Holds(c.bufs[x.i], ROOTDEV, x.blockno) && (x.Leaving? ==> c.bufs[x.i].valid))
  }

  predicate CountsOk(s: Sys) {
    forall i :: 0 <= i < |s.c.bufs| ==>
      && s.c.bufs[i].refcnt == Users(s.clients, i)
      && Holders(s.clients, i) == if s.c.bufs[i].locked then 1 else 0
  }

  // The list runs from the most to the least recently released buffer.
  predicate Recency(s: Sys) {
    && |s.stamps| == |s.c.bufs|
    && (forall i :: 0 <= i < |s.stamps| ==> s.stamps[i] <= s.now)
    && forall k, l :: 0 <= k < l < |s.c.order| && s.c.order[l] < |s.stamps| && s.c.order[k] < |s.stamps| ==>
         s.stamps[s.c.order[l]] <= s.stamps[s.c.order[k]]
  }

  predicate Inv(s: Sys) {
    && Listed(s.c) && Unique(s.c)
    && (forall i :: 0 <= i < |s.c.bufs| ==> BufOk(s.c.disk, s.c.bufs[i]))
    && (forall p :: 0 <= p < |s.clients| ==> ClientOk(s.c, s.clients[p]))
    && CountsOk(s)
    && Recency(s)
  }

  // ---- each kind of step keeps it ----

  // Steps that only change one buffer, never which block it is for.
  lemma KeepBuffer(s: Sys, p: nat, i: nat, b: Buf, x: Client)
    requires Inv(s) && p < |s.clients| && i < |s.c.bufs|
    requires b.dev == s.c.bufs[i].dev && b.blockno == s.c.bufs[i].blockno
    requires s.c.bufs[i].valid ==> b.valid
    requires BufOk(s.c.disk, b)
    requires At(x, i) || x.Idle?
    requires At(s.clients[p], i) || s.clients[p].Idle?
    requires b.refcnt == Users(s.clients[p := x], i)
    requires Holders(s.clients[p := x], i) == if b.locked then 1 else 0
    requires ClientOk(With(s.c, i, b), x)
    ensures Inv(Moved(s, p, With(s.c, i, b), x))
  {
    var n := Moved(s, p, With(s.c, i, b), x);
    forall j | 0 <= j < |n.c.bufs|
      ensures n.c.bufs[j].refcnt == Users(n.clients, j)
      ensures Holders(n.clients, j) == if n.c.bufs[j].locked then 1 else 0
    {
      CountUpdate(s.clients, p, x, j);
    }
    forall q | 0 <= q < |n.clients|
      ensures ClientOk(n.c, n.clients[q])
    {
      assert q != p ==> ClientOk(s.c, s.clients[q]);
    }
  }

  lemma LockKeeps(s: Sys, p: nat)
    requires Inv(s) && Enabled(s, Lock(p))
    ensures Inv(Next(s, Lock(p)))
  {
    var x := s.clients[p];
    CountUpdate(s.clients, p, Holding(x.i, x.blockno), x.i);
    assert ClientOk(s.c, x);
    KeepBuffer(s, p, x.i, s.c.bufs[x.i].(locked := true), Holding(x.i, x.blockno));
  }

  lemma UnlockKeeps(s: Sys, p: nat)
    requires Inv(s) && Enabled(s, Unlock(p))
    ensures Inv(Next(s, Unlock(p)))
  {
    var x := s.clients[p];
    CountUpdate(s.clients, p, Leaving(x.i, x.blockno), x.i);
    CountPositive(s.clients, p, x.i);
    assert ClientOk(s.c, x);
    KeepBuffer(s, p, x.i, s.c.bufs[x.i].(locked := false), Leaving(x.i, x.blockno));
  }

  // ReadIn, Store and Pin: the holder changes its buffer and nothing else.
  lemma HolderKeeps(s: Sys, p: nat, b: Buf)
    requires Inv(s) && p < |s.clients| && s.clients[p].Holding?
    requires var i := s.clients[p].i; i < |s.c.bufs| && var o := s.c.bufs[i];
      b.dev == o.dev && b.blockno == o.blockno && b.refcnt == o.refcnt && b.locked == o.locked && b.valid
    ensures s.c.bufs[s.clients[p].i].locked
    ensures Inv(s.(c := With(s.c, s.clients[p].i, b)))
  {
    var x := s.clients[p];
    CountPositive(s.clients, p, x.i);
    assert ClientOk(s.c, x);
    assert s.clients[p := x] == s.clients;
    KeepBuffer(s, p, x.i, b, x);
  }

  // bwrite also changes the disk, at a block no other buffer is for.
  lemma BwriteKeeps(s: Sys, p: nat)
    requires Inv(s) && Enabled(s, Bwrite(p))
    ensures Inv(Next(s, Bwrite(p)))
  {
    var i := s.clients[p].i;
    var b := s.c.bufs[i];
    HolderKeeps(s, p, b.(dirty := false, valid := true));
    var m := s.(c := With(s.c, i, b.(dirty := false, valid := true)));
    var n := Next(s, Bwrite(p));
    assert n.c.bufs == m.c.bufs;
    forall j | 0 <= j < |n.c.bufs|
      ensures BufOk(n.c.disk, n.c.bufs[j])
    {
      assert BufOk(m.c.disk, m.c.bufs[j]);
      assert ClientOk(s.c, s.clients[p]);
      if j != i && n.c.bufs[j].dev != 0 {
        assert n.c.bufs[j].blockno != b.blockno by {
          assert if i < j then !Holds(m.c.bufs[j], b.dev, b.blockno)
            else !Holds(m.c.bufs[i], m.c.bufs[j].dev, m.c.bufs[j].blockno);
        }
      }
    }
    assert forall q :: 0 <= q < |n.clients| ==> ClientOk(m.c, m.clients[q]);
  }

  lemma HitKeeps(s: Sys, p: nat, blockno: nat)
    requires Inv(s) && Enabled(s, Bget(p, blockno)) && Search(s.c, ROOTDEV, blockno, 0) < |s.c.order|
    ensures Inv(Next(s, Bget(p, blockno)))
  {
    var i := s.c.order[Search(s.c, ROOTDEV, blockno, 0)];
    CountUpdate(s.clients, p, Waiting(i, blockno), i);
    KeepBuffer(s, p, i, s.c.bufs[i].(refcnt := s.c.bufs[i].refcnt + 1), Waiting(i, blockno));
  }

  // The buffer a miss recycles has no user.
  lemma VictimIsUnused(s: Sys, blockno: nat)
    requires Inv(s) && Get(s.c, ROOTDEV, blockno).Some? && Search(s.c, ROOTDEV, blockno, 0) == |s.c.order|
    ensures var i := Get(s.c, ROOTDEV, blockno).value.1;
      && i < |s.c.bufs| && Recyclable(s.c.bufs[i]) && !s.c.bufs[i].locked
      && forall p :: 0 <= p < |s.clients| ==> !At(s.clients[p], i)
  {
    var i := Get(s.c, ROOTDEV, blockno).value.1;
    forall p | 0 <= p < |s.clients| ensures !At(s.clients[p], i) { CountPositive(s.clients, p, i); }
    NoUsersNoHolders(s.clients, i);
  }

  lemma {:induction false} NoUsersNoHolders(xs: seq<Client>, i: nat)
    ensures Holders(xs, i) <= Users(xs, i)
  {
    if xs != [] { NoUsersNoHolders(xs[..|xs| - 1], i); }
  }

  // Recycling: nobody is at the buffer, and no other buffer is for the new block.
  lemma MissKeeps(s: Sys, p: nat, blockno: nat)
    requires Inv(s) && Enabled(s, Bget(p, blockno)) && Search(s.c, ROOTDEV, blockno, 0) == |s.c.order|
    ensures Inv(Next(s, Bget(p, blockno)))
  {
    VictimIsUnused(s, blockno);
    var i := Get(s.c, ROOTDEV, blockno).value.1;
    var n := Next(s, Bget(p, blockno));
    MissCounts(s, n, p, i, blockno);
    forall j | 0 <= j < |n.c.bufs| ensures BufOk(n.c.disk, n.c.bufs[j]) {
      assert BufOk(s.c.disk, s.c.bufs[j]);
    }
    assert Unique(n.c) by {
      forall j | 0 <= j < |s.c.bufs| ensures !Holds(s.c.bufs[j], ROOTDEV, blockno) { assert j in s.c.order; }
    }
    forall q | 0 <= q < |n.clients| ensures ClientOk(n.c, n.clients[q]) {
      assert q != p ==> ClientOk(s.c, s.clients[q]);
    }
  }

  lemma MissCounts(s: Sys, n: Sys, p: nat, i: nat, blockno: nat)
    requires CountsOk(s) && p < |s.clients| && s.clients[p].Idle? && i < |s.c.bufs| && s.c.bufs[i].refcnt == 0
    requires n == Moved(s, p, Recycle(s.c, i, ROOTDEV, blockno), Waiting(i, blockno))
    ensures CountsOk(n)
  {
    forall j | 0 <= j < |n.c.bufs|
      ensures n.c.bufs[j].refcnt == Users(n.clients, j)
      ensures Holders(n.clients, j) == if n.c.bufs[j].locked then 1 else 0
    {
      CountUpdate(s.clients, p, Waiting(i, blockno), j);
    }
  }

  // Putting a released buffer at the front, as the newest.
  function Renew(s: Sys, i: nat): Sys
    requires i in s.c.order && i < |s.stamps|
  {
    s.(c := s.c.(order := MoveToFront(s.c.order, i)), stamps := s.stamps[i := s.now + 1], now := s.now + 1)
  }

  lemma RenewKeeps(s: Sys, i: nat)
    requires Inv(s) && i < |s.c.bufs|
    ensures i in s.c.order && Inv(Renew(s, i))
  {
    MoveToFrontKeepsList(s.c, i);
    var n := Renew(s, i);
    assert Recency(n);
    forall q | 0 <= q < |n.clients| ensures ClientOk(n.c, n.clients[q]) {
      assert ClientOk(s.c, s.clients[q]);
    }
  }

  lemma UnrefKeeps(s: Sys, p: nat)
    requires Inv(s) && Enabled(s, Unref(p))
    ensures Inv(Next(s, Unref(p)))
  {
    var x := s.clients[p];
    var b := s.c.bufs[x.i].(refcnt := s.c.bufs[x.i].refcnt - 1);
    assert ClientOk(s.c, x) && BufOk(s.c.disk, s.c.bufs[x.i]);
    CountUpdate(s.clients, p, Idle, x.i);
    KeepBuffer(s, p, x.i, b, Idle);
    if b.refcnt == 0 {
      var m := Moved(s, p, With(s.c, x.i, b), Idle);
      RenewKeeps(m, x.i);
      assert Next(s, Unref(p)) == Renew(m, x.i);
    }
  }

  lemma StepKeepsInv(s: Sys, t: Step)
    requires Inv(s) && Enabled(s, t)
    ensures Inv(Next(s, t))
  {
    match t
    case Bget(p, blockno) =>
      if Search(s.c, ROOTDEV, blockno, 0) < |s.c.order| { HitKeeps(s, p, blockno); } else { MissKeeps(s, p, blockno); }
    case Lock(p) => LockKeeps(s, p);
    case ReadIn(p) =>
      var i := s.clients[p].i;
      assert BufOk(s.c.disk, s.c.bufs[i]);
      HolderKeeps(s, p, s.c.bufs[i].(valid := true, data := s.c.disk[s.c.bufs[i].blockno]));
    case Store(p, data) => HolderKeeps(s, p, s.c.bufs[s.clients[p].i].(data := data));
    case Bwrite(p) => BwriteKeeps(s, p);
    case Pin(p) => HolderKeeps(s, p, s.c.bufs[s.clients[p].i].(dirty := true));
    case Unlock(p) => UnlockKeeps(s, p);
    case Unref(p) => UnrefKeeps(s, p);
  }

  // ---- the cache is a plain block map ----

  // Block numbers to what a reader would be given.
  function Contents(s: Sys): map<nat, Block>
    requires Listed(s.c)
  {
    map b | b in s.c.disk :: Value(s.c, ROOTDEV, b)
  }

  // What a step does to that map: only the holder's own store shows.
  function MapStep(m: map<nat, Block>, s: Sys, t: Step): map<nat, Block>
    requires Enabled(s, t)
  {
    match t
    case Store(p, data) => m[s.clients[p].blockno := data]
    case _ => m
  }

  // The contents buffer i gives its block.
  function Gives(c: Cache, i: nat): Block
    requires i < |c.bufs| && c.bufs[i].blockno in c.disk
  {
    if c.bufs[i].valid then c.bufs[i].data else c.disk[c.bufs[i].blockno]
  }

  // Recycling a clean buffer loses nothing: its block reads the same from disk.
  lemma RecycleLosesNothing(s: Sys, p: nat, blockno: nat, b: nat)
    requires Inv(s) && Enabled(s, Bget(p, blockno)) && Search(s.c, ROOTDEV, blockno, 0) == |s.c.order|
    requires b in s.c.disk
    ensures Listed(Next(s, Bget(p, blockno)).c)
    ensures Value(Next(s, Bget(p, blockno)).c, ROOTDEV, b) == Value(s.c, ROOTDEV, b)
  {
    MissKeeps(s, p, blockno);
    var n := Next(s, Bget(p, blockno));
    var i := s.c.order[Victim(s.c, |s.c.order|) - 1];
    assert BufOk(s.c.disk, s.c.bufs[i]);
    CountPositive(s.clients, p, i);
    if b == blockno {
      ValueCached(n.c, i);
    } else if j :| 0 <= j < |s.c.bufs| && Holds(s.c.bufs[j], ROOTDEV, b) {
      ValueCached(s.c, j);
      if j == i {
        forall l | 0 <= l < |n.c.bufs| ensures !Holds(n.c.bufs[l], ROOTDEV, b) {
          assert l < i ==> !Holds(s.c.bufs[i], s.c.bufs[l].dev, s.c.bufs[l].blockno);
          assert i < l ==> !Holds(s.c.bufs[l], s.c.bufs[i].dev, s.c.bufs[i].blockno);
        }
        ValueUncached(n.c, ROOTDEV, b);
      } else {
        ValueCached(n.c, j);
      }
    } else {
      forall l | 0 <= l < |n.c.bufs| ensures !Holds(n.c.bufs[l], ROOTDEV, b) {
        assert !Holds(s.c.bufs[l], ROOTDEV, b);
      }
      ValueUncached(s.c, ROOTDEV, b);
      ValueUncached(n.c, ROOTDEV, b);
    }
  }

  lemma NoOtherSlot(c: Cache, i: nat, j: nat)
    requires Unique(c) && i < |c.bufs| && j < |c.bufs| && c.bufs[i].dev != 0
    ensures Holds(c.bufs[j], c.bufs[i].dev, c.bufs[i].blockno) ==> i == j
  {
  }

  // What buffer j gives after a step that is not a recycling.
  lemma GivesAfter(s: Sys, t: Step, j: nat)
    requires Inv(s) && Enabled(s, t) && j < |s.c.bufs| && s.c.bufs[j].dev != 0
    requires t.Bget? ==> Search(s.c, ROOTDEV, t.blockno, 0) < |s.c.order|
    ensures s.c.bufs[j].blockno in Next(s, t).c.disk && |Next(s, t).c.bufs| == |s.c.bufs|
    ensures var n := Next(s, t).c.bufs[j]; Holds(n, s.c.bufs[j].dev, s.c.bufs[j].blockno)
    ensures Gives(Next(s, t).c, j) == if t.Store? && s.clients[t.p].i == j then t.data else Gives(s.c, j)
  {
    assert ClientOk(s.c, s.clients[t.p]) && BufOk(s.c.disk, s.c.bufs[j]);
    if t.Bwrite? && s.c.bufs[s.clients[t.p].i].blockno == s.c.bufs[j].blockno { NoOtherSlot(s.c, j, s.clients[t.p].i); }
  }

  // After a step that is not a recycling, block b reads as the map says.
  lemma BlockAfter(s: Sys, t: Step, b: nat)
    requires Inv(s) && Enabled(s, t) && Inv(Next(s, t)) && b in s.c.disk && b in Next(s, t).c.disk
    requires t.Bget? ==> Search(s.c, ROOTDEV, t.blockno, 0) < |s.c.order|
    ensures Value(Next(s, t).c, ROOTDEV, b) ==
      if t.Store? && s.clients[t.p].blockno == b then t.data else Value(s.c, ROOTDEV, b)
  {
    var n := Next(s, t);
    assert ClientOk(s.c, s.clients[t.p]);
    if j :| 0 <= j < |s.c.bufs| && Holds(s.c.bufs[j], ROOTDEV, b) {
      GivesAfter(s, t, j);
      ValueCached(s.c, j);
      ValueCached(n.c, j);
      if !t.Bget? && s.clients[t.p].blockno == b { NoOtherSlot(s.c, j, s.clients[t.p].i); }
    } else {
      UncachedAfter(s, t, b);
      ValueUncached(s.c, ROOTDEV, b);
      ValueUncached(n.c, ROOTDEV, b);
    }
  }

  lemma UncachedAfter(s: Sys, t: Step, b: nat)
    requires Inv(s) && Enabled(s, t) && b in s.c.disk
    requires t.Bget? ==> Search(s.c, ROOTDEV, t.blockno, 0) < |s.c.order|
    requires forall j :: 0 <= j < |s.c.bufs| ==> !Holds(s.c.bufs[j], ROOTDEV, b)
    ensures forall j :: 0 <= j < |Next(s, t).c.bufs| ==> !Holds(Next(s, t).c.bufs[j], ROOTDEV, b)
    ensures b in Next(s, t).c.disk && Next(s, t).c.disk[b] == s.c.disk[b]
    ensures !t.Bget? ==> s.clients[t.p].blockno != b
  {
    assert ClientOk(s.c, s.clients[t.p]);
  }

  lemma AnyBlockAfter(s: Sys, t: Step, b: nat)
    requires Inv(s) && Enabled(s, t) && Inv(Next(s, t)) && b in s.c.disk && b in Next(s, t).c.disk
    ensures Value(Next(s, t).c, ROOTDEV, b) ==
      if t.Store? && s.clients[t.p].blockno == b then t.data else Value(s.c, ROOTDEV, b)
  {
    if t.Bget? && Search(s.c, ROOTDEV, t.blockno, 0) == |s.c.order| {
      RecycleLosesNothing(s, t.p, t.blockno, b);
    } else {
      BlockAfter(s, t, b);
    }
  }

  lemma StepKeepsBlocks(s: Sys, t: Step)
    requires Inv(s) && Enabled(s, t)
    ensures Next(s, t).c.disk.Keys == s.c.disk.Keys
    ensures t.Store? ==> s.clients[t.p].blockno in s.c.disk
  {
    assert ClientOk(s.c, s.clients[t.p]);
  }

  lemma StepIsMapStep(s: Sys, t: Step)
    requires Inv(s) && Enabled(s, t)
    ensures Inv(Next(s, t))
    ensures Contents(Next(s, t)) == MapStep(Contents(s), s, t)
  {
    StepKeepsInv(s, t);
    StepKeepsBlocks(s, t);
    var n := Next(s, t);
    forall b | b in s.c.disk
      ensures Value(n.c, ROOTDEV, b) ==
        if t.Store? && s.clients[t.p].blockno == b then t.data else Value(s.c, ROOTDEV, b)
    {
      AnyBlockAfter(s, t, b);
    }
    MapsAgree(s, t, n);
  }

  lemma MapsAgree(s: Sys, t: Step, n: Sys)
    requires Enabled(s, t) && Listed(n.c) && n.c.disk.Keys == s.c.disk.Keys
    requires t.Store? ==> s.clients[t.p].blockno in s.c.disk
    requires forall b :: b in s.c.disk ==>
      Value(n.c, ROOTDEV, b) == if t.Store? && s.clients[t.p].blockno == b then t.data else Value(s.c, ROOTDEV, b)
    ensures Contents(n) == MapStep(Contents(s), s, t)
  {
    hide Value, Listed;
  }

  // What bread gave its caller is the block's current contents, and stays so while
  // the caller holds the buffer.
  lemma HolderSees(s: Sys, p: nat)
    requires Inv(s) && AtValid(s, p)
    ensures s.clients[p].blockno in Contents(s)
    ensures s.c.bufs[s.clients[p].i].data == Contents(s)[s.clients[p].blockno]
  {
    assert ClientOk(s.c, s.clients[p]);
    ValueCached(s.c, s.clients[p].i);
  }

  // Nobody is held up but by the holder of the buffer, or by the panic: bread's next step is
  // always there, ends with a valid buffer, and the last of brelse's frees the reference.
  lemma GetsOn(s: Sys, p: nat)
    requires Inv(s) && p < |s.clients|
    ensures match s.clients[p]
      case Idle => forall b :: b in s.c.disk ==> (Enabled(s, Bget(p, b)) <==> MayGet(s.c, b))
      case Waiting(i, _) => Enabled(s, Lock(p)) || exists q :: 0 <= q < |s.clients| && HoldsLock(s.clients[q], i)
      case Holding(i, _) =>
        if i < |s.c.bufs| && s.c.bufs[i].valid then AtValid(s, p)
        else Enabled(s, ReadIn(p)) && AtValid(Next(s, ReadIn(p)), p)
      case Leaving(i, _) => Enabled(s, Unref(p)) && Next(s, Unref(p)).clients[p].Idle?
  {
    var x := s.clients[p];
    assert ClientOk(s.c, x);
    if !x.Idle? {
      CountPositive(s.clients, p, x.i);
      assert BufOk(s.c.disk, s.c.bufs[x.i]);
    }
    if x.Waiting? && s.c.bufs[x.i].locked { SomeHolder(s.clients, x.i); }
    forall b ensures Get(s.c, ROOTDEV, b).Some? <==> MayGet(s.c, b) { GetsExactly(s.c, b); }
  }

  lemma GetsExactly(c: Cache, b: nat)
    requires Listed(c)
    ensures Get(c, ROOTDEV, b).Some? <==> MayGet(c, b)
  {
    var k, v := Search(c, ROOTDEV, b, 0), Victim(c, |c.order|);
    if k < |c.order| {
      assert Holds(c.bufs[c.order[k]], ROOTDEV, b);
    } else if v > 0 {
      assert Recyclable(c.bufs[c.order[v - 1]]);
    }
    forall i | 0 <= i < |c.bufs| && (Holds(c.bufs[i], ROOTDEV, b) || Recyclable(c.bufs[i]))
      ensures k < |c.order| || v > 0
    {
      assert c.order[Position(c.order, i)] == i;
    }
  }

  // bwrite puts the buffer's data on the disk, log_write's pin leaves it in the cache alone,
  // and after either the buffer can be let go.
  lemma CanLetGo(s: Sys, p: nat)
    requires Inv(s) && AtValid(s, p)
    ensures Enabled(s, Bwrite(p)) && Enabled(s, Pin(p))
    ensures var n := Next(s, Bwrite(p));
      Enabled(n, Unlock(p)) && n.c.disk == s.c.disk[s.clients[p].blockno := s.c.bufs[s.clients[p].i].data]
    ensures var n := Next(s, Pin(p));
      Enabled(n, Unlock(p)) && n.c.disk == s.c.disk && !Recyclable(n.c.bufs[n.clients[p].i])
  {
    assert ClientOk(s.c, s.clients[p]);
  }

  // The block is cached, or some buffer is unused and clean.
  predicate MayGet(c: Cache, b: nat) {
    exists i :: 0 <= i < |c.bufs| && (Holds(c.bufs[i], ROOTDEV, b) || Recyclable(c.bufs[i]))
  }

  lemma {:induction false} SomeHolder(xs: seq<Client>, i: nat)
    requires Holders(xs, i) > 0
    ensures exists q :: 0 <= q < |xs| && HoldsLock(xs[q], i)
  {
    var n := |xs| - 1;
    if !HoldsLock(xs[n], i) {
      SomeHolder(xs[..n], i);
      var q :| 0 <= q < n && HoldsLock(xs[..n][q], i);
      assert HoldsLock(xs[q], i);
    }
  }

  lemma AtMostOneHolder(s: Sys, p: nat, q: nat)
    requires Inv(s) && p < |s.clients| && q < |s.clients|
    requires s.clients[p].Holding? && s.clients[q].Holding? && s.clients[p].blockno == s.clients[q].blockno
    ensures p == q
  {
    assert ClientOk(s.c, s.clients[p]) && ClientOk(s.c, s.clients[q]);
    SearchFinds(s.c, s.clients[p].i);
    SearchFinds(s.c, s.clients[q].i);
    if p < q { TwoHolders(s.clients, p, q, s.clients[p].i); }
    if q < p { TwoHolders(s.clients, q, p, s.clients[p].i); }
  }

  // bget takes the least recently released buffer that it may take, and panics
  // exactly when there is none and the block is not cached.
  lemma VictimIsLeastRecent(s: Sys, blockno: nat, j: nat)
    requires Inv(s) && Search(s.c, ROOTDEV, blockno, 0) == |s.c.order|
    requires j < |s.c.bufs| && Recyclable(s.c.bufs[j])
    ensures Get(s.c, ROOTDEV, blockno).Some?
    ensures var i := Get(s.c, ROOTDEV, blockno).value.1;
      i < |s.c.bufs| && Recyclable(s.c.bufs[i]) && s.stamps[i] <= s.stamps[j]
  {
    var k := Position(s.c.order, j);
    assert k < Victim(s.c, |s.c.order|);
  }

  // ---- whole runs ----

  // binit: each buffer is put at the front in turn.
  function Initial(n: nat, procs: nat, d: Disk): Sys {
    Sys(Cache(seq(n, _ => Buf(0, 0, false, false, 0, false, ZeroBlock())), seq(n, k => Mirror(n, k)), d),
        seq(procs, _ => Idle), seq(n, _ => 0), 0)
  }

  function Mirror(n: nat, k: int): nat {
    if 0 <= k < n then n - 1 - k else 0
  }

  lemma {:induction false} NobodyYet(xs: seq<Client>, i: nat)
    requires forall p :: 0 <= p < |xs| ==> xs[p].Idle?
    ensures Users(xs, i) == 0 && Holders(xs, i) == 0
  {
    if xs != [] { NobodyYet(xs[..|xs| - 1], i); }
  }

  lemma InitialInv(n: nat, procs: nat, d: Disk)
    ensures Inv(Initial(n, procs, d))
    ensures Contents(Initial(n, procs, d)) == d
  {
    hide Value;
    var s := Initial(n, procs, d);
    InitialListed(n, procs, d);
    InitialCounts(n, procs, d);
    forall b | b in d ensures Value(s.c, ROOTDEV, b) == d[b] {
      ValueUncached(s.c, ROOTDEV, b);
    }
  }

  lemma InitialListed(n: nat, procs: nat, d: Disk)
    ensures Listed(Initial(n, procs, d).c)
  {
    var s := Initial(n, procs, d);
    forall i | 0 <= i < n ensures i in s.c.order {
      assert s.c.order[n - 1 - i] == i;
    }
  }

  lemma InitialCounts(n: nat, procs: nat, d: Disk)
    ensures CountsOk(Initial(n, procs, d))
  {
    var s := Initial(n, procs, d);
    forall i | 0 <= i < n ensures Users(s.clients, i) == 0 && Holders(s.clients, i) == 0 {
      NobodyYet(s.clients, i);
    }
  }

  ghost predicate Run(ss: seq<Sys>, ts: seq<Step>) {
    && |ss| == |ts| + 1
    && forall k :: 0 <= k < |ts| ==> Enabled(ss[k], ts[k]) && ss[k + 1] == Next(ss[k], ts[k])
  }

  // The stores of the first k steps, each with the block its buffer was for.
  function Stores(ss: seq<Sys>, ts: seq<Step>, k: nat): seq<Write>
    requires k <= |ts| <= |ss|
  {
    if k == 0 then []
    else if ts[k - 1].Store? && ts[k - 1].p < |ss[k - 1].clients| && ss[k - 1].clients[ts[k - 1].p].Holding? then
      Stores(ss, ts, k - 1) + [Write(ss[k - 1].clients[ts[k - 1].p].blockno, ts[k - 1].data)]
    else Stores(ss, ts, k - 1)
  }

  // Every interleaving keeps the invariant, and the cache reads like the initial
  // disk with the stores made so far applied in order.
  lemma {:induction false} RunIsBlockMap(ss: seq<Sys>, ts: seq<Step>, k: nat)
    requires Run(ss, ts) && Inv(ss[0]) && k <= |ts|
    ensures Inv(ss[k])
    ensures Contents(ss[k]) == Apply(Contents(ss[0]), Stores(ss, ts, k))
  {
    if k > 0 {
      RunIsBlockMap(ss, ts, k - 1);
      assert Enabled(ss[k - 1], ts[k - 1]);
      StepIsMapStep(ss[k - 1], ts[k - 1]);
      var w := Stores(ss, ts, k);
      if ts[k - 1].Store? { assert w[..|w| - 1] == Stores(ss, ts, k - 1); }
    }
  }
}
