/**
 kernel/bio.c as a class: the buffers, and the doubly linked list through them that
 bget scans and brelse relinks.  One process at a time; CacheProtocol covers waiting.

 The list head is index `n`.  `order` is what the links spell; every method is
 proved to do to it, and to the buffers, what BufferCache says.
 */
module Bio {
  import opened Prelude
  import opened Blocks
  import opened BufferCache

  // The list node at place k of a list with head h; both ends are the head.
  ghost function Node(order: seq<nat>, h: nat, k: int): nat {
    if 0 <= k < |order| then order[k] else h
  }

  ghost predicate Link(next: seq<nat>, prev: seq<nat>, order: seq<nat>, h: nat, k: int) {
    && Node(order, h, k) < |next| && next[Node(order, h, k)] == Node(order, h, k + 1)
    && Node(order, h, k + 1) < |prev| && prev[Node(order, h, k + 1)] == Node(order, h, k)
  }

  ghost predicate Linked(next: seq<nat>, prev: seq<nat>, order: seq<nat>, h: nat) {
    && |next| == |prev| == h + 1
    && (forall k, l :: 0 <= k < l < |order| ==> order[k] != order[l])
    && (forall l :: 0 <= l < |order| ==> order[l] < h)
    && forall k :: -1 <= k < |order| ==> Link(next, prev, order, h, k)
  }

  // b->next->prev = b->prev; b->prev->next = b->next;
  lemma Unlinked(next: seq<nat>, prev: seq<nat>, order: seq<nat>, h: nat, k: int)
    requires Linked(next, prev, order, h) && 0 <= k < |order|
    ensures var i := order[k];
      && next[i] <= h && prev[i] <= h
      && Linked(next[prev[i] := next[i]], prev[next[i] := prev[i]], order[..k] + order[k + 1..], h)
  {
    assert Link(next, prev, order, h, k - 1) && Link(next, prev, order, h, k);
    var i, o := order[k], order[..k] + order[k + 1..];
    var nx, pv := next[prev[i] := next[i]], prev[next[i] := prev[i]];
    forall l | -1 <= l < |o|
      ensures Link(nx, pv, o, h, l)
    {
      assert Link(next, prev, order, h, if l < k then l else l + 1);
    }
  }

  // b->next = head.next; b->prev = &head; head.next->prev = b; head.next = b;
  lemma LinkedFirst(next: seq<nat>, prev: seq<nat>, order: seq<nat>, h: nat, i: nat)
    requires Linked(next, prev, order, h) && i < h && i !in order
    ensures next[h] <= h
    ensures Linked(next[i := next[h]][h := i], prev[i := h][next[h] := i], [i] + order, h)
  {
    assert Link(next, prev, order, h, -1);
    var nx, pv, o := next[i := next[h]][h := i], prev[i := h][next[h] := i], [i] + order;
    forall l | -1 <= l < |o|
      ensures Link(nx, pv, o, h, l)
    {
      if l > 0 { assert Link(next, prev, order, h, l - 1); }
    }
  }

  // bread, for a buffer that is not locked by anyone else.
  function Bread(c: Cache, dev: nat, blockno: nat): (r: Option<(Cache, nat)>)
    requires Listed(c) && blockno in c.disk
  {
    match Get(c, dev, blockno)
    case None => None
    case Some(g) =>
      var i := g.1;
      var l := With(g.0, i, g.0.bufs[i].(locked := true));
      if l.bufs[i].valid then Some((l, i)) else Some((Sync(l, i), i))
  }

  // A method's new state and returned buffer, as the functions give them.
  function Result(c: Cache, r: Option<nat>): Option<(Cache, nat)> {
    if r == None then None else Some((c, r.value))
  }

  // bget would not have to wait for the buffer's lock.
  predicate Unlocked(c: Cache, dev: nat, blockno: nat)
    requires Listed(c)
  {
    match Get(c, dev, blockno) case None => true case Some(g) => !c.bufs[g.1].locked
  }

  // brelse
  function Brelse(c: Cache, i: nat): Cache
    requires i in c.order && i < |c.bufs| && c.bufs[i].refcnt > 0
  {
    Drop(With(c, i, c.bufs[i].(locked := false)), i)
  }

  class Bcache {
    const n: nat
    const buf: array<Buf>
    const next: array<nat>
    const prev: array<nat>
    ghost var order: seq<nat>

    var disk: Disk          // the device behind iderw
    var crashnEnable: bool
    var crashn: int

    ghost function View(): Cache
      reads this, buf
    {
      Cache(buf[..], order, disk)
    }

    ghost predicate Valid()
      reads this, buf, next, prev
    {
      && buf.Length == n == |order| && next.Length == prev.Length == n + 1 && next != prev
      && Linked(next[..], prev[..], order, n)
      && Listed(View())
    }

    // binit
    constructor (n: nat, disk: Disk)
      ensures Valid() && this.n == n && fresh(buf) && fresh(next) && fresh(prev)
      ensures this.disk == disk && !crashnEnable
      ensures forall k :: 0 <= k < n ==> order[k] == n - 1 - k
      ensures forall i :: 0 <= i < n ==> buf[i] == Buf(0, 0, false, false, 0, false, ZeroBlock())
    {
      this.n := n;
      buf := new Buf[n](_ => Buf(0, 0, false, false, 0, false, ZeroBlock()));
      next := new nat[n + 1](_ => n);
      prev := new nat[n + 1](_ => n);
      order := [];
      this.disk := disk;
      crashnEnable, crashn := false, 0;
      new;
      var b := 0;
      while b < n
        invariant 0 <= b <= n
        invariant |order| == b && forall k :: 0 <= k < b ==> order[k] == b - 1 - k
        invariant next[n] == (if b == 0 then n else b - 1) && prev[n] == (if b == 0 then n else 0)
        invariant forall i :: 0 <= i < b ==> next[i] == (if i == 0 then n else i - 1)
        invariant forall i :: 0 <= i < b ==> prev[i] == (if i == b - 1 then n else i + 1)
        invariant forall i :: 0 <= i < n ==> buf[i] == Buf(0, 0, false, false, 0, false, ZeroBlock())
        invariant this.disk == disk && !crashnEnable
      {
        next[b] := next[n];
        prev[b] := n;
        prev[next[n]] := b;
        next[n] := b;
        order := [b] + order;
        b := b + 1;
      }
      forall k | -1 <= k < n ensures Link(next[..], prev[..], order, n, k) {
      }
      forall i | 0 <= i < n ensures i in order {
        assert order[n - 1 - i] == i;
      }
    }

    // Assign to fields of buffer i.
    method Update(i: nat, b: Buf)
      requires Valid() && i < n
      modifies buf
      ensures Valid() && View() == With(old(View()), i, b)
    {
      buf[i] := b;
    }

    // The first scan of bget: the cached buffer, or n.
    method FindCached(dev: nat, blockno: nat) returns (b: nat)
      requires Valid()
      ensures b == Node(order, n, Search(View(), dev, blockno, 0))
    {
      b := next[n];
      ghost var k := 0;
      assert Link(next[..], prev[..], order, n, -1);
      while b != n && !(buf[b].dev == dev && buf[b].blockno == blockno)
        invariant 0 <= k <= n && b == Node(order, n, k)
        invariant Search(View(), dev, blockno, 0) == Search(View(), dev, blockno, k)
        decreases n - k
      {
        assert Link(next[..], prev[..], order, n, k);
        b := next[b];
        k := k + 1;
      }
    }

    // The second scan of bget: the least recently used free and clean buffer, or n.
    method FindVictim() returns (b: nat)
      requires Valid()
      ensures b == Node(order, n, Victim(View(), n) - 1)
    {
      b := prev[n];
      ghost var k := n;
      assert Link(next[..], prev[..], order, n, n - 1);
      while b != n && !(buf[b].refcnt == 0 && !buf[b].dirty)
        invariant 0 <= k <= n && b == Node(order, n, k - 1)
        invariant Victim(View(), n) == Victim(View(), k)
        decreases k
      {
        k := k - 1;
        assert Link(next[..], prev[..], order, n, k - 1);
        b := prev[b];
      }
    }

    // bget up to the lock; None is "bget: no buffers".
    method Bget(dev: nat, blockno: nat) returns (r: Option<nat>)
      requires Valid()
      modifies buf
      ensures Valid()
      ensures Get(old(View()), dev, blockno) == Result(View(), r) && (r == None ==> View() == old(View()))
    {
      hide Linked;
      ghost var c := View();
      var b := FindCached(dev, blockno);
      if b != n {
        assert Get(c, dev, blockno) == Some((Hit(c, b), b));
        Update(b, buf[b].(refcnt := buf[b].refcnt + 1));
        return Some(b);
      }
      b := FindVictim();
      if b != n {
        assert Get(c, dev, blockno) == Some((Recycle(c, b, dev, blockno), b));
        Update(b, Buf(dev, blockno, false, false, 1, buf[b].locked, buf[b].data));
        return Some(b);
      }
      assert Get(c, dev, blockno) == None;
      return None;
    }

    // Write or read the buffer through the device.
    method Iderw(i: nat)
      requires Valid() && i < n && buf[i].locked && buf[i].blockno in disk
      requires !buf[i].valid || buf[i].dirty
      modifies this`disk, buf
      ensures Valid() && View() == Sync(old(View()), i)
    {
      if buf[i].dirty {
        disk := disk[buf[i].blockno := buf[i].data];
        Update(i, buf[i].(dirty := false, valid := true));
      } else {
        Update(i, buf[i].(valid := true, data := disk[buf[i].blockno]));
      }
    }

    method BreadBlock(dev: nat, blockno: nat) returns (r: Option<nat>)
      requires Valid() && blockno in disk
      requires Unlocked(View(), dev, blockno)
      modifies this`disk, buf
      ensures Valid()
      ensures Bread(old(View()), dev, blockno) == Result(View(), r) && (r == None ==> View() == old(View()))
    {
      r := Bget(dev, blockno);
      if r.Some? {
        var i := r.value;
        Update(i, buf[i].(locked := true));
        if !buf[i].valid { Iderw(i); }
      }
    }

    // memmove over the buffer's whole data
    method Store(i: nat, data: Block)
      requires Valid() && i < n && buf[i].locked
      modifies buf
      ensures Valid() && View() == With(old(View()), i, old(buf[i]).(data := data))
    {
      Update(i, buf[i].(data := data));
    }

    // b->flags |= B_DIRTY
    method MarkDirty(i: nat)
      requires Valid() && i < n && buf[i].locked
      modifies buf
      ensures Valid() && View() == With(old(View()), i, old(buf[i]).(dirty := true))
    {
      Update(i, buf[i].(dirty := true));
    }

    // False means the machine rebooted here.
    method Bwrite(i: nat) returns (ok: bool)
      requires Valid() && i < n && buf[i].locked && buf[i].blockno in disk
      modifies this`disk, this`crashn, buf
      ensures Valid()
      ensures ok == !(crashnEnable && old(crashn) <= 0)
      ensures crashn == if crashnEnable then old(crashn) - 1 else old(crashn)
      ensures View() == if ok then WriteBack(old(View()), i) else old(View())
    {
      if crashnEnable {
        crashn := crashn - 1;
        if crashn < 0 { return false; }
      }
      Update(i, buf[i].(dirty := true));
      Iderw(i);
      return true;
    }

    method BrelseBlock(i: nat)
      requires Valid() && i < n && buf[i].locked && buf[i].refcnt > 0
      modifies this`order, buf, next, prev
      ensures Valid() && i in old(order) && View() == Brelse(old(View()), i)
    {
      Update(i, buf[i].(locked := false));
      Update(i, buf[i].(refcnt := buf[i].refcnt - 1));
      if buf[i].refcnt == 0 {
        Unlink(i);
      }
    }

    // Move buffer i to the head of the list.
    method Unlink(i: nat)
      requires Valid() && i < n
      modifies this`order, next, prev
      ensures Valid() && i in old(order) && order == MoveToFront(old(order), i)
    {
      ghost var k, was := Position(order, i), order;
      Unlinked(next[..], prev[..], order, n, k);
      prev[next[i]] := prev[i];
      next[prev[i]] := next[i];
      order := order[..k] + order[k + 1..];
      LinkedFirst(next[..], prev[..], order, n, i);
      next[i] := next[n];
      prev[i] := n;
      prev[next[n]] := i;
      next[n] := i;
      order := [i] + order;
      assert order == MoveToFront(was, i);
      MoveToFrontKeepsList(Cache(buf[..], was, disk), i);
    }
  }
}
