/**
 The blocks of the Kernighan and Ritchie allocator (user/umalloc.c), as a value.
 Addresses and sizes are in units of one header.
 */
module FreeList {
  // A block starts at its header; `size` counts the header too.
  datatype Block = Block(addr: nat, size: nat)

  // The free list in address order, first the empty static block `base`; the blocks
  // handed out; and the units obtained from sbrk, all below `top`.
  datatype Arena = Arena(free: seq<Block>, live: map<nat, nat>, got: set<nat>, top: nat)

  predicate Has(b: Block, u: nat) {
    b.addr <= u < b.addr + b.size
  }

  predicate Apart(a: Block, b: Block) {
    a.addr + a.size <= b.addr || b.addr + b.size <= a.addr
  }

  predicate InFree(f: seq<Block>, u: nat) {
    exists i :: 0 <= i < |f| && Has(f[i], u)
  }

  predicate InLive(live: map<nat, nat>, u: nat) {
    exists a :: a in live && Has(Block(a, live[a]), u)
  }

  // Address order with no two blocks touching.
  predicate Sorted(f: seq<Block>) {
    && |f| > 0 && f[0].size == 0
    && (forall i, j :: 0 <= i < j < |f| ==> f[i].addr + f[i].size < f[j].addr)
    && (forall i :: 0 < i < |f| ==> f[i].size > 0)
  }

  // A block above base that overlaps no free block.
  predicate Clear(f: seq<Block>, b: Block) {
    && |f| > 0 && f[0].addr < b.addr && b.size > 0
    && forall i :: 0 <= i < |f| ==> Apart(f[i], b)
  }

  predicate LiveOk(f: seq<Block>, live: map<nat, nat>) {
    && (forall a :: a in live ==> Clear(f, Block(a, live[a])))
    && (forall a, b :: a in live && b in live && a != b ==> Apart(Block(a, live[a]), Block(b, live[b])))
  }

  predicate Structure(ar: Arena) {
    Sorted(ar.free) && LiveOk(ar.free, ar.live)
  }

  // Free and handed-out blocks together are exactly what sbrk gave.
  ghost predicate Exact(ar: Arena) {
    && (forall u: nat :: u in ar.got <==> InFree(ar.free, u) || InLive(ar.live, u))
    && (forall u :: u in ar.got ==> u < ar.top)
    && (ar.free != [] ==> ar.free[0].addr < ar.top)
  }

  // ---- free ----

  // The gap of the list that b belongs in.
  predicate GapAt(f: seq<Block>, i: nat, b: Block) {
    i < |f| && f[i].addr < b.addr && (i + 1 < |f| ==> b.addr < f[i + 1].addr)
  }

  predicate JoinsRight(f: seq<Block>, i: nat, b: Block) {
    i + 1 < |f| && b.addr + b.size == f[i + 1].addr
  }

  predicate JoinsLeft(f: seq<Block>, i: nat, b: Block) {
    i < |f| && f[i].addr + f[i].size == b.addr
  }

  function Insert(f: seq<Block>, i: nat, b: Block): seq<Block>
    requires i < |f|
  {
    var wide := if JoinsRight(f, i, b) then Block(b.addr, b.size + f[i + 1].size) else b;
    var rest := if JoinsRight(f, i, b) then f[i + 2..] else f[i + 1..];
    if JoinsLeft(f, i, b) then f[..i] + [Block(f[i].addr, f[i].size + wide.size)] + rest
    else f[..i + 1] + [wide] + rest
  }

  // ---- malloc ----

  // Cut n units off the end of block j.
  function Take(f: seq<Block>, j: nat, n: nat): seq<Block>
    requires j < |f| && n <= f[j].size
  {
    if f[j].size == n then f[..j] + f[j + 1..] else f[j := Block(f[j].addr, f[j].size - n)]
  }

  function TakenAt(f: seq<Block>, j: nat, n: nat): nat
    requires j < |f| && n <= f[j].size
  {
    f[j].addr + f[j].size - n
  }

  // What is handed out is the end of the block, and no free block moves.
  lemma TakenFromEnd(f: seq<Block>, j: nat, n: nat, u: nat)
    requires Sorted(f) && 0 < j < |f| && 0 < n <= f[j].size
    ensures Has(Block(TakenAt(f, j, n), n), u) <==> Has(f[j], u) && u + n >= f[j].addr + f[j].size
    ensures forall b :: b in Take(f, j, n) ==> exists i :: 0 <= i < |f| && f[i].addr == b.addr
  {
    forall b | b in Take(f, j, n) ensures exists i :: 0 <= i < |f| && f[i].addr == b.addr {
      if f[j].size != n && b == Block(f[j].addr, f[j].size - n) { assert f[j].addr == b.addr; }
    }
  }

  function Freed(ar: Arena, i: nat, a: nat): Arena
    requires i < |ar.free| && a in ar.live
  {
    ar.(free := Insert(ar.free, i, Block(a, ar.live[a])), live := ar.live - {a})
  }

  function Malloced(ar: Arena, j: nat, n: nat): Arena
    requires j < |ar.free| && n <= ar.free[j].size
  {
    ar.(free := Take(ar.free, j, n), live := ar.live[TakenAt(ar.free, j, n) := n])
  }

  // ---- there is exactly one gap ----

  // The last free block below b.
  function Gap(f: seq<Block>, b: Block): (i: nat)
    requires Sorted(f) && Clear(f, b)
    ensures GapAt(f, i, b)
  {
    GapFrom(f, b, |f| - 1)
  }

  function GapFrom(f: seq<Block>, b: Block, k: nat): (i: nat)
    requires Sorted(f) && Clear(f, b) && k < |f| && (k + 1 < |f| ==> b.addr < f[k + 1].addr)
    ensures GapAt(f, i, b)
  {
    if f[k].addr < b.addr then k else
      assert Apart(f[k], b);
      GapFrom(f, b, k - 1)
  }

  lemma GapUnique(f: seq<Block>, b: Block, i: nat, j: nat)
    requires Sorted(f) && GapAt(f, i, b) && GapAt(f, j, b)
    ensures i == j
  {
    GapOrders(f, b, i, j);
    GapOrders(f, b, j, i);
  }

  // The blocks up to the gap, and only they, are below b.
  lemma GapOrders(f: seq<Block>, b: Block, i: nat, k: nat)
    requires Sorted(f) && GapAt(f, i, b) && k < |f|
    ensures f[k].addr < b.addr <==> k <= i
  {
    assert i + 1 < k ==> f[i + 1].addr < f[k].addr;
  }

  // ---- insertion keeps the list ----

  // The neighbours of a clear block, in order and not overlapping it.
  lemma Neighbours(f: seq<Block>, i: nat, b: Block)
    requires Sorted(f) && Clear(f, b) && GapAt(f, i, b)
    ensures f[i].addr + f[i].size <= b.addr
    ensures i + 1 < |f| ==> b.addr + b.size <= f[i + 1].addr
    ensures JoinsLeft(f, i, b) ==> i > 0
  {
    assert Apart(f[i], b);
    if i + 1 < |f| { assert Apart(f[i + 1], b); }
  }

  // How many neighbours the new block joins, where it ends up, and what it becomes.
  function Joins(f: seq<Block>, i: nat, b: Block): nat {
    (if JoinsLeft(f, i, b) then 1 else 0) + (if JoinsRight(f, i, b) then 1 else 0)
  }

  function Place(f: seq<Block>, i: nat, b: Block): nat {
    if JoinsLeft(f, i, b) then i else i + 1
  }

  function Joined(f: seq<Block>, i: nat, b: Block): Block
    requires i < |f|
  {
    var wide := if JoinsRight(f, i, b) then Block(b.addr, b.size + f[i + 1].size) else b;
    if JoinsLeft(f, i, b) then Block(f[i].addr, f[i].size + wide.size) else wide
  }

  lemma InsertAt(f: seq<Block>, i: nat, b: Block, k: nat)
    requires i < |f|
    ensures |Insert(f, i, b)| == |f| + 1 - Joins(f, i, b) > Place(f, i, b)
    ensures k < Place(f, i, b) ==> Insert(f, i, b)[k] == f[k]
    ensures Insert(f, i, b)[Place(f, i, b)] == Joined(f, i, b)
    ensures Place(f, i, b) < k < |Insert(f, i, b)| ==> Insert(f, i, b)[k] == f[k + Joins(f, i, b) - 1]
  {
  }

  lemma JoinedSpan(f: seq<Block>, i: nat, b: Block)
    requires Sorted(f) && Clear(f, b) && GapAt(f, i, b)
    ensures var j := Joined(f, i, b); var p := Place(f, i, b);
      && j.size > 0 && p > 0 && f[p - 1].addr + f[p - 1].size < j.addr
      && (p + Joins(f, i, b) < |f| ==> j.addr + j.size < f[p + Joins(f, i, b)].addr)
  {
    Neighbours(f, i, b);
  }

  lemma InsertSorted(f: seq<Block>, i: nat, b: Block)
    requires Sorted(f) && Clear(f, b) && GapAt(f, i, b)
    ensures Sorted(Insert(f, i, b)) && Insert(f, i, b)[0] == f[0]
  {
    hide Insert, Joined, Place, Joins, Clear;
    var g := Insert(f, i, b);
    InsertAt(f, i, b, 0);
    JoinedSpan(f, i, b);
    forall x, y | 0 <= x < y < |g| ensures g[x].addr + g[x].size < g[y].addr && g[y].size > 0 {
      InsertAt(f, i, b, x);
      InsertAt(f, i, b, y);
    }
  }

  lemma InsertHas(f: seq<Block>, i: nat, b: Block, u: nat)
    requires Sorted(f) && Clear(f, b) && GapAt(f, i, b)
    ensures InFree(Insert(f, i, b), u) <==> InFree(f, u) || Has(b, u)
  {
    hide Insert, Sorted, Clear;
    var g, m, js := Insert(f, i, b), Place(f, i, b), Joins(f, i, b);
    JoinedHas(f, i, b, u);
    InsertAt(f, i, b, m);
    if InFree(f, u) {
      var k :| 0 <= k < |f| && Has(f[k], u);
      var k' := if k < m then k else if k < m + js then m else k + 1 - js;
      InsertAt(f, i, b, k');
      assert Has(g[k'], u);
    }
    if Has(b, u) { assert Has(g[m], u); }
    if InFree(g, u) {
      var k :| 0 <= k < |g| && Has(g[k], u);
      InsertAt(f, i, b, k);
    }
  }

  // The joined block has the units of b and of the blocks it joins.
  lemma JoinedHas(f: seq<Block>, i: nat, b: Block, u: nat)
    requires Sorted(f) && Clear(f, b) && GapAt(f, i, b)
    ensures Has(Joined(f, i, b), u) <==>
      Has(b, u) || exists k :: Place(f, i, b) <= k < Place(f, i, b) + Joins(f, i, b) && k < |f| && Has(f[k], u)
  {
    Neighbours(f, i, b);
  }

  // A block that is clear of both is clear of the result.
  lemma InsertClear(f: seq<Block>, i: nat, b: Block, c: Block)
    requires Sorted(f) && Clear(f, b) && GapAt(f, i, b) && Clear(f, c) && Apart(b, c)
    ensures Clear(Insert(f, i, b), c)
  {
    hide Insert;
    InsertSorted(f, i, b);
    JoinedApart(f, i, b, c);
    var g := Insert(f, i, b);
    forall k | 0 <= k < |g| ensures Apart(g[k], c) {
      InsertAt(f, i, b, k);
    }
  }

  lemma JoinedApart(f: seq<Block>, i: nat, b: Block, c: Block)
    requires Sorted(f) && Clear(f, b) && GapAt(f, i, b) && Clear(f, c) && Apart(b, c)
    ensures Apart(Joined(f, i, b), c)
  {
    Neighbours(f, i, b);
    assert Apart(f[i], c);
    if i + 1 < |f| { assert Apart(f[i + 1], c) && f[i + 1].size > 0; }
  }

  lemma FreedKeeps(ar: Arena, i: nat, a: nat)
    requires Structure(ar) && a in ar.live && GapAt(ar.free, i, Block(a, ar.live[a]))
    ensures Structure(Freed(ar, i, a)) && (Exact(ar) <==> Exact(Freed(ar, i, a)))
  {
    hide Clear, Apart, Insert, Sorted, InFree, InLive;
    var b := Block(a, ar.live[a]);
    var n := Freed(ar, i, a);
    InsertSorted(ar.free, i, b);
    NotEmpty(n.free);
    forall c | c in n.live ensures Clear(n.free, Block(c, n.live[c])) {
      InsertClear(ar.free, i, b, Block(c, ar.live[c]));
    }
    forall u: nat ensures InFree(n.free, u) || InLive(n.live, u) <==> InFree(ar.free, u) || InLive(ar.live, u) {
      InsertHas(ar.free, i, b, u);
      LiveWithout(ar.live, a, u);
    }
  }

  lemma NotEmpty(f: seq<Block>)
    requires Sorted(f)
    ensures f != []
  {
  }

  lemma LiveWithout(live: map<nat, nat>, a: nat, u: nat)
    requires a in live
    ensures InLive(live, u) <==> InLive(live - {a}, u) || Has(Block(a, live[a]), u)
  {
    hide Has;
    if InLive(live, u) {
      var c :| c in live && Has(Block(c, live[c]), u);
      assert c != a ==> c in live - {a} && (live - {a})[c] == live[c];
    }
    if InLive(live - {a}, u) {
      var c :| c in live - {a} && Has(Block(c, (live - {a})[c]), u);
      assert c in live;
    }
  }

  // ---- cutting a block keeps the list ----

  lemma TakeSorted(f: seq<Block>, j: nat, n: nat)
    requires Sorted(f) && 0 < j < |f| && 0 < n <= f[j].size
    ensures Sorted(Take(f, j, n)) && Take(f, j, n)[0] == f[0]
  {
    var g := Take(f, j, n);
    if f[j].size == n {
      forall x | 0 <= x < |g| ensures g[x] == f[if x < j then x else x + 1] {}
    }
  }

  lemma TakeAt(f: seq<Block>, j: nat, n: nat, k: nat)
    requires j < |f| && n <= f[j].size
    ensures f[j].size == n && k < j ==> Take(f, j, n)[k] == f[k]
    ensures f[j].size == n && j < k < |f| ==> Take(f, j, n)[k - 1] == f[k]
    ensures f[j].size > n && k < |f| && k != j ==> Take(f, j, n)[k] == f[k]
    ensures f[j].size > n ==> Take(f, j, n)[j] == Block(f[j].addr, f[j].size - n)
    ensures |Take(f, j, n)| == if f[j].size == n then |f| - 1 else |f|
  {
  }

  lemma TakeHas(f: seq<Block>, j: nat, n: nat, u: nat)
    requires Sorted(f) && 0 < j < |f| && 0 < n <= f[j].size
    ensures InFree(f, u) <==> InFree(Take(f, j, n), u) || Has(Block(TakenAt(f, j, n), n), u)
  {
    hide Take, Sorted;
    var g := Take(f, j, n);
    TakeAt(f, j, n, j);
    if InFree(f, u) && !Has(Block(TakenAt(f, j, n), n), u) {
      var k :| 0 <= k < |f| && Has(f[k], u);
      TakeAt(f, j, n, k);
      assert Has(g[if k > j && f[j].size == n then k - 1 else k], u);
    }
    if InFree(g, u) {
      var k :| 0 <= k < |g| && Has(g[k], u);
      var k' := if k >= j && f[j].size == n then k + 1 else k;
      TakeAt(f, j, n, k');
      assert Has(f[k'], u);
    }
    if Has(Block(TakenAt(f, j, n), n), u) { assert Has(f[j], u); }
  }

  // What was clear of the list stays clear, also of the block cut off.
  lemma TakeClear(f: seq<Block>, j: nat, n: nat, c: Block)
    requires Sorted(f) && 0 < j < |f| && 0 < n <= f[j].size && Clear(f, c)
    ensures Clear(Take(f, j, n), c) && Apart(Block(TakenAt(f, j, n), n), c)
  {
    assert Apart(f[j], c);
  }

  lemma TakenClear(f: seq<Block>, j: nat, n: nat)
    requires Sorted(f) && 0 < j < |f| && 0 < n <= f[j].size
    ensures Clear(Take(f, j, n), Block(TakenAt(f, j, n), n))
  {
    var g := Take(f, j, n);
    forall k | 0 <= k < |g| ensures Apart(g[k], Block(TakenAt(f, j, n), n)) {
      assert g[k] ==
        (if k == j && f[j].size > n then Block(f[j].addr, f[j].size - n)
         else f[if k >= j && f[j].size == n then k + 1 else k]);
    }
  }

  // The block cut off was nobody's.
  lemma TakenNew(ar: Arena, j: nat, n: nat)
    requires Structure(ar) && 0 < j < |ar.free| && 0 < n <= ar.free[j].size
    ensures TakenAt(ar.free, j, n) !in ar.live
  {
    var a := TakenAt(ar.free, j, n);
    assert a in ar.live ==> Apart(ar.free[j], Block(a, ar.live[a]));
  }

  lemma MallocedKeeps(ar: Arena, j: nat, n: nat)
    requires Structure(ar) && 0 < j < |ar.free| && 0 < n <= ar.free[j].size
    ensures Structure(Malloced(ar, j, n)) && (Exact(ar) <==> Exact(Malloced(ar, j, n)))
  {
    hide Clear, Apart, Sorted, Take, TakenAt;
    var a, m := TakenAt(ar.free, j, n), Malloced(ar, j, n);
    TakeSorted(ar.free, j, n);
    TakenClear(ar.free, j, n);
    TakenNew(ar, j, n);
    forall c | c in ar.live ensures Clear(m.free, Block(c, m.live[c])) && Apart(Block(a, n), Block(c, m.live[c])) {
      TakeClear(ar.free, j, n, Block(c, ar.live[c]));
    }
    ApartSymmetric();
    forall u: nat ensures InFree(m.free, u) || InLive(m.live, u) <==> InFree(ar.free, u) || InLive(ar.live, u) {
      TakeHas(ar.free, j, n, u);
      LiveWithout(m.live, a, u);
      assert m.live - {a} == ar.live;
    }
  }

  lemma ApartSymmetric()
    ensures forall a, b :: Apart(a, b) == Apart(b, a)
  {
  }

  // ---- sbrk ----

  function Span(a: nat, n: nat): set<nat> {
    set u | a <= u < a + n && Has(Block(a, n), u)
  }

  // sbrk gave `units` units at hp, and morecore wrote a header for nu units there.
  function Granted(ar: Arena, hp: nat, nu: nat, units: nat): Arena {
    ar.(live := ar.live[hp := nu], got := ar.got + Span(hp, units), top := hp + units)
  }

  // Everything in the arena is below top.
  lemma BelowTop(ar: Arena, b: Block)
    requires Structure(ar) && Exact(ar) && (b in ar.free || (b.addr in ar.live && ar.live[b.addr] == b.size))
    ensures b.addr + b.size <= ar.top
  {
    if b.size > 0 {
      var u := b.addr + b.size - 1;
      assert Has(b, u);
      if b in ar.free { assert InFree(ar.free, u); } else { assert InLive(ar.live, u); }
    } else {
      var i :| 0 <= i < |ar.free| && ar.free[i] == b;
    }
  }

  // The new block is clear of all others; the books balance exactly when sbrk gave
  // as many units as the header says.
  lemma GrantedKeeps(ar: Arena, hp: nat, nu: nat, units: nat)
    requires Structure(ar) && Exact(ar) && hp >= ar.top && nu > 0
    ensures Structure(Granted(ar, hp, nu, units)) && hp !in ar.live
    ensures Exact(Granted(ar, hp, nu, units)) <==> units == nu
  {
    var n := Granted(ar, hp, nu, units);
    forall i | 0 <= i < |ar.free| ensures ar.free[i].addr + ar.free[i].size <= hp {
      BelowTop(ar, ar.free[i]);
    }
    forall a | a in ar.live ensures a + ar.live[a] <= hp && a < hp {
      BelowTop(ar, Block(a, ar.live[a]));
      assert Clear(ar.free, Block(a, ar.live[a]));
    }
    forall a | a in n.live ensures Clear(n.free, Block(a, n.live[a])) {
      if a != hp { assert Clear(ar.free, Block(a, ar.live[a])); }
    }
    forall u: nat ensures InLive(n.live, u) <==> InLive(ar.live, u) || Has(Block(hp, nu), u) {
      LiveWithout(n.live, hp, u);
      assert n.live - {hp} == ar.live;
    }
    GrantBalance(ar, hp, nu, units);
  }

  lemma GrantBalance(ar: Arena, hp: nat, nu: nat, units: nat)
    requires Exact(ar) && hp >= ar.top && nu > 0 && ar.free != []
    requires forall u: nat :: InLive(ar.live[hp := nu], u) <==> InLive(ar.live, u) || Has(Block(hp, nu), u)
    ensures Exact(Granted(ar, hp, nu, units)) <==> units == nu
  {
    hide InFree, InLive;
    var n := Granted(ar, hp, nu, units);
    if units < nu {
      assert Has(Block(hp, nu), hp + units) && hp + units !in n.got;
    }
    if units > nu {
      assert hp + nu in n.got && !Has(Block(hp, nu), hp + nu) && hp + nu !in ar.got;
    }
  }

  // ---- conservation ----

  predicate IsBlock(ar: Arena, b: Block) {
    b in ar.free || (b.addr in ar.live && ar.live[b.addr] == b.size)
  }

  lemma BlocksApart(ar: Arena, b: Block, c: Block, u: nat)
    requires Structure(ar) && IsBlock(ar, b) && IsBlock(ar, c) && Has(b, u) && Has(c, u)
    ensures b == c
  {
    hide Sorted;
    assert b !in ar.free ==> Clear(ar.free, b);
    assert c !in ar.free ==> Clear(ar.free, c);
    if b in ar.free && c in ar.free {
      var i :| 0 <= i < |ar.free| && ar.free[i] == b;
      var j :| 0 <= j < |ar.free| && ar.free[j] == c;
      FreeApart(ar.free, i, j);
    }
  }

  lemma FreeApart(f: seq<Block>, i: nat, j: nat)
    requires Sorted(f) && i < |f| && j < |f|
    ensures i != j ==> Apart(f[i], f[j])
  {
  }

  // Every unit obtained from sbrk is in exactly one block, and blocks have no others.
  lemma UnitsPartition(ar: Arena, u: nat)
    requires Structure(ar) && Exact(ar)
    ensures u in ar.got <==> exists b :: IsBlock(ar, b) && Has(b, u)
    ensures forall b, c :: IsBlock(ar, b) && Has(b, u) && IsBlock(ar, c) && Has(c, u) ==> b == c
  {
    if u in ar.got {
      if InFree(ar.free, u) {
        var i :| 0 <= i < |ar.free| && Has(ar.free[i], u);
        assert IsBlock(ar, ar.free[i]);
      } else {
        var a :| a in ar.live && Has(Block(a, ar.live[a]), u);
        assert IsBlock(ar, Block(a, ar.live[a]));
      }
    }
    forall b | IsBlock(ar, b) && Has(b, u) ensures u in ar.got {
      if b in ar.free { assert InFree(ar.free, u); } else { assert InLive(ar.live, u); }
    }
    forall b, c | IsBlock(ar, b) && Has(b, u) && IsBlock(ar, c) && Has(c, u) ensures b == c {
      BlocksApart(ar, b, c, u);
    }
  }

  // ---- whole runs ----

  // free of a block, malloc of n units from block j, and morecore.
  datatype Op = Release(a: nat) | Hand(j: nat, n: nat) | Grow(hp: nat, nu: nat)

  predicate Allowed(ar: Arena, op: Op) {
    match op
    case Release(a) => a in ar.live
    case Hand(j, n) => 0 < j < |ar.free| && 0 < n <= ar.free[j].size
    case Grow(hp, nu) => hp >= ar.top && nu > 0
  }

  function GiveBack(ar: Arena, a: nat): Arena
    requires Structure(ar) && a in ar.live
  {
    Freed(ar, Gap(ar.free, Block(a, ar.live[a])), a)
  }

  ghost function Step(ar: Arena, op: Op): (n: Arena)
    requires Structure(ar) && Exact(ar) && Allowed(ar, op)
    ensures Structure(n) && Exact(n)
  {
    match op
    case Release(a) =>
      FreedKeeps(ar, Gap(ar.free, Block(a, ar.live[a])), a);
      GiveBack(ar, a)
    case Hand(j, n) =>
      MallocedKeeps(ar, j, n);
      Malloced(ar, j, n)
    case Grow(hp, nu) =>
      GrantedKeeps(ar, hp, nu, nu);
      var g := Granted(ar, hp, nu, nu);
      FreedKeeps(g, Gap(g.free, Block(hp, g.live[hp])), hp);
      GiveBack(g, hp)
  }

  ghost predicate Reaches(ar: Arena, ops: seq<Op>, n: Arena)
    requires Structure(ar) && Exact(ar)
    decreases |ops|
  {
    if ops == [] then n == ar else Allowed(ar, ops[0]) && Reaches(Step(ar, ops[0]), ops[1..], n)
  }

  // Every sequence of calls keeps the list in order and apart and the books exact, and
  // never gives a unit back to the system.
  lemma {:induction false} RunKeeps(ar: Arena, ops: seq<Op>, n: Arena)
    requires Structure(ar) && Exact(ar) && Reaches(ar, ops, n)
    ensures Structure(n) && Exact(n) && ar.got <= n.got && n.free != [] && n.free[0] == ar.free[0]
    decreases |ops|
  {
    hide Structure, Exact, Allowed;
    NotEmptyArena(ar);
    if ops != [] {
      StepGrows(ar, ops[0]);
      RunKeeps(Step(ar, ops[0]), ops[1..], n);
    }
  }

  lemma NotEmptyArena(ar: Arena)
    requires Structure(ar)
    ensures ar.free != []
  {
  }

  lemma StepGrows(ar: Arena, op: Op)
    requires Structure(ar) && Exact(ar) && Allowed(ar, op)
    ensures ar.got <= Step(ar, op).got && ar.free != [] && Step(ar, op).free != [] && Step(ar, op).free[0] == ar.free[0]
  {
    hide Exact, Insert, Take, Gap;
    match op
    case Release(a) => InsertSorted(ar.free, Gap(ar.free, Block(a, ar.live[a])), Block(a, ar.live[a]));
    case Hand(j, n) => TakeSorted(ar.free, j, n);
    case Grow(hp, nu) =>
      GrantedKeeps(ar, hp, nu, nu);
      var g := Granted(ar, hp, nu, nu);
      InsertSorted(g.free, Gap(g.free, Block(hp, g.live[hp])), Block(hp, g.live[hp]));
  }
}
