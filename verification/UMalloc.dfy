/**
 malloc, free and morecore (user/umalloc.c) over headers in memory.  Each is proved
 against FreeList's operations on blocks.
 */
module UMalloc {
  import opened FreeList

  const HEADER := 16
  const MIN_UNITS := 4096

  // The largest request whose size in bytes survives the 32-bit argument of sbrk.
  const LIMIT := 0x1_0000_0000 - 32

  datatype Header = Header(ptr: nat, size: nat)

  // A pointer that may be null; sbrk's answer: refused, or an address.
  datatype Maybe = Null | At(addr: nat)

  // ---- sizes ----

  function Nunits(nbytes: nat): nat {
    (nbytes + HEADER - 1) / HEADER + 1
  }

  // Conversion of an unsigned product to the int that sbrk takes.
  function ToInt32(x: nat): int {
    var y := x % 0x1_0000_0000;
    if y < 0x8000_0000 then y else y - 0x1_0000_0000
  }

  function Core(nu: nat): nat {
    if nu < MIN_UNITS then MIN_UNITS else nu
  }

  // sys_sbrk refuses a negative size.
  predicate Grants(nu: nat, grant: Maybe) {
    grant.At? && ToInt32(Core(nu) * HEADER) >= 0
  }

  function GrantedUnits(nu: nat): int {
    ToInt32(Core(nu) * HEADER) / HEADER
  }

  lemma UnitsPositive(nbytes: nat)
    ensures Nunits(nbytes) > 0
  {
  }

  // A header, and room for the bytes with less than a header to spare.
  lemma RoomForBytes(nbytes: nat)
    ensures nbytes <= (Nunits(nbytes) - 1) * HEADER < nbytes + HEADER
  {
  }

  // Where the heap has to grow, sbrk is asked for a negative size, and malloc fails, exactly
  // for requests over 2^31 - 32 bytes and up to LIMIT.
  lemma GrantsExactly(nbytes: nat, a: nat)
    requires nbytes < 0x1_0000_0000
    ensures Grants(Nunits(nbytes), At(a)) <==> nbytes <= 0x8000_0000 - 32 || nbytes > LIMIT
  {
    var x := Core(Nunits(nbytes)) * HEADER;
    assert nbytes > LIMIT <==> x >= 0x1_0000_0000;
    assert nbytes <= 0x8000_0000 - 32 <==> x < 0x8000_0000;
  }

  // What sbrk is asked for, if it is not refused, is what the header will say exactly
  // for requests up to LIMIT.
  lemma AskedIsNeeded(nbytes: nat, grant: Maybe)
    requires nbytes < 0x1_0000_0000 && Grants(Nunits(nbytes), grant)
    ensures GrantedUnits(Nunits(nbytes)) == Core(Nunits(nbytes)) <==> nbytes <= LIMIT
  {
    var nu := Nunits(nbytes);
    if nbytes <= LIMIT {
      assert nu <= 0x1000_0000 - 1;
    } else {
      assert nu == 0x1000_0000 || nu == 0x1000_0000 + 1;
    }
  }

  // ... and one byte more already gets nothing at all.
  lemma FirstShortRequest()
    ensures Grants(Nunits(LIMIT + 1), At(0)) && GrantedUnits(Nunits(LIMIT + 1)) == 0
  {
  }

  // ---- headers in memory ----

  function Next(f: seq<Block>, i: nat): nat {
    if i + 1 < |f| then i + 1 else 0
  }

  // The headers form one circle in address order, with exactly one wrap.
  ghost predicate Linked(hdr: map<nat, Header>, f: seq<Block>) {
    forall i :: 0 <= i < |f| ==> f[i].addr in hdr && hdr[f[i].addr] == Header(f[Next(f, i)].addr, f[i].size)
  }

  ghost predicate Sized(hdr: map<nat, Header>, live: map<nat, nat>) {
    forall a :: a in live ==> a in hdr && hdr[a].size == live[a]
  }

  // The pointer updates of free, with the block bp going after p.
  function Relink(hdr: map<nat, Header>, p: nat, bp: nat): map<nat, Header>
    requires p in hdr && bp in hdr && hdr[p].ptr in hdr
  {
    var q := hdr[p].ptr;
    var mid := hdr[bp :=
      if bp + hdr[bp].size == q then Header(hdr[q].ptr, hdr[bp].size + hdr[q].size) else Header(q, hdr[bp].size)];
    if p + mid[p].size == bp then mid[p := Header(mid[bp].ptr, mid[p].size + mid[bp].size)]
    else mid[p := mid[p].(ptr := bp)]
  }

  lemma AddrsDiffer(f: seq<Block>, i: nat, j: nat)
    requires Sorted(f) && i < |f| && j < |f| && i != j
    ensures f[i].addr != f[j].addr
  {
  }

  // Relink changes the headers of p and bp only.
  lemma RelinkOthers(hdr: map<nat, Header>, p: nat, bp: nat, a: nat)
    requires p in hdr && bp in hdr && hdr[p].ptr in hdr && p != bp && a in hdr && a != p && a != bp
    ensures a in Relink(hdr, p, bp) && Relink(hdr, p, bp)[a] == hdr[a]
  {
  }

  lemma RelinkAt(hdr: map<nat, Header>, p: nat, bp: nat)
    requires p in hdr && bp in hdr && hdr[p].ptr in hdr && p != bp
    ensures var q, n := hdr[p].ptr, Relink(hdr, p, bp);
      var bh := if bp + hdr[bp].size == q then Header(hdr[q].ptr, hdr[bp].size + hdr[q].size)
        else Header(q, hdr[bp].size);
      && p in n && bp in n
      && n[p] == (if p + hdr[p].size == bp then Header(bh.ptr, hdr[p].size + bh.size) else Header(bp, hdr[p].size))
      && n[bp] == bh
  {
  }

  // The list's view of the same: b's neighbours, and what follows the joined block.
  lemma GapLinks(hdr: map<nat, Header>, f: seq<Block>, i: nat, b: Block)
    requires Sorted(f) && Linked(hdr, f) && Clear(f, b) && GapAt(f, i, b)
    ensures f[i].addr in hdr && f[i].addr != b.addr && hdr[f[i].addr] == Header(f[Next(f, i)].addr, f[i].size)
    ensures f[Next(f, i)].addr in hdr
    ensures hdr[f[Next(f, i)].addr] == Header(f[Next(f, Next(f, i))].addr, f[Next(f, i)].size)
    ensures (b.addr + b.size == f[Next(f, i)].addr <==> JoinsRight(f, i, b)) && (JoinsLeft(f, i, b) ==> i > 0)
  {
    Neighbours(f, i, b);
  }

  lemma AfterJoined(f: seq<Block>, i: nat, b: Block)
    requires i < |f| && |f| > 0
    ensures var g, m := Insert(f, i, b), Place(f, i, b);
      && m < |g| && g[m] == Joined(f, i, b)
      && (i > 0 || !JoinsLeft(f, i, b) ==>
            g[Next(g, m)].addr == f[if JoinsRight(f, i, b) then Next(f, i + 1) else Next(f, i)].addr)
  {
    hide Insert;
    InsertAt(f, i, b, 0);
    InsertAt(f, i, b, Place(f, i, b) + 1);
  }

  lemma RelinkPair(hdr: map<nat, Header>, f: seq<Block>, i: nat, b: Block)
    requires Sorted(f) && Linked(hdr, f) && Clear(f, b) && GapAt(f, i, b)
    requires b.addr in hdr && hdr[b.addr].size == b.size
    ensures f[i].addr in hdr && hdr[f[i].addr].ptr in hdr
    ensures var n := Relink(hdr, f[i].addr, b.addr); var g := Insert(f, i, b); var m := Place(f, i, b);
      && m < |g| && g[m].addr in n && n[g[m].addr] == Header(g[Next(g, m)].addr, g[m].size)
      && (!JoinsLeft(f, i, b) ==> f[i].addr in n && n[f[i].addr] == Header(b.addr, f[i].size))
  {
    hide Clear, Insert, Sorted, Linked, Relink;
    Neighbours(f, i, b);
    GapLinks(hdr, f, i, b);
    RelinkAt(hdr, f[i].addr, b.addr);
    AfterJoined(f, i, b);
  }

  // A block that neither moves nor gets a new header keeps its link.
  lemma RelinkRest(hdr: map<nat, Header>, f: seq<Block>, i: nat, b: Block, k: nat)
    requires Sorted(f) && Linked(hdr, f) && Clear(f, b) && GapAt(f, i, b) && b.addr in hdr
    requires k < |Insert(f, i, b)| && k != Place(f, i, b) && !(k == i && !JoinsLeft(f, i, b))
    ensures f[i].addr in hdr && hdr[f[i].addr].ptr in hdr
    ensures var n, g := Relink(hdr, f[i].addr, b.addr), Insert(f, i, b);
      g[k].addr in n && n[g[k].addr] == Header(g[Next(g, k)].addr, g[k].size)
  {
    hide Insert, Relink, Sorted, Clear, Linked;
    GapLinks(hdr, f, i, b);
    var o := if k < Place(f, i, b) then k else k + Joins(f, i, b) - 1;
    RestAt(f, i, b, k);
    HeaderAt(hdr, f, o);
    AddrsDiffer(f, i, o);
    NotThere(f, b, o);
    RelinkOthers(hdr, f[i].addr, b.addr, f[o].addr);
  }

  // Such a block and what follows it, before and after.
  lemma RestAt(f: seq<Block>, i: nat, b: Block, k: nat)
    requires i < |f| && k < |Insert(f, i, b)| && k != Place(f, i, b) && !(k == i && !JoinsLeft(f, i, b))
    ensures var g := Insert(f, i, b); var o := if k < Place(f, i, b) then k else k + Joins(f, i, b) - 1;
      o < |f| && o != i && g[k] == f[o] && (i > 0 || !JoinsLeft(f, i, b) ==> g[Next(g, k)].addr == f[Next(f, o)].addr)
  {
    hide Insert;
    InsertAt(f, i, b, 0);
    InsertAt(f, i, b, k);
    InsertAt(f, i, b, k + 1);
  }

  lemma NotThere(f: seq<Block>, b: Block, o: nat)
    requires Sorted(f) && Clear(f, b) && o < |f|
    ensures f[o].addr != b.addr
  {
    assert Apart(f[o], b);
  }

  lemma RelinkLinked(hdr: map<nat, Header>, f: seq<Block>, i: nat, b: Block)
    requires Sorted(f) && Linked(hdr, f) && Clear(f, b) && GapAt(f, i, b)
    requires b.addr in hdr && hdr[b.addr].size == b.size
    ensures f[i].addr in hdr && hdr[f[i].addr].ptr in hdr
    ensures Linked(Relink(hdr, f[i].addr, b.addr), Insert(f, i, b))
  {
    hide Insert, Relink, Sorted, Clear;
    RelinkPair(hdr, f, i, b);
    var n, g, m := Relink(hdr, f[i].addr, b.addr), Insert(f, i, b), Place(f, i, b);
    forall k | 0 <= k < |g| ensures g[k].addr in n && n[g[k].addr] == Header(g[Next(g, k)].addr, g[k].size) {
      if k == i && !JoinsLeft(f, i, b) {
        InsertAt(f, i, b, k);
        InsertAt(f, i, b, k + 1);
      } else if k != m {
        RelinkRest(hdr, f, i, b, k);
      }
    }
  }

  lemma LiveBlock(hdr: map<nat, Header>, ar: Arena, a: nat)
    requires Structure(ar) && Sized(hdr, ar.live) && a in ar.live
    ensures Sorted(ar.free) && Clear(ar.free, Block(a, ar.live[a])) && a in hdr && hdr[a].size == ar.live[a]
  {
  }

  lemma RelinkSized(hdr: map<nat, Header>, f: seq<Block>, live: map<nat, nat>, i: nat, a: nat)
    requires Sorted(f) && Linked(hdr, f) && LiveOk(f, live) && Sized(hdr, live) && a in live && i < |f|
    requires f[i].addr in hdr && hdr[f[i].addr].ptr in hdr
    ensures Sized(Relink(hdr, f[i].addr, a), live - {a})
  {
    hide Relink, Sorted, Clear, Linked;
    NotThere(f, Block(a, live[a]), i);
    forall c | c in live - {a} ensures c in Relink(hdr, f[i].addr, a) && Relink(hdr, f[i].addr, a)[c].size == live[c] {
      NotThere(f, Block(c, live[c]), i);
      RelinkOthers(hdr, f[i].addr, a, c);
    }
  }

  // The pointer updates of malloc, at a block p of exactly n units or of more.
  function Unlink(hdr: map<nat, Header>, prevp: nat, p: nat, n: nat): map<nat, Header>
    requires p in hdr && prevp in hdr && n <= hdr[p].size
  {
    if hdr[p].size == n then hdr[prevp := hdr[prevp].(ptr := hdr[p].ptr)]
    else
      var cut := hdr[p := hdr[p].(size := hdr[p].size - n)];
      cut[p + hdr[p].size - n := Header(if p + hdr[p].size - n in cut then cut[p + hdr[p].size - n].ptr else 0, n)]
  }

  lemma UnlinkLinked(hdr: map<nat, Header>, f: seq<Block>, j: nat, n: nat)
    requires Sorted(f) && Linked(hdr, f) && 0 < j < |f| && 0 < n <= f[j].size
    ensures f[j].addr in hdr && f[j - 1].addr in hdr && hdr[f[j].addr].size == f[j].size
    ensures Linked(Unlink(hdr, f[j - 1].addr, f[j].addr, n), Take(f, j, n))
  {
    assert f[j].addr in hdr && f[j - 1].addr in hdr;
    if f[j].size == n { UnlinkWhole(hdr, f, j); } else { UnlinkPart(hdr, f, j, n); }
  }

  lemma UnlinkWhole(hdr: map<nat, Header>, f: seq<Block>, j: nat)
    requires Sorted(f) && Linked(hdr, f) && 0 < j < |f| && f[j].addr in hdr && f[j - 1].addr in hdr
    ensures Linked(hdr[f[j - 1].addr := hdr[f[j - 1].addr].(ptr := hdr[f[j].addr].ptr)], f[..j] + f[j + 1..])
  {
    hide Sorted;
    var n, g := hdr[f[j - 1].addr := hdr[f[j - 1].addr].(ptr := hdr[f[j].addr].ptr)], f[..j] + f[j + 1..];
    forall k | 0 <= k < |g| ensures g[k].addr in n && n[g[k].addr] == Header(g[Next(g, k)].addr, g[k].size) {
      UnlinkedAt(hdr, f, j, k);
    }
  }

  lemma UnlinkedAt(hdr: map<nat, Header>, f: seq<Block>, j: nat, k: nat)
    requires Sorted(f) && Linked(hdr, f) && 0 < j < |f| && f[j].addr in hdr && f[j - 1].addr in hdr && k + 1 < |f|
    ensures var n, g := hdr[f[j - 1].addr := hdr[f[j - 1].addr].(ptr := hdr[f[j].addr].ptr)], f[..j] + f[j + 1..];
      |g| == |f| - 1 && g[k].addr in n && n[g[k].addr] == Header(g[Next(g, k)].addr, g[k].size)
  {
    hide Sorted, Linked;
    var g := f[..j] + f[j + 1..];
    var o := if k < j then k else k + 1;
    HeaderAt(hdr, f, o);
    HeaderAt(hdr, f, j);
    WithoutAt(f, j, k);
    WithoutAt(f, j, Next(g, k));
    if o != j - 1 { AddrsDiffer(f, o, j - 1); }
  }

  lemma HeaderAt(hdr: map<nat, Header>, f: seq<Block>, i: nat)
    requires Linked(hdr, f) && i < |f|
    ensures f[i].addr in hdr && hdr[f[i].addr] == Header(f[Next(f, i)].addr, f[i].size)
  {
  }

  lemma WithoutAt(f: seq<Block>, j: nat, k: nat)
    requires j < |f|
    ensures var g := f[..j] + f[j + 1..]; |g| == |f| - 1 && (k < |g| ==> g[k] == f[if k < j then k else k + 1])
  {
  }

  lemma UnlinkPart(hdr: map<nat, Header>, f: seq<Block>, j: nat, n: nat)
    requires Sorted(f) && Linked(hdr, f) && 0 < j < |f| && 0 < n < f[j].size && f[j].addr in hdr
    requires f[j - 1].addr in hdr && hdr[f[j].addr].size == f[j].size
    ensures Linked(Unlink(hdr, f[j - 1].addr, f[j].addr, n), f[j := Block(f[j].addr, f[j].size - n)])
  {
    hide Sorted;
    var h, g := Unlink(hdr, f[j - 1].addr, f[j].addr, n), f[j := Block(f[j].addr, f[j].size - n)];
    forall k | 0 <= k < |g| ensures g[k].addr in h && h[g[k].addr] == Header(g[Next(g, k)].addr, g[k].size) {
      HeaderAt(hdr, f, k);
      if k != j { AddrsDiffer(f, k, j); }
      OutsideBlock(f, j, k, f[j].addr + f[j].size - n);
    }
  }

  // No block starts strictly inside another.
  lemma OutsideBlock(f: seq<Block>, j: nat, k: nat, u: nat)
    requires Sorted(f) && j < |f| && k < |f| && f[j].addr < u < f[j].addr + f[j].size
    ensures f[k].addr != u
  {
  }

  lemma UnlinkSized(hdr: map<nat, Header>, f: seq<Block>, live: map<nat, nat>, j: nat, n: nat)
    requires Sorted(f) && Linked(hdr, f) && LiveOk(f, live) && Sized(hdr, live) && 0 < j < |f| && 0 < n <= f[j].size
    requires f[j].addr in hdr && f[j - 1].addr in hdr && hdr[f[j].addr].size == f[j].size
    ensures Sized(Unlink(hdr, f[j - 1].addr, f[j].addr, n), live[TakenAt(f, j, n) := n])
  {
    hide Linked;
    var a := TakenAt(f, j, n);
    AddrsDiffer(f, j - 1, j);
    forall c | c in live && c != a ensures c != f[j].addr && c != f[j - 1].addr {
      NotThere(f, Block(c, live[c]), j);
      NotThere(f, Block(c, live[c]), j - 1);
    }
  }

  // ---- one lap ----

  // The node v + 1 steps after node kk.
  function Around(n: nat, kk: nat, v: nat): (k: nat)
    requires kk < n && v < n
    ensures k < n
  {
    if kk + 1 + v < n then kk + 1 + v else kk + 1 + v - n
  }

  function Before(n: nat, k: nat): (b: nat)
    requires k < n
    ensures b < n
  {
    if k > 0 then k - 1 else n - 1
  }

  // No free block is large enough.
  predicate NoFit(f: seq<Block>, n: nat) {
    forall i :: 0 <= i < |f| ==> f[i].size < n
  }

  // The first v nodes of a lap from kk are too small.
  ghost predicate Passed(f: seq<Block>, kk: nat, v: nat, n: nat) {
    kk < |f| && v <= |f| && forall x :: 0 <= x < v ==> f[Around(|f|, kk, x)].size < n
  }

  // Node j is the first of a lap from kk that is large enough.
  ghost predicate FirstFit(f: seq<Block>, kk: nat, j: nat, n: nat) {
    && kk < |f| && j < |f| && f[j].size >= n
    && exists v :: 0 <= v < |f| && j == Around(|f|, kk, v) && Passed(f, kk, v, n)
  }

  // The arena once sbrk has given room for nu units at hp and it has been freed into the
  // list; kk is the node before it, or the node it was joined to.
  ghost predicate Obtained(ar: Arena, hp: nat, nu: nat, mid: Arena, kk: nat) {
    && GrantedUnits(nu) >= 0
    && var g, b := Granted(ar, hp, Core(nu), GrantedUnits(nu)), Block(hp, Core(nu));
       && Sorted(g.free) && Clear(g.free, b) && mid == Freed(g, Gap(g.free, b), hp)
       && kk < |mid.free| && mid.free[kk].addr == g.free[Gap(g.free, b)].addr
  }

  lemma NonePassed(f: seq<Block>, kk: nat, n: nat)
    requires kk < |f|
    ensures Passed(f, kk, 0, n)
  {
  }

  lemma PassOne(f: seq<Block>, kk: nat, v: nat, n: nat)
    requires Passed(f, kk, v, n) && v < |f| && f[Around(|f|, kk, v)].size < n
    ensures Passed(f, kk, v + 1, n)
  {
  }

  lemma FitsFirst(f: seq<Block>, kk: nat, v: nat, n: nat)
    requires Passed(f, kk, v, n) && v < |f| && f[Around(|f|, kk, v)].size >= n
    ensures FirstFit(f, kk, Around(|f|, kk, v), n)
  {
  }

  // A lap passes every node.
  lemma LapIsAll(f: seq<Block>, kk: nat, n: nat)
    requires Passed(f, kk, |f|, n)
    ensures NoFit(f, n)
  {
    forall i | 0 <= i < |f| ensures f[i].size < n {
      var v := if i > kk then i - kk - 1 else i + |f| - kk - 1;
      assert Around(|f|, kk, v) == i;
    }
  }

  class Allocator {
    const base: nat
    var hdr: map<nat, Header>
    var freep: Maybe
    ghost var ar: Arena

    ghost predicate Shape()
      reads this
    {
      && Structure(ar) && ar.free[0].addr == base
      && match freep
         case Null => ar.free == [Block(base, 0)] && ar.live == map[]
         case At(p) =>
           && Linked(hdr, ar.free) && Sized(hdr, ar.live)
           && exists k :: 0 <= k < |ar.free| && ar.free[k].addr == p
    }

    ghost predicate Valid()
      reads this
    {
      Shape() && Exact(ar)
    }

    constructor (b: nat, top: nat)
      requires b < top
      ensures Valid() && ar == Arena([Block(b, 0)], map[], {}, top)
    {
      base := b;
      hdr := map[];
      freep := Null;
      ar := Arena([Block(b, 0)], map[], {}, top);
    }

    // free(ap), the block's header being one unit before ap.
    method Free(ap: nat)
      requires Shape() && ap > 0 && ap - 1 in ar.live
      modifies this
      ensures Shape() && freep.At?
      ensures old(ar.free) != [] && Clear(old(ar.free), Block(ap - 1, old(ar.live)[ap - 1]))
      ensures ar == Freed(old(ar), Gap(old(ar.free), Block(ap - 1, old(ar.live)[ap - 1])), ap - 1)
      ensures freep == At(old(ar.free)[Gap(old(ar.free), Block(ap - 1, old(ar.live)[ap - 1]))].addr)
      ensures old(Exact(ar)) <==> Exact(ar)
    {
      hide Sorted, Clear, Gap, Insert, Relink, Exact, Linked, Sized, LiveOk;
      var bp := ap - 1;
      ghost var f, b := ar.free, Block(bp, ar.live[bp]);
      LiveBlock(hdr, ar, bp);
      ghost var i := Gap(f, b);
      var p := FindGap(bp);
      FreedKeeps(ar, i, bp);
      InsertSorted(f, i, b);
      RelinkLinked(hdr, f, i, b);
      RelinkSized(hdr, f, ar.live, i, bp);
      ghost var n := Relink(hdr, p, bp);
      RelinkAt(hdr, p, bp);
      Relinking(bp, p);
      freep := At(p);
      ar := Freed(ar, i, bp);
      InsertAt(f, i, b, i);
      assert ar.free[i].addr == p;
    }

    // The scan: within one lap it reaches the one gap that bp belongs in.
    method FindGap(bp: nat) returns (p: nat)
      requires Shape() && bp in ar.live
      ensures Clear(ar.free, Block(bp, ar.live[bp])) && Sorted(ar.free)
      ensures p == ar.free[Gap(ar.free, Block(bp, ar.live[bp]))].addr
    {
      hide Sorted, Clear, Gap, Structure, Linked, Sized;
      p := freep.addr;
      ghost var f, b := ar.free, Block(bp, ar.live[bp]);
      LiveBlock(hdr, ar, bp);
      ghost var g := Gap(f, b);
      ghost var k :| 0 <= k < |f| && f[k].addr == p;
      HeaderAt(hdr, f, k);
      while !(bp > p && bp < hdr[p].ptr)
        invariant 0 <= k < |f| && f[k].addr == p && p in hdr && hdr[p] == Header(f[Next(f, k)].addr, f[k].size)
        decreases if k <= g then g - k else g + |f| - k
      {
        if p >= hdr[p].ptr && (bp > p || bp < hdr[p].ptr) {
          break;
        }
        StopsAtGap(hdr, f, b, k);
        HeaderAt(hdr, f, Next(f, k));
        p := hdr[p].ptr;
        k := Next(f, k);
      }
      StopsAtGap(hdr, f, b, k);
    }

    // The two link updates of free.
    method Relinking(bp: nat, p: nat)
      requires p in hdr && bp in hdr && hdr[p].ptr in hdr && p != bp
      modifies this`hdr
      ensures hdr == Relink(old(hdr), p, bp)
    {
      var q := hdr[p].ptr;
      if bp + hdr[bp].size == q {
        hdr := hdr[bp := Header(hdr[q].ptr, hdr[bp].size + hdr[q].size)];
      } else {
        hdr := hdr[bp := hdr[bp].(ptr := q)];
      }
      if p + hdr[p].size == bp {
        hdr := hdr[p := Header(hdr[bp].ptr, hdr[p].size + hdr[bp].size)];
      } else {
        hdr := hdr[p := hdr[p].(ptr := bp)];
      }
    }

    // morecore: ask sbrk for at least nu units and free them into the list.
    method Morecore(nu: nat, grant: Maybe) returns (p: Maybe, ghost kk: nat)
      requires Valid() && freep.At? && nu > 0 && (grant.At? ==> grant.addr >= ar.top)
      modifies this
      ensures p.At? <==> Grants(nu, grant)
      ensures p.Null? ==> ar == old(ar) && hdr == old(hdr) && freep == old(freep)
      ensures p.At? ==> Shape() && freep == p && ar.live == old(ar).live && !NoFit(ar.free, nu)
      ensures p.At? ==> (Exact(ar) <==> GrantedUnits(nu) == Core(nu))
      ensures p.At? ==>
        grant.At? && kk < |ar.free| && ar.free[kk].addr == freep.addr && Obtained(old(ar), grant.addr, nu, ar, kk)
    {
      hide Structure, Linked, Sized, Exact, Sorted, Clear, Gap, Insert, ToInt32, NoFit;
      var n := Core(nu);
      var bytes := ToInt32(n * HEADER);
      kk := 0;
      if grant.Null? || bytes < 0 {
        return Null, 0;
      }
      var hp := grant.addr;
      ghost var before := ar;
      GrantedKeeps(ar, hp, n, bytes / HEADER);
      GrantedLinks(hdr, ar, hp, n);
      hdr := hdr[hp := Header(if hp in hdr then hdr[hp].ptr else 0, n)];
      ar := Granted(ar, hp, n, bytes / HEADER);
      Free(hp + 1);
      assert ar.live == before.live;
      FreedFits(before, hp, n, bytes / HEADER, nu);
      kk :| kk < |ar.free| && ar.free[kk].addr == freep.addr;
      p := freep;
    }

    // malloc.  `grant` is what sbrk will answer if it is asked.
    method Malloc(nbytes: nat, grant: Maybe)
      returns (r: Maybe, grown: bool, ghost mid: Arena, ghost kk: nat, ghost j: nat)
      requires Valid() && nbytes < 0x1_0000_0000 && (grant.At? ==> grant.addr >= ar.top)
      modifies this
      ensures Shape() && (Exact(ar) <==> !grown || nbytes <= LIMIT)
      ensures grown <==> NoFit(old(ar).free, Nunits(nbytes)) && Grants(Nunits(nbytes), grant)
      ensures r.Null? <==> NoFit(old(ar).free, Nunits(nbytes)) && !grown
      ensures r.Null? ==> ar == old(ar)
      ensures r.At? ==>
        r.addr > 0 && r.addr - 1 !in old(ar).live && ar.live == old(ar).live[r.addr - 1 := Nunits(nbytes)]
      // the first block that fits, from the one after freep, or from where morecore leaves it
      ensures r.At? && grown ==> Obtained(old(ar), grant.addr, Nunits(nbytes), mid, kk)
      ensures r.At? && !grown ==>
        mid == old(ar) && kk < |mid.free| && mid.free[kk].addr == if old(freep).At? then old(freep).addr else base
      ensures r.At? ==>
        && FirstFit(mid.free, kk, j, Nunits(nbytes)) && ar == Malloced(mid, j, Nunits(nbytes))
        && r == At(TakenAt(mid.free, j, Nunits(nbytes)) + 1) && freep == At(mid.free[Before(|mid.free|, j)].addr)
    {
      hide Structure, Exact, Linked, Sized, Grants, NoFit, Take, TakenAt, ToInt32, Around, Before, Next, Nunits, Core;
      hide GrantedUnits, Passed, Obtained, FirstFit;
      var nunits := Nunits(nbytes);
      mid, j := ar, 0;
      Start();
      kk :| kk < |ar.free| && ar.free[kk].addr == freep.addr;
      ghost var v, w: nat := 0, 0;
      LapEnd(ar, kk, 0);
      UnitsPositive(nbytes);
      NonePassed(ar.free, kk, nunits);
      var prevp, p := Advance(freep.addr, kk);
      grown := false;
      while true
        invariant Shape() && freep.At? && kk < |ar.free| && v < |ar.free|
        invariant ar.free[kk].addr == freep.addr && p == ar.free[Around(|ar.free|, kk, v)].addr
        invariant prevp == ar.free[Before(|ar.free|, Around(|ar.free|, kk, v))].addr
        invariant Passed(ar.free, kk, v, nunits) && (!grown ==> ar == old(ar))
        invariant grown ==> grant.At? && Obtained(old(ar), grant.addr, nunits, ar, kk)
        invariant !grown ==> freep.addr == if old(freep).At? then old(freep).addr else base
        invariant grown ==>
          ar.live == old(ar).live && v <= w < |ar.free| && ar.free[Around(|ar.free|, kk, w)].size >= nunits
        invariant grown ==> NoFit(old(ar).free, nunits) && Grants(nunits, grant)
        invariant Exact(ar) <==> !grown || nbytes <= LIMIT
        decreases !grown, |ar.free| - v
      {
        SizeAt(hdr, ar.free, Around(|ar.free|, kk, v));
        if hdr[p].size >= nunits {
          mid, j := ar, Around(|ar.free|, kk, v);
          Fits(ar.free, nunits, j);
          FitsFirst(ar.free, kk, v, nunits);
          p := Cut(prevp, p, nunits, j);
          r := At(p + 1);
          return;
        }
        LapEnd(ar, kk, v);
        PassOne(ar.free, kk, v, nunits);
        if p == freep.addr {
          LapIsAll(ar.free, kk, nunits);
          var q;
          q, kk, w := Grow(nbytes, grant);
          if q.Null? {
            r := Null;
            return;
          }
          grown, v := true, 0;
          NonePassed(ar.free, kk, nunits);
          prevp, p := Advance(q.addr, kk);
        } else {
          prevp, p := Advance(p, Around(|ar.free|, kk, v));
          v := v + 1;
        }
      }
    }

    // malloc's use of morecore, and where the next lap will meet a block that fits.
    method Grow(nbytes: nat, grant: Maybe) returns (q: Maybe, ghost kk: nat, ghost w: nat)
      requires Valid() && freep.At? && nbytes < 0x1_0000_0000 && (grant.At? ==> grant.addr >= ar.top)
      modifies this
      ensures q.At? <==> Grants(Nunits(nbytes), grant)
      ensures q.Null? ==> ar == old(ar) && hdr == old(hdr) && freep == old(freep)
      ensures q.At? ==> Shape() && freep == q && ar.live == old(ar).live && (Exact(ar) <==> nbytes <= LIMIT)
      ensures q.At? ==> kk < |ar.free| && ar.free[kk].addr == q.addr && Next(ar.free, kk) == Around(|ar.free|, kk, 0)
      ensures q.At? ==> w < |ar.free| && ar.free[Around(|ar.free|, kk, w)].size >= Nunits(nbytes)
      ensures q.At? ==> Before(|ar.free|, Around(|ar.free|, kk, 0)) == kk
      ensures q.At? ==> grant.At? && Obtained(old(ar), grant.addr, Nunits(nbytes), ar, kk)
    {
      hide Structure, Exact, Linked, Sized, Grants, NoFit, ToInt32, Around, Before, Next, Nunits, Core, GrantedUnits;
      hide Obtained;
      UnitsPositive(nbytes);
      q, kk := Morecore(Nunits(nbytes), grant);
      w := 0;
      if q.At? {
        AskedIsNeeded(nbytes, grant);
        w := LapReaches(ar.free, kk, Nunits(nbytes));
      }
    }

    // The first call makes the list of one empty block.
    method Start()
      requires Shape()
      modifies this`hdr, this`freep
      ensures Shape() && freep.At? && freep.addr == if old(freep).At? then old(freep).addr else base
    {
      if freep.Null? {
        hdr := hdr[base := Header(base, 0)];
        freep := At(base);
        assert ar.free[0].addr == base;
      }
    }

    // prevp, p = p, p->s.ptr
    method Advance(p: nat, ghost k: nat) returns (prevp: nat, next: nat)
      requires Shape() && freep.At? && k < |ar.free| && p == ar.free[k].addr
      ensures prevp == ar.free[k].addr && next == ar.free[Next(ar.free, k)].addr
    {
      hide Structure, Sized;
      HeaderAt(hdr, ar.free, k);
      return p, hdr[p].ptr;
    }

    // Hand out n units of the block at p.
    method Cut(prevp: nat, p: nat, n: nat, ghost j: nat) returns (a: nat)
      requires Shape() && freep.At? && j < |ar.free| && 0 < n <= ar.free[j].size
      requires p == ar.free[j].addr && prevp == ar.free[Before(|ar.free|, j)].addr
      modifies this
      ensures Shape() && a !in old(ar).live && ar == Malloced(old(ar), j, n) && a == TakenAt(old(ar).free, j, n)
      ensures (Exact(ar) <==> old(Exact(ar))) && freep == At(prevp)
    {
      hide Structure, Exact, Linked, Sized, Take;
      NotBase(ar, j);
      MallocedKeeps(ar, j, n);
      TakenNew(ar, j, n);
      TakeFirst(ar, j, n);
      UnlinkBoth(hdr, ar, j, n);
      a := p;
      if hdr[p].size == n {
        hdr := hdr[prevp := hdr[prevp].(ptr := hdr[p].ptr)];
      } else {
        hdr := hdr[p := hdr[p].(size := hdr[p].size - n)];
        a := p + hdr[p].size;
        hdr := hdr[a := Header(if a in hdr then hdr[a].ptr else 0, n)];
      }
      freep := At(prevp);
      ar := Malloced(ar, j, n);
      assert ar.free[j - 1].addr == prevp;
    }
  }

  // The tests of the scan succeed at the gap and nowhere else.
  predicate Stops(hdr: map<nat, Header>, p: nat, bp: nat)
    requires p in hdr
  {
    (bp > p && bp < hdr[p].ptr) || (p >= hdr[p].ptr && (bp > p || bp < hdr[p].ptr))
  }

  lemma StopsAtGap(hdr: map<nat, Header>, f: seq<Block>, b: Block, k: nat)
    requires Sorted(f) && Linked(hdr, f) && Clear(f, b) && k < |f|
    ensures f[k].addr in hdr && (Stops(hdr, f[k].addr, b.addr) <==> k == Gap(f, b))
  {
    assert f[k].addr in hdr && hdr[f[k].addr] == Header(f[Next(f, k)].addr, f[k].size);
    NotThere(f, b, k);
    if GapAt(f, k, b) { GapUnique(f, b, k, Gap(f, b)); }
  }

  // A header written above everything is no list node's and no live block's.
  lemma GrantedLinks(hdr: map<nat, Header>, ar: Arena, hp: nat, n: nat)
    requires Structure(ar) && Exact(ar) && hp >= ar.top && Linked(hdr, ar.free) && Sized(hdr, ar.live)
    ensures forall p :: Linked(hdr[hp := Header(p, n)], ar.free) && Sized(hdr[hp := Header(p, n)], ar.live[hp := n])
  {
    forall i | 0 <= i < |ar.free| ensures ar.free[i].addr != hp {
      BelowTop(ar, ar.free[i]);
    }
  }

  // The block just freed, joined or not, is in the list.
  lemma FreedFits(ar: Arena, hp: nat, n: nat, units: nat, nu: nat)
    requires Structure(ar) && Exact(ar) && hp >= ar.top && n > 0 && nu <= n
    ensures var ng := Granted(ar, hp, n, units);
      && Sorted(ng.free) && Clear(ng.free, Block(hp, n))
      && !NoFit(Freed(ng, Gap(ng.free, Block(hp, n)), hp).free, nu)
  {
    GrantedKeeps(ar, hp, n, units);
    var ng := Granted(ar, hp, n, units);
    assert Clear(ng.free, Block(hp, ng.live[hp]));
    var i := Gap(ng.free, Block(hp, n));
    InsertAt(ng.free, i, Block(hp, n), 0);
    assert Joined(ng.free, i, Block(hp, n)).size >= n;
  }

  lemma SizeAt(hdr: map<nat, Header>, f: seq<Block>, i: nat)
    requires Linked(hdr, f) && i < |f|
    ensures f[i].addr in hdr && hdr[f[i].addr].size == f[i].size
  {
  }

  lemma Fits(f: seq<Block>, n: nat, i: nat)
    requires i < |f| && f[i].size >= n
    ensures !NoFit(f, n)
  {
  }

  // The scan is back at freep exactly after a whole lap.
  lemma LapEnd(ar: Arena, kk: nat, v: nat)
    requires Structure(ar) && kk < |ar.free| && v < |ar.free|
    ensures ar.free[Around(|ar.free|, kk, v)].addr == ar.free[kk].addr <==> v == |ar.free| - 1
    ensures Before(|ar.free|, Around(|ar.free|, kk, 0)) == kk && Next(ar.free, kk) == Around(|ar.free|, kk, 0)
    ensures v + 1 < |ar.free| ==>
      var j, k := Around(|ar.free|, kk, v), Around(|ar.free|, kk, v + 1);
      Next(ar.free, j) == k && Before(|ar.free|, k) == j
  {
    if Around(|ar.free|, kk, v) != kk { AddrsDiffer(ar.free, Around(|ar.free|, kk, v), kk); }
  }

  // ... and on the way it passes any block that fits.
  lemma LapReaches(f: seq<Block>, kk: nat, n: nat) returns (w: nat)
    requires kk < |f| && !NoFit(f, n)
    ensures w < |f| && f[Around(|f|, kk, w)].size >= n
    ensures Before(|f|, Around(|f|, kk, 0)) == kk && Next(f, kk) == Around(|f|, kk, 0)
  {
    var i :| 0 <= i < |f| && f[i].size >= n;
    w := if i > kk then i - kk - 1 else i + |f| - kk - 1;
  }

  lemma NotBase(ar: Arena, j: nat)
    requires Structure(ar) && j < |ar.free| && ar.free[j].size > 0
    ensures j > 0
  {
  }

  lemma TakeFirst(ar: Arena, j: nat, n: nat)
    requires Structure(ar) && 0 < j < |ar.free| && 0 < n <= ar.free[j].size
    ensures Take(ar.free, j, n) != [] && Take(ar.free, j, n)[0] == ar.free[0]
    ensures j - 1 < |Take(ar.free, j, n)| && Take(ar.free, j, n)[j - 1] == ar.free[j - 1]
  {
  }

  lemma UnlinkBoth(hdr: map<nat, Header>, ar: Arena, j: nat, n: nat)
    requires Structure(ar) && Linked(hdr, ar.free) && Sized(hdr, ar.live) && 0 < j < |ar.free|
    requires 0 < n <= ar.free[j].size
    ensures var f := ar.free;
      && f[j].addr in hdr && f[j - 1].addr in hdr && hdr[f[j].addr].size == f[j].size
      && Linked(Unlink(hdr, f[j - 1].addr, f[j].addr, n), Take(f, j, n))
      && Sized(Unlink(hdr, f[j - 1].addr, f[j].addr, n), ar.live[TakenAt(f, j, n) := n])
  {
    UnlinkLinked(hdr, ar.free, j, n);
    UnlinkSized(hdr, ar.free, ar.live, j, n);
  }
}
