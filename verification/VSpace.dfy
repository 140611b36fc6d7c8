/**
 Regions, their linked tables of page entries, and vspaceinvalidate, which rewrites the
 machine page table from them (kernel/vspace.c).
 */
module VSpace {
  import opened Prelude
  import opened PageTable
  import opened PageHoles
  import opened X86Vm

  const PER_PAGE := 127

  datatype Dir = Up | Down

  // `base` and `size` are in bytes.
  datatype Region = Region(dir: Dir, base: nat, size: nat)

  // struct vpage_info
  datatype Info = Info(used: bool, present: bool, writable: bool, cow: bool, ppn: nat)

  function BlankInfo(): Info {
    Info(false, false, false, false, 0)
  }

  function Bot(r: Region): int {
    if r.dir == Up then r.base else r.base - r.size
  }

  function Top(r: Region): int {
    if r.dir == Up then r.base + r.size else r.base
  }

  // A region lies in user space and starts on a page boundary.
  predicate RegionOk(r: Region) {
    0 <= Bot(r) && Bot(r) % PGSIZE == 0 && r.base % PGSIZE == 0 && Top(r) <= MAX_PAGE * PGSIZE
  }

  predicate InRegion(r: Region, p: nat) {
    Bot(r) <= p * PGSIZE < Top(r)
  }

  ghost predicate Disjoint(rs: seq<Region>) {
    forall i, j, p: nat :: 0 <= i < j < |rs| && InRegion(rs[i], p) ==> !InRegion(rs[j], p)
  }

  // va2vpi_idx, for an address in the region.
  function Idx(r: Region, va: nat): nat
    requires RegionOk(r) && Bot(r) <= va < Top(r)
  {
    if r.dir == Up then (va - r.base) / PGSIZE else (r.base - 1 - va) / PGSIZE
  }

  // How many pages a region has.
  function Count(r: Region): nat {
    (r.size + PGSIZE - 1) / PGSIZE
  }

  // Page entries and pages correspond one to one.
  lemma IdxBijection(r: Region, p: nat, q: nat)
    requires RegionOk(r) && InRegion(r, p) && InRegion(r, q)
    ensures Idx(r, p * PGSIZE) < Count(r)
    ensures Idx(r, p * PGSIZE) == Idx(r, q * PGSIZE) ==> p == q
  {
  }

  // ... and every entry of the region has its page.
  lemma IdxOnto(r: Region, i: nat) returns (p: nat)
    requires RegionOk(r) && i < Count(r)
    ensures InRegion(r, p) && Idx(r, p * PGSIZE) == i
  {
    p := if r.dir == Up then r.base / PGSIZE + i else r.base / PGSIZE - 1 - i;
  }

  // ---- the linked table of entries ----

  type Infos = seq<seq<Info>>

  predicate InfosOk(t: Infos) {
    forall k :: 0 <= k < |t| ==> |t[k]| == PER_PAGE
  }

  // The entry with this index; pages not yet linked in are blank.
  function InfoAt(t: Infos, i: nat): Info
    requires InfosOk(t)
  {
    if i / PER_PAGE < |t| then t[i / PER_PAGE][i % PER_PAGE] else BlankInfo()
  }

  // va2vpage_info: follow the list, linking in blank pages as it runs out.
  method Va2VpageInfo(t: Infos, i: nat) returns (n: Infos, page: nat, off: nat)
    requires InfosOk(t)
    ensures InfosOk(n) && page < |n| && off < PER_PAGE && page * PER_PAGE + off == i
    ensures n[page][off] == InfoAt(t, i) && t <= n && forall k: nat :: InfoAt(n, k) == InfoAt(t, k)
  {
    var blank := seq(PER_PAGE, _ => BlankInfo());
    n, page, off := t, 0, i;
    if n == [] {
      n := [blank];
    }
    while off >= PER_PAGE
      invariant InfosOk(n) && page < |n| && page * PER_PAGE + off == i
      invariant t <= n && forall k: nat :: InfoAt(n, k) == InfoAt(t, k)
    {
      if page + 1 == |n| {
        n := n + [blank];
      }
      page, off := page + 1, off - PER_PAGE;
    }
    assert i / PER_PAGE == page && i % PER_PAGE == off;
  }

  // va2vregion: the region an address belongs to.
  method Va2Vregion(rs: seq<Region>, va: nat) returns (r: Option<nat>)
    ensures r.Some? ==> r.value < |rs| && Bot(rs[r.value]) <= va < Top(rs[r.value])
    ensures r.None? ==> forall k :: 0 <= k < |rs| ==> !(Bot(rs[k]) <= va < Top(rs[k]))
  {
    var k := 0;
    while k < |rs|
      invariant 0 <= k <= |rs| && forall j :: 0 <= j < k ==> !(Bot(rs[j]) <= va < Top(rs[j]))
    {
      if Bot(rs[k]) <= va < Top(rs[k]) {
        return Some(k);
      }
      k := k + 1;
    }
    return None;
  }

  // ---- vspaceinvalidate ----

  // What a page of a region should translate to.
  function Want(r: Region, t: Infos, p: nat): Entry
    requires RegionOk(r) && InRegion(r, p) && InfosOk(t)
  {
    var v := InfoAt(t, Idx(r, p * PGSIZE));
    if v.present then Present(v.ppn, v.writable) else Absent
  }

  // The pages of r below `lim` translate as their entries say, all others as before.
  ghost predicate Written(a: Pt, b: Pt, root: nat, r: Region, t: Infos, lim: nat) {
    && RegionOk(r) && InfosOk(t) && Tree(a, root) && Tree(b, root)
    && forall p :: 0 <= p < MAX_PAGE ==>
      (Translate(b, root, p) == if InRegion(r, p) && p < lim then Want(r, t, p) else Translate(a, root, p))
  }

  lemma WrittenNone(a: Pt, root: nat, r: Region, t: Infos, lim: nat)
    requires RegionOk(r) && InfosOk(t) && Tree(a, root) && lim * PGSIZE == Bot(r)
    ensures Written(a, a, root, r, t, lim)
  {
  }

  lemma WrittenNext(a: Pt, b: Pt, c: Pt, root: nat, r: Region, t: Infos, p: nat)
    requires Written(a, b, root, r, t, p) && InRegion(r, p) && OneChanged(b, c, root, p, Want(r, t, p))
    ensures Written(a, c, root, r, t, p + 1)
  {
    hide Translate, Tree, TablesOk, Want, InRegion;
    TreeFacts(a, root);
    TreeFacts(b, root);
    TreeFacts(c, root);
  }

  // One page: clear its leaf, then map it if it is present.  mappages never finds the
  // page mapped.
  method Rewrite(pm: PageMap, p: nat, v: Info)
    requires pm.Valid() && p < MAX_PAGE && |pm.pool| >= 3
    modifies pm`tables, pm`pool, pm`tag
    ensures pm.Valid() && |pm.pool| >= |old(pm.pool)| - 3
    ensures OneChanged(old(pm.View()), pm.View(), pm.root, p, if v.present then Present(v.ppn, v.writable) else Absent)
    ensures OneDir(old(pm.View()), pm.View(), p)
  {
    hide Tree, TablesOk, WalkTo, Translate, OneChanged, SameTranslations, SameUpper;
    ghost var v0 := pm.View();
    TreeFacts(v0, pm.root);
    var pte := pm.Walk(p, false);
    if pte.Some? {
      pm.SetLeaf(p, pte.value, Absent);
    } else {
      NoTable(v0, pm.root, p);
    }
    ghost var v1 := pm.View();
    if v.present {
      var o := pm.MapPage(p, v.ppn, v.writable);
      Twice(v0, v1, pm.root, p);
      assert o == Ok;
      ChangedTwice(v0, v1, pm.View(), pm.root, p, Absent, Present(v.ppn, v.writable));
    }
  }

  lemma NoTable(pt: Pt, root: nat, p: nat)
    requires Tree(pt, root) && TablesOk(pt) && root in pt.t && WalkTo(pt, root, p).None?
    ensures OneChanged(pt, pt, root, p, Absent)
  {
  }

  lemma Twice(a: Pt, b: Pt, root: nat, p: nat)
    requires OneChanged(a, b, root, p, Absent) && p < MAX_PAGE
    ensures TablesOk(b) && root in b.t && Translate(b, root, p).Absent?
  {
  }

  lemma ChangedTwice(a: Pt, b: Pt, c: Pt, root: nat, p: nat, x: Entry, y: Entry)
    requires OneChanged(a, b, root, p, x) && OneChanged(b, c, root, p, y)
    ensures OneChanged(a, c, root, p, y)
  {
    hide Translate, Tree, TablesOk;
    TreeFacts(a, root);
    TreeFacts(b, root);
    TreeFacts(c, root);
  }

  // The page directory is for pages outside the region.
  ghost predicate OffRegion(r: Region, n: nat) {
    forall p: nat :: InRegion(r, p) ==> DirTag(p) != Tag(2, n)
  }

  // One region.
  method InvalidateRegion(pm: PageMap, r: Region, t: Infos) returns (n: Infos)
    requires pm.Valid() && RegionOk(r) && InfosOk(t) && |pm.pool| >= 3 * Count(r)
    modifies pm`tables, pm`pool, pm`tag
    ensures pm.Valid() && |pm.pool| >= |old(pm.pool)| - 3 * Count(r)
    ensures InfosOk(n) && forall k: nat :: InfoAt(n, k) == InfoAt(t, k)
    ensures Written(old(pm.View()), pm.View(), pm.root, r, t, MAX_PAGE)
    ensures forall n: nat :: OffRegion(r, n) && Lacks(old(pm.View()), Tag(2, n)) ==> Lacks(pm.View(), Tag(2, n))
  {
    hide Tree, Translate, OneChanged, Written, InfoAt, Lacks;
    var p := Bot(r) / PGSIZE;
    n := t;
    ghost var v0 := pm.View();
    WrittenNone(v0, pm.root, r, t, p);
    while p * PGSIZE < Top(r)
      invariant Bot(r) <= p * PGSIZE && p <= MAX_PAGE && p <= Bot(r) / PGSIZE + Count(r)
      invariant pm.Valid() && |pm.pool| >= |old(pm.pool)| - 3 * (p - Bot(r) / PGSIZE)
      invariant InfosOk(n) && forall k: nat :: InfoAt(n, k) == InfoAt(t, k)
      invariant Written(v0, pm.View(), pm.root, r, t, p)
      invariant forall n: nat :: OffRegion(r, n) && Lacks(v0, Tag(2, n)) ==> Lacks(pm.View(), Tag(2, n))
      decreases Top(r) - p * PGSIZE
    {
      ghost var v1 := pm.View();
      var k, off: nat;
      n, k, off := Va2VpageInfo(n, Idx(r, p * PGSIZE));
      Rewrite(pm, p, n[k][off]);
      WrittenNext(v0, v1, pm.View(), pm.root, r, t, p);
      p := p + 1;
    }
    WrittenAll(v0, pm.View(), pm.root, r, t, p);
  }

  lemma WrittenAll(a: Pt, b: Pt, root: nat, r: Region, t: Infos, lim: nat)
    requires Written(a, b, root, r, t, lim) && lim * PGSIZE >= Top(r)
    ensures Written(a, b, root, r, t, MAX_PAGE)
  {
    hide Translate, Tree, TablesOk, Want;
    TreeFacts(a, root);
    TreeFacts(b, root);
  }

  function TotalPages(rs: seq<Region>): nat {
    if rs == [] then 0 else TotalPages(rs[..|rs| - 1]) + Count(rs[|rs| - 1])
  }

  // Every page of every region translates to exactly what its entry says, every other
  // page as before.
  ghost predicate Agreed(a: Pt, b: Pt, root: nat, rs: seq<Region>, ts: seq<Infos>) {
    && |ts| == |rs| && (forall k :: 0 <= k < |rs| ==>
         RegionOk(rs[k]) && InfosOk(ts[k])) && Tree(a, root) && Tree(b, root)
    && (forall k, p :: 0 <= k < |rs| && 0 <= p < MAX_PAGE && InRegion(rs[k], p) ==>
          Translate(b, root, p) == Want(rs[k], ts[k], p))
    && (forall p :: 0 <= p < MAX_PAGE && (forall k :: 0 <= k < |rs| ==> !InRegion(rs[k], p)) ==>
          Translate(b, root, p) == Translate(a, root, p))
  }

  lemma AgreedNext(a: Pt, b: Pt, c: Pt, root: nat, rs: seq<Region>, ts: seq<Infos>, k: nat)
    requires k < |rs| == |ts| && Disjoint(rs) && Agreed(a, b, root, rs[..k], ts[..k])
    requires Written(b, c, root, rs[k], ts[k], MAX_PAGE)
    ensures Agreed(a, c, root, rs[..k + 1], ts[..k + 1])
  {
    hide Translate, Tree, TablesOk, Want, InRegion;
    TreeFacts(a, root);
    TreeFacts(b, root);
    TreeFacts(c, root);
    var rn, tn := rs[..k + 1], ts[..k + 1];
    forall j, p | 0 <= j < |rn| && 0 <= p < MAX_PAGE && InRegion(rn[j], p)
      ensures Translate(c, root, p) == Want(rn[j], tn[j], p)
    {
      if j < k {
        assert !InRegion(rs[k], p);
        assert rs[..k][j] == rn[j] && ts[..k][j] == tn[j];
      }
    }
    forall p | 0 <= p < MAX_PAGE && (forall j :: 0 <= j < |rn| ==> !InRegion(rn[j], p))
      ensures Translate(c, root, p) == Translate(a, root, p)
    {
      assert !InRegion(rn[k], p);
      forall j | 0 <= j < k ensures !InRegion(rs[..k][j], p) { assert !InRegion(rn[j], p); }
    }
  }

  // vspaceinvalidate
  method Invalidate(pm: PageMap, rs: seq<Region>, ts: seq<Infos>) returns (ns: seq<Infos>)
    requires pm.Valid() && |ts| == |rs| && Disjoint(rs) && |pm.pool| >= 3 * TotalPages(rs)
    requires forall k :: 0 <= k < |rs| ==> RegionOk(rs[k]) && InfosOk(ts[k])
    modifies pm`tables, pm`pool, pm`tag
    ensures pm.Valid() && Agreed(old(pm.View()), pm.View(), pm.root, rs, ts)
    ensures forall n: nat :: (forall k :: 0 <= k < |rs| ==> OffRegion(rs[k], n)) && Lacks(old(pm.View()), Tag(2, n)) ==>
      Lacks(pm.View(), Tag(2, n))
    ensures |ns| == |ts| && forall k :: 0 <= k < |ts| ==>
      InfosOk(ns[k]) && forall i: nat :: InfoAt(ns[k], i) == InfoAt(ts[k], i)
  {
    hide Tree, Translate, Written, InfoAt, Agreed, Disjoint, Count, Lacks, OffRegion;
    ns := [];
    ghost var v0 := pm.View();
    AgreedStart(v0, pm.root);
    assert rs[..0] == [] && ts[..0] == [];
    ghost var total := |pm.pool|;
    for k := 0 to |rs|
      invariant pm.Valid() && |pm.pool| >= total - 3 * TotalPages(rs[..k])
      invariant Agreed(v0, pm.View(), pm.root, rs[..k], ts[..k])
      invariant forall n: nat :: (forall j :: 0 <= j < |rs| ==> OffRegion(rs[j], n)) && Lacks(v0, Tag(2, n)) ==>
        Lacks(pm.View(), Tag(2, n))
      invariant |ns| == k && forall j :: 0 <= j < k ==>
        InfosOk(ns[j]) && forall i: nat :: InfoAt(ns[j], i) == InfoAt(ts[j], i)
    {
      ghost var v1 := pm.View();
      TotalStep(rs, k);
      var n := InvalidateRegion(pm, rs[k], ts[k]);
      AgreedNext(v0, v1, pm.View(), pm.root, rs, ts, k);
      ns := ns + [n];
    }
    assert rs[..|rs|] == rs && ts[..|ts|] == ts;
  }

  lemma AgreedStart(pt: Pt, root: nat)
    requires Tree(pt, root)
    ensures Agreed(pt, pt, root, [], [])
  {
  }

  lemma TotalStep(rs: seq<Region>, k: nat)
    requires k < |rs|
    ensures TotalPages(rs[..k + 1]) == TotalPages(rs[..k]) + Count(rs[k]) <= TotalPages(rs)
  {
    assert rs[..k + 1][..k] == rs[..k];
    TotalMonotone(rs, k + 1);
  }

  lemma {:induction false} TotalMonotone(rs: seq<Region>, k: nat)
    requires k <= |rs|
    ensures TotalPages(rs[..k]) <= TotalPages(rs)
    decreases |rs|
  {
    if k == |rs| {
      assert rs[..k] == rs;
    } else {
      TotalMonotone(rs[..|rs| - 1], k);
      assert rs[..|rs| - 1][..k] == rs[..k];
    }
  }
}
