/**
 The kernel's map of page-table entries against the machine's four-level table: where the
 pages of a process are, and what vspaceinvalidate makes of its entries (kernel/vspace.c).
 */
module UserPages {
  import opened Prelude
  import opened PageTable
  import opened PageHoles
  import opened PageFree
  import opened X86Vm
  import VSpace
  import CowMemory
  import VmKernel

  const STACK_TOP := 0x8000_0000

  type Proc = CowMemory.Proc
  type Slot = CowMemory.Slot

  function Kind(k: nat): CowMemory.RegionKind {
    if k == 0 then CowMemory.Code else if k == 1 then CowMemory.Heap else CowMemory.Stack
  }

  // The code at address 0, the heap, and the stack below 2 GiB.
  function RegionsOf(q: Proc): seq<VSpace.Region> {
    [VSpace.Region(VSpace.Up, 0, q.code), VSpace.Region(VSpace.Up, q.base, q.heap),
     VSpace.Region(VSpace.Down, STACK_TOP, q.stack)]
  }

  // Whole pages, the heap above the code, and a stack.
  predicate Aligned(q: Proc) {
    && q.base % PGSIZE == 0 && q.code % PGSIZE == 0 && q.stack % PGSIZE == 0
    && q.code <= q.base <= STACK_TOP - q.stack && q.stack > 0
  }

  // The regions keep apart exactly while the heap ends below the stack.  sbrk does not
  // look at the stack, so growing the heap that far is up to the program.
  lemma ApartExactly(q: Proc)
    requires Aligned(q)
    ensures VSpace.Disjoint(RegionsOf(q)) <==> q.base + q.heap <= STACK_TOP - q.stack
  {
    var rs := RegionsOf(q);
    if q.base + q.heap > STACK_TOP - q.stack {
      var p := (STACK_TOP - q.stack) / PGSIZE;
      assert VSpace.InRegion(rs[1], p) && VSpace.InRegion(rs[2], p);
    }
  }

  lemma SbrkReachesStack(q: Proc, n: nat)
    requires Aligned(q) && n == STACK_TOP - q.stack + 1 - q.base - q.heap
    ensures VmKernel.Grows(q.base + q.heap, n) && !VSpace.Disjoint(RegionsOf(q.(heap := q.heap + n)))
  {
    ApartExactly(q.(heap := q.heap + n));
  }

  predicate Laid(q: Proc) {
    Aligned(q) && q.base + q.heap <= STACK_TOP - q.stack
  }

  // The page of a slot, and the slot of a page.
  function PageOf(q: Proc, s: Slot): int {
    match s.region
    case Code => s.idx
    case Heap => q.base / PGSIZE + s.idx
    case Stack => STACK_TOP / PGSIZE - 1 - s.idx
  }

  function SlotAt(q: Proc, p: nat): Option<Slot> {
    if p * PGSIZE < q.code then Some(CowMemory.Slot(CowMemory.Code, p))
    else if q.base <= p * PGSIZE < q.base + q.heap then Some(CowMemory.Slot(CowMemory.Heap, p - q.base / PGSIZE))
    else if STACK_TOP - q.stack <= p * PGSIZE < STACK_TOP then
      Some(CowMemory.Slot(CowMemory.Stack, STACK_TOP / PGSIZE - 1 - p))
    else None
  }

  // Every entry has its own page, and no page but those of the entries has a slot.
  lemma SlotsAndPages(q: Proc, s: Slot, p: nat)
    requires Laid(q) && VmKernel.Shaped(q)
    ensures s in q.vpis ==> 0 <= PageOf(q, s) && SlotAt(q, PageOf(q, s)) == Some(s)
    ensures SlotAt(q, p).Some? ==> SlotAt(q, p).value in q.vpis && PageOf(q, SlotAt(q, p).value) == p
  {
    match s.region
    case Code => assert s == CowMemory.Slot(CowMemory.Code, s.idx);
    case Heap => assert s == CowMemory.Slot(CowMemory.Heap, s.idx);
    case Stack => assert s == CowMemory.Slot(CowMemory.Stack, s.idx);
  }

  // The kernel's test of a byte of a page is va2vregion's: some region has its address.
  lemma CoversAddress(q: Proc, s: Slot, off: nat)
    requires Laid(q) && VmKernel.Shaped(q) && s in q.vpis && off < PGSIZE
    ensures VmKernel.Covers(s, off, q.code, q.heap, q.stack) <==>
      exists k :: 0 <= k < 3 && Has(RegionsOf(q)[k], PageOf(q, s) * PGSIZE + off)
  {
    hide VmKernel.Shaped, VmKernel.Covers, Laid, PageOf;
    InItsPages(q, s);
    var rs, va := RegionsOf(q), PageOf(q, s) * PGSIZE + off;
    OneRegion(q, s, off);
    assert Has(rs[0], va) <==> 0 <= va < q.code;
    assert Has(rs[1], va) <==> q.base <= va < q.base + q.heap;
    assert Has(rs[2], va) <==> STACK_TOP - q.stack <= va < STACK_TOP;
  }

  lemma OneRegion(q: Proc, s: Slot, off: nat)
    requires Laid(q) && off < PGSIZE
    requires s.idx * PGSIZE < (if s.region.Code? then q.code else if s.region.Heap? then q.heap else q.stack)
    ensures var va := PageOf(q, s) * PGSIZE + off;
      VmKernel.Covers(s, off, q.code, q.heap, q.stack) <==>
        0 <= va < q.code || q.base <= va < q.base + q.heap || STACK_TOP - q.stack <= va < STACK_TOP
  {
  }

  // The page of an entry begins inside its region.
  lemma InItsPages(q: Proc, s: Slot)
    requires VmKernel.Shaped(q) && s in q.vpis
    ensures s.idx * PGSIZE < (if s.region.Code? then q.code else if s.region.Heap? then q.heap else q.stack)
  {
    match s.region
    case Code => assert s == CowMemory.Slot(CowMemory.Code, s.idx);
    case Heap => assert s == CowMemory.Slot(CowMemory.Heap, s.idx);
    case Stack => assert s == CowMemory.Slot(CowMemory.Stack, s.idx);
  }

  predicate Has(r: VSpace.Region, va: int) {
    VSpace.Bot(r) <= va < VSpace.Top(r)
  }

  // The linked tables hold the process's entries.
  ghost predicate Entered(ts: seq<VSpace.Infos>, q: Proc) {
    && |ts| == 3 && (forall k :: 0 <= k < 3 ==> VSpace.InfosOk(ts[k]))
    && forall k, i: nat :: 0 <= k < 3 ==> VSpace.InfoAt(ts[k], i) == InfoOf(q, CowMemory.Slot(Kind(k), i))
  }

  function InfoOf(q: Proc, s: Slot): VSpace.Info {
    if s in q.vpis then (var v := q.vpis[s]; VSpace.Info(true, v.present, v.writable, v.cow, v.ppn))
    else VSpace.BlankInfo()
  }

  // What the machine's table should say of a page, from the kernel's map.
  function Expected(q: Proc, s: Slot): Entry {
    if s in q.ptes then Present(q.ptes[s].ppn, q.ptes[s].writable) else Absent
  }

  // Region k's page p is the page of the slot that va2vpi_idx names.
  lemma RegionSlot(q: Proc, ts: seq<VSpace.Infos>, k: nat, p: nat)
    requires Laid(q) && VmKernel.ProcOk(q) && Entered(ts, q) && k < 3
    requires VSpace.RegionOk(RegionsOf(q)[k]) && VSpace.InRegion(RegionsOf(q)[k], p)
    ensures SlotAt(q, p) == Some(CowMemory.Slot(Kind(k), VSpace.Idx(RegionsOf(q)[k], p * PGSIZE)))
    ensures VSpace.Want(RegionsOf(q)[k], ts[k], p) == Expected(q, SlotAt(q, p).value)
  {
    var i := VSpace.Idx(RegionsOf(q)[k], p * PGSIZE);
    SlotIs(q, k, p);
    assert VSpace.InfoAt(ts[k], i) == InfoOf(q, CowMemory.Slot(Kind(k), i));
  }

  lemma SlotIs(q: Proc, k: nat, p: nat)
    requires Laid(q) && k < 3 && VSpace.RegionOk(RegionsOf(q)[k]) && VSpace.InRegion(RegionsOf(q)[k], p)
    ensures SlotAt(q, p) == Some(CowMemory.Slot(Kind(k), VSpace.Idx(RegionsOf(q)[k], p * PGSIZE)))
  {
  }

  lemma NoRegion(q: Proc, p: nat)
    requires Laid(q) && SlotAt(q, p).None?
    ensures forall k :: 0 <= k < 3 ==> !VSpace.InRegion(RegionsOf(q)[k], p)
  {
  }

  lemma SomeRegion(q: Proc, p: nat) returns (k: nat)
    requires Laid(q) && SlotAt(q, p).Some?
    ensures k < 3 && VSpace.InRegion(RegionsOf(q)[k], p)
  {
    k := if p * PGSIZE < q.code then 0 else if q.base <= p * PGSIZE < q.base + q.heap then 1 else 2;
  }

  lemma RegionsOk(q: Proc)
    requires Laid(q)
    ensures forall k :: 0 <= k < 3 ==> VSpace.RegionOk(RegionsOf(q)[k])
  {
  }

  // vspaceinvalidate for a process whose entries the kernel's map agrees with: the machine
  // then translates every page of the process to what the map says, and every other page
  // as before.
  method RewriteTable(pm: PageMap, q: Proc, ts: seq<VSpace.Infos>) returns (ns: seq<VSpace.Infos>)
    requires pm.Valid() && Laid(q) && VmKernel.ProcOk(q) && Entered(ts, q)
    requires |pm.pool| >= 3 * VSpace.TotalPages(RegionsOf(q))
    modifies pm`tables, pm`pool, pm`tag
    ensures pm.Valid() && Entered(ns, q) && TablesOk(pm.View()) && pm.root in pm.tables
    ensures forall p :: 0 <= p < MAX_PAGE && SlotAt(q, p).Some? ==>
      Translate(pm.View(), pm.root, p) == Expected(q, SlotAt(q, p).value)
    ensures TablesOk(old(pm.View())) && pm.root in old(pm.tables)
    ensures forall p :: 0 <= p < MAX_PAGE && SlotAt(q, p).None? ==>
      Translate(pm.View(), pm.root, p) == Translate(old(pm.View()), pm.root, p)
    ensures CowMemory.Slot(CowMemory.Stack, 0) in q.ptes && Lacks(old(pm.View()), Tag(2, 3)) ==>
      pm.root in pm.tag && pm.tag[pm.root].level == 4 && Jumpable(pm.View(), pm.root)
  {
    hide Tree, Translate, TablesOk, VSpace.Want, VmKernel.ProcOk, SlotAt, RegionsOf, Laid, Expected, VSpace.InRegion;
    hide VSpace.InfoAt, VSpace.Disjoint;
    hide Lacks, Jumpable, VSpace.OffRegion;
    RegionsOk(q);
    ghost var v0 := pm.View();
    LaidApart(q);
    ns := VSpace.Invalidate(pm, RegionsOf(q), ts);
    TreeFacts(v0, pm.root);
    TreeFacts(pm.View(), pm.root);
    forall p | 0 <= p < MAX_PAGE && SlotAt(q, p).Some?
      ensures Translate(pm.View(), pm.root, p) == Expected(q, SlotAt(q, p).value)
    {
      var k := SomeRegion(q, p);
      RegionSlot(q, ts, k, p);
    }
    forall p | 0 <= p < MAX_PAGE && SlotAt(q, p).None?
      ensures Translate(pm.View(), pm.root, p) == Translate(v0, pm.root, p)
    {
      NoRegion(q, p);
    }
    TopOfStack(q);
    OffSlots(q);
    if CowMemory.Slot(CowMemory.Stack, 0) in q.ptes && Lacks(v0, Tag(2, 3)) { CanJump(pm.View(), pm.root); }
  }

  // The top page of the stack is the last of the second GiB.
  lemma TopOfStack(q: Proc)
    requires Laid(q)
    ensures SlotAt(q, 0x7_FFFF) == Some(CowMemory.Slot(CowMemory.Stack, 0))
    ensures CowMemory.Slot(CowMemory.Stack, 0) in q.ptes ==> Expected(q, CowMemory.Slot(CowMemory.Stack, 0)).Present?
  {
  }

  // No region of a process reaches the fourth GiB.
  lemma OffSlots(q: Proc)
    requires Laid(q)
    ensures forall k :: 0 <= k < |RegionsOf(q)| ==> VSpace.OffRegion(RegionsOf(q)[k], 3)
  {
  }

  // A table that maps that page and has no directory for the fourth GiB.
  lemma CanJump(pt: Pt, root: nat)
    requires Tree(pt, root) && TablesOk(pt) && root in pt.t && Lacks(pt, Tag(2, 3))
    requires Translate(pt, root, 0x7_FFFF).Present?
    ensures root in pt.tag && pt.tag[root].level == 4 && Jumpable(pt, root)
  {
    hide Distinct, Rooted;
    var last := 0xF_FFFF;
    UserIndices(last);
    var c := Child(pt, root, last);
    if c.Some? {
      var d := Child(pt, c.value, last);
      assert TableOk(pt, root) && EntryOk(pt, pt.tag[root], Index(4, last), pt.t[root][Index(4, last)]);
      assert TableOk(pt, c.value) && EntryOk(pt, pt.tag[c.value], Index(3, last), pt.t[c.value][Index(3, last)]);
    }
  }

  // exec and exit: a table set up from a blank root is taken apart again, to the end.
  method BuildAndFree(root: nat, frames: seq<nat>, q: Proc, ts: seq<VSpace.Infos>) returns (pm: PageMap,
                      ghost built: Pt)
    requires NoRepeats(frames) && root !in frames && |frames| >= 3 * VSpace.TotalPages(RegionsOf(q))
    requires Laid(q) && VmKernel.ProcOk(q) && Entered(ts, q) && CowMemory.Slot(CowMemory.Stack, 0) in q.ptes
    ensures TablesOk(built) && root in built.t
    ensures forall p :: 0 <= p < MAX_PAGE ==>
      Translate(built, root, p) == if SlotAt(q, p).Some? then Expected(q, SlotAt(q, p).value) else Absent
    ensures pm.tables == map[] && exists order ::
      && pm.kfreed == Frames(built, root, USER) + order && NoRepeats(order) && forall c :: c in order <==> c in built.t
  {
    hide TablesOk, Translate, Entered, VmKernel.ProcOk, SlotAt, Laid, Expected, Jumpable, Lacks, Frames, Tree;
    pm := new PageMap(root, frames);
    var ns := RewriteTable(pm, q, ts);
    built := pm.View();
    assert pm.kfreed == [];
    pm.Freevm();
  }

  lemma LaidApart(q: Proc)
    requires Laid(q)
    ensures VSpace.Disjoint(RegionsOf(q)) && |RegionsOf(q)| == 3
  {
    ApartExactly(q);
  }
}
