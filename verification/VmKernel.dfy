/**
 The memory operations of kernel/kalloc.c, vspace.c, trap.c and proc.c as methods on
 the kernel's tables.  Eager is the simple model in which fork copies every page.

 Only kalloc's plain path is modelled, so every allocation asks for ten free pages.

 A store the hardware refuses is completed after a fault only if va2vregion finds the
 address inside its region, byte for byte; otherwise the process is killed.
 */
module VmKernel {
  import opened Prelude
  import opened CowMemory

  const KERNBASE := 0xFFFF_FFFF_8000_0000
  const MIN_FREE := 10
  const MAX_STACK := 10 * PGSIZE

  // ---- the simple model ----

  // A process as the simple model has it: its own pages and its region sizes.
  datatype Image = Image(pages: map<Slot, Page>, code: nat, base: nat, heap: nat, stack: nat)

  type Eager = map<nat, Image>

  datatype Op =
    | Spawn(c: nat, prog: seq<nat>, base: nat, tables: nat)
    | Fork(p: nat, c: nat, tables: nat)
    | Store(p: nat, s: Slot, off: nat, b: nat)
    | Sbrk(p: nat, n: int, tables: nat)
    | GrowStack(p: nat, tables: nat)
    | Reap(p: nat)

  // The pages that so many bytes reach into
  function Pages(bytes: nat): (r: nat)
    ensures r * PGSIZE >= bytes && (r > 0 ==> (r - 1) * PGSIZE < bytes)
  {
    (bytes + PGSIZE - 1) / PGSIZE
  }

  // How many pages n more bytes take.
  function MorePagesFor(bytes: nat, n: nat): nat {
    Pages(bytes + n) - Pages(bytes)
  }

  // The pages of a region from index lo up to hi, all zero.
  function ZeroPages(r: RegionKind, lo: nat, hi: nat): map<Slot, Page> {
    map i | lo <= i < hi :: Slot(r, i) := Filled(0)
  }

  // Page i of a program, and the pages of a program from lo up to hi.
  function ProgPage(prog: seq<nat>, i: nat): Page {
    Page(seq(PGSIZE, k requires k >= 0 => if i * PGSIZE + k < |prog| then prog[i * PGSIZE + k] else 0))
  }

  function ProgPages(prog: seq<nat>, lo: nat, hi: nat): map<Slot, Page> {
    map i | lo <= i < hi :: Slot(Code, i) := ProgPage(prog, i)
  }

  // fork copies every page; a store changes one page of one process.
  function EagerStep(e: Eager, op: Op): Eager {
    match op
    case Spawn(c, prog, base, _) =>
      if c in e then e
      else e[c := Image(ProgPages(prog, 0, Pages(|prog|)) + ZeroPages(Stack, 0, 1),
                        Pages(|prog|) * PGSIZE, base, 0, PGSIZE)]
    case Fork(p, c, _) =>
      if p in e && c !in e then e[c := e[p]] else e
    case Store(p, s, off, b) =>
      if p in e && s in e[p].pages then e[p := e[p].(pages := e[p].pages[s := Put(e[p].pages[s], off, b)])] else e
    case Sbrk(p, n, _) =>
      if p in e && Grows(e[p].base + e[p].heap, n) then
        e[p := e[p].(pages := e[p].pages + ZeroPages(Heap, Pages(e[p].heap), Pages(e[p].heap + n)),
                     heap := e[p].heap + n)]
      else e
    case GrowStack(p, _) =>
      if p in e && e[p].stack < MAX_STACK then
        e[p := e[p].(pages := e[p].pages + ZeroPages(Stack, Pages(e[p].stack), Pages(e[p].stack) + 1),
                     stack := e[p].stack + PGSIZE)]
      else e
    case Reap(p) => e - {p}
  }

  function EagerRun(e: Eager, ops: seq<Op>): Eager {
    if ops == [] then e else EagerStep(EagerRun(e, ops[..|ops| - 1]), ops[|ops| - 1])
  }

  // va2vregion's test of the byte at offset off of page s.
  predicate Covers(s: Slot, off: nat, code: nat, heap: nat, stack: nat) {
    off < PGSIZE &&
    match s.region
    case Code => s.idx * PGSIZE + off < code
    case Heap => s.idx * PGSIZE + off < heap
    case Stack => (s.idx + 1) * PGSIZE <= stack + off
  }

  // A store to a byte of its page that is not past the end of the heap.
  predicate Inside(e: Eager, op: Op) {
    op.Store? && op.p in e && op.s in e[op.p].pages ==>
      op.off < PGSIZE && (op.s.region.Heap? ==> op.s.idx * PGSIZE + op.off < e[op.p].heap)
  }

  // sys_sbrk and vregionaddmap accept the request.
  predicate Grows(bound: nat, n: int) {
    n >= 0 && n + bound < KERNBASE
  }

  function PageSlots(r: RegionKind, lo: nat, hi: nat): set<Slot> {
    set i | lo <= i < hi :: Slot(r, i)
  }

  // ---- counting free frames ----

  function Available(core: seq<Cme>): nat {
    if core == [] then 0 else Available(core[..|core| - 1]) + if core[|core| - 1].available then 1 else 0
  }

  lemma {:induction false} AvailableUpdate(core: seq<Cme>, f: nat, c: Cme)
    requires f < |core|
    ensures Available(core[f := c]) ==
      Available(core) + (if c.available then 1 else 0) - (if core[f].available then 1 else 0)
  {
    var n := |core| - 1;
    if f == n {
      assert core[f := c][..n] == core[..n];
    } else {
      AvailableUpdate(core[..n], f, c);
      assert core[f := c][..n] == core[..n][f := c];
    }
  }

  lemma {:induction false} NoneAvailable(core: seq<Cme>)
    requires forall f :: 0 <= f < |core| ==> !core[f].available
    ensures Available(core) == 0
  {
    if core != [] { NoneAvailable(core[..|core| - 1]); }
  }

  // The core map after boot: the frames above the kernel's image are free.
  function BootFrames(npages: nat, start: nat): seq<Cme> {
    seq(npages, f => Cme(Pages(start) <= f, 0))
  }

  lemma {:induction false} BootCount(npages: nat, start: nat)
    ensures Available(BootFrames(npages, start)) == if npages <= Pages(start) then 0 else npages - Pages(start)
  {
    var b := BootFrames(npages, start);
    if npages > 0 {
      BootCount(npages - 1, start);
      assert b[..npages - 1] == BootFrames(npages - 1, start);
    }
  }

  // A frame that was free at boot is available exactly when nothing counts on it; the
  // others are never used.
  ghost predicate Accounted(core: seq<Cme>, boot: seq<Cme>) {
    && |core| == |boot|
    && forall f :: 0 <= f < |core| ==>
      (core[f].available <==>
         core[f].refCount == 0 && boot[f].available) && (core[f].refCount > 0 ==> boot[f].available)
  }

  lemma CoreUpdate(core: seq<Cme>, boot: seq<Cme>, f: nat, c: Cme)
    requires Accounted(core, boot) && f < |core| && (core[f].available || core[f].refCount > 0)
    requires c.available <==> c.refCount == 0
    ensures Accounted(core[f := c], boot)
    ensures Available(core[f := c]) ==
      Available(core) + (if c.available then 1 else 0) - (if core[f].available then 1 else 0)
  {
    AvailableUpdate(core, f, c);
  }

  // ---- the layout of a process ----

  // The regions have exactly the pages their sizes call for.
  ghost predicate Shaped(q: Proc) {
    && (forall i: nat :: Slot(Code, i) in q.vpis <==> i < Pages(q.code))
    && (forall i: nat :: Slot(Heap, i) in q.vpis <==> i < Pages(q.heap))
    && (forall i: nat :: Slot(Stack, i) in q.vpis <==> i < Pages(q.stack))
    && q.stack % PGSIZE == 0 && q.code % PGSIZE == 0
  }

  // ... and the machine page table says what the entries say.
  ghost predicate ProcOk(q: Proc) {
    Shaped(q) && Agrees(q)
  }

  ghost predicate AllOk(procs: map<nat, Proc>) {
    forall p :: p in procs ==> ProcOk(procs[p])
  }

  // What the processes of a state see.
  ghost function Images(vm: Vm): Eager {
    map p | p in vm.procs :: ImageOf(vm, p)
  }

  ghost function ImageOf(vm: Vm, p: nat): Image
    requires p in vm.procs
  {
    ImageWith(vm.procs[p], View(vm, p))
  }

  function ImageWith(q: Proc, x: map<Slot, Page>): Image {
    Image(x, q.code, q.base, q.heap, q.stack)
  }

  predicate SameSizes(q: Proc, r: Proc) {
    q.code == r.code && q.base == r.base && q.heap == r.heap && q.stack == r.stack
  }

  ghost predicate SizesSame(a: map<nat, Proc>, b: map<nat, Proc>, p: nat) {
    forall q :: q in a && q != p ==> q in b && SameSizes(a[q], b[q])
  }

  // A change of one process's view and sizes is a change of one image.
  lemma ImagesChange(vm: Vm, n: Vm, p: nat, x: map<Slot, Page>)
    requires p in n.procs && Views(n) == Views(vm)[p := x] && SizesSame(vm.procs, n.procs, p)
    ensures Images(n) == Images(vm)[p := ImageWith(n.procs[p], x)]
  {
    hide View;
    assert Views(n).Keys == n.procs.Keys && Views(vm).Keys == vm.procs.Keys;
    assert Views(n)[p] == x;
    forall q | q in vm.procs && q != p ensures View(n, q) == View(vm, q) {
      assert Views(n)[q] == Views(vm)[q];
    }
  }

  lemma ImagesSame(vm: Vm, n: Vm)
    requires Views(n) == Views(vm) && n.procs.Keys == vm.procs.Keys
    requires forall p :: p in vm.procs ==> SameSizes(n.procs[p], vm.procs[p])
    ensures Images(n) == Images(vm)
  {
    hide View;
    forall q | q in vm.procs ensures ImageOf(n, q) == ImageOf(vm, q) {
      assert Views(n)[q] == Views(vm)[q];
    }
  }

  // From a to b only p has changed: its entries at `more` are new, and writable.
  ghost predicate EntriesAdded(a: map<nat, Proc>, b: map<nat, Proc>, p: nat, more: set<Slot>) {
    && p in a && p in b
    && b == a[p := a[p].(vpis := b[p].vpis)]
    && b[p].vpis.Keys == a[p].vpis.Keys + more
    && (forall s :: s in more ==> b[p].vpis[s].writable)
    && forall s :: s in a[p].vpis && s !in more ==> b[p].vpis[s] == a[p].vpis[s]
  }

  lemma AddedTwice(a: map<nat, Proc>, b: map<nat, Proc>, c: map<nat, Proc>, p: nat, r: RegionKind, lo: nat, i: nat)
    requires lo <= i && EntriesAdded(a, b, p, PageSlots(r, lo, i)) && EntriesAdded(b, c, p, {Slot(r, i)})
    ensures EntriesAdded(a, c, p, PageSlots(r, lo, i + 1))
  {
    assert PageSlots(r, lo, i + 1) == PageSlots(r, lo, i) + {Slot(r, i)};
  }

  lemma NextSlot(a: map<nat, Proc>, b: map<nat, Proc>, p: nat, r: RegionKind, lo: nat, i: nat, hi: nat)
    requires lo <= i < hi && EntriesAdded(a, b, p, PageSlots(r, lo, i)) && PageSlots(r, lo, hi) !! a[p].vpis.Keys
    ensures p in b && Slot(r, i) !in b[p].vpis
  {
    assert Slot(r, i) in PageSlots(r, lo, hi);
  }

  class Kernel {
    const core: array<Cme>
    var mem: map<nat, Page>
    var procs: map<nat, Proc>
    var freePages: int
    var pagesInUse: int
    ghost const boot: seq<Cme>

    ghost function Vm(): Vm
      reads this, core
    {
      CowMemory.Vm.Vm(core[..], mem, procs)
    }

    // free_pages is the number of available frames, and no page is ever lost.
    ghost predicate Counted()
      reads this, core
    {
      Accounted(core[..], boot) && freePages == Available(core[..]) && freePages + pagesInUse == Available(boot)
    }

    ghost predicate Valid()
      reads this, core
    {
      Counted() && Inv(Vm()) && AllOk(procs)
    }

    // mem_init, with the core map ending at physical address `start`: freerange frees the
    // whole pages above it, and free_pages is set from the addresses.
    constructor (npages: nat, start: nat)
      requires start <= npages * PGSIZE
      ensures Valid() && boot == BootFrames(npages, start) && core[..] == boot && fresh(core)
      ensures procs == map[] && pagesInUse == 0 && freePages == npages - Pages(start)
    {
      core := new Cme[npages](_ => Cme(false, 0));
      mem, procs := map[], map[];
      boot := BootFrames(npages, start);
      freePages, pagesInUse := 0, 0;
      new;
      var vend := npages * PGSIZE;
      var p := Pages(start) * PGSIZE;
      while p + PGSIZE <= vend
        invariant p % PGSIZE == 0 && Pages(start) <= p / PGSIZE <= npages && procs == map[]
        invariant forall f :: 0 <= f < npages ==> core[f] == Cme(Pages(start) <= f < p / PGSIZE, 0)
      {
        pagesInUse := pagesInUse - 1;
        freePages := freePages + 1;
        mem := mem[p / PGSIZE := Filled(2)];
        core[p / PGSIZE] := Cme(true, 0);
        p := p + PGSIZE;
      }
      freePages := (vend - start) / PGSIZE;
      pagesInUse := 0;
      assert core[..] == boot;
      BootCount(npages, start);
      forall f | 0 <= f < npages ensures FrameOk(Vm(), f) {
        assert Maps(procs, f) == {} && Owners(procs, f) == {};
      }
    }

    // kalloc, the plain path: the first available frame.
    method Kalloc() returns (f: nat)
      requires Counted() && freePages >= MIN_FREE
      modifies this`freePages, this`pagesInUse, core
      ensures Counted() && freePages == old(freePages) - 1
      ensures f < core.Length && old(core[f].available) && core[..] == Taken(old(core[..]), f)
      ensures forall g :: 0 <= g < f ==> !old(core[g].available)
    {
      f := 0;
      while f < core.Length
        invariant 0 <= f <= core.Length
        invariant forall g :: 0 <= g < f ==> !core[g].available
        invariant Counted() && freePages == old(freePages) && core[..] == old(core[..])
      {
        if core[f].available {
          CoreUpdate(core[..], boot, f, Cme(false, 1));
          core[f] := Cme(false, 1);
          pagesInUse := pagesInUse + 1;
          freePages := freePages - 1;
          assert core[..] == old(core[..])[f := Cme(false, 1)];
          return;
        }
        f := f + 1;
      }
      NoneAvailable(core[..]);
      assert false;
    }

    // kfree, of a page in use
    method Kfree(f: nat)
      requires Counted() && f < core.Length && !core[f].available && core[f].refCount > 0
      modifies this`mem, this`freePages, this`pagesInUse, core
      ensures Counted() && freePages >= old(freePages)
      ensures core[..] == Dropped(old(core[..]), f) && mem == Scrubbed(old(Vm()), f)
    {
      if core[f].refCount <= 1 {
        CoreUpdate(core[..], boot, f, Cme(true, 0));
        pagesInUse := pagesInUse - 1;
        freePages := freePages + 1;
        mem := mem[f := Filled(2)];
        core[f] := Cme(true, 0);
        assert core[..] == old(core[..])[f := Cme(true, 0)];
      } else {
        CoreUpdate(core[..], boot, f, core[f].(refCount := core[f].refCount - 1));
        core[f] := core[f].(refCount := core[f].refCount - 1);
        assert core[..] == old(core[..])[f := old(core[f]).(refCount := old(core[f]).refCount - 1)];
      }
    }

    // One page of vregionaddmap.
    method AddPage(p: nat, s: Slot)
      requires Counted() && Inv(Vm()) && freePages >= MIN_FREE
      requires p in procs && s !in procs[p].vpis
      modifies this`mem, this`procs, this`freePages, this`pagesInUse, core
      ensures Counted() && Inv(Vm()) && freePages == old(freePages) - 1
      ensures EntriesAdded(old(procs), procs, p, {s})
      ensures Views(Vm()) == Views(old(Vm()))[p := View(old(Vm()), p)[s := Filled(0)]]
    {
      hide Inv, Views, View, Available, Accounted;
      ghost var vm := Vm();
      var f := Kalloc();
      mem := mem[f := Filled(0)];
      procs := procs[p := procs[p].(vpis := procs[p].vpis[s := Vpi(true, true, false, f)])];
      assert Vm() == MapNew(vm, p, s, f, Filled(0));
      MapNewKeeps(vm, p, s, f, Filled(0));
      MapNewViews(vm, p, s, f, Filled(0));
    }

    // vregionaddmap over pages lo..hi of a region.
    method AddMap(p: nat, r: RegionKind, lo: nat, hi: nat)
      requires Counted() && Inv(Vm()) && lo <= hi && freePages >= MIN_FREE + (hi - lo)
      requires p in procs && PageSlots(r, lo, hi) !! procs[p].vpis.Keys
      modifies this`mem, this`procs, this`freePages, this`pagesInUse, core
      ensures Counted() && Inv(Vm()) && freePages == old(freePages) - (hi - lo)
      ensures EntriesAdded(old(procs), procs, p, PageSlots(r, lo, hi))
      ensures Views(Vm()) == Views(old(Vm()))[p := View(old(Vm()), p) + ZeroPages(r, lo, hi)]
    {
      hide Inv, Views, View, Available, Accounted, ZeroPages, PageSlots, EntriesAdded;
      ghost var vm := Vm();
      var i := lo;
      NoPages(vm, p, r, lo);
      while i < hi
        invariant lo <= i <= hi
        invariant Counted() && Inv(Vm()) && freePages == old(freePages) - (i - lo)
        invariant EntriesAdded(old(procs), procs, p, PageSlots(r, lo, i))
        invariant Views(Vm()) == Views(vm)[p := View(vm, p) + ZeroPages(r, lo, i)]
      {
        ghost var before := Vm();
        NextSlot(old(procs), procs, p, r, lo, i, hi);
        AddPage(p, Slot(r, i));
        AddedTwice(old(procs), before.procs, procs, p, r, lo, i);
        ViewsHas(before, p);
        ViewsHas(vm, p);
        MorePages(View(vm, p), r, lo, i);
        i := i + 1;
      }
    }

    // Kernel pages for p: its stack, its page-table pages, its vpi pages.
    method GrabTables(p: nat, n: nat)
      requires Counted() && Inv(Vm()) && freePages >= MIN_FREE + n && p in procs
      modifies this`procs, this`freePages, this`pagesInUse, core
      ensures Counted() && Inv(Vm()) && freePages == old(freePages) - n
      ensures p in procs && procs == old(procs)[p := old(procs[p]).(kframes := procs[p].kframes)]
      ensures Views(Vm()) == Views(old(Vm()))
    {
      hide Inv, Views, View, Available, Accounted;
      var i := 0;
      while i < n
        invariant 0 <= i <= n
        invariant Counted() && Inv(Vm()) && freePages == old(freePages) - i
        invariant p in procs && procs == old(procs)[p := old(procs[p]).(kframes := procs[p].kframes)]
        invariant Views(Vm()) == Views(old(Vm())) && mem == old(mem)
      {
        ghost var vm := Vm();
        var f := Kalloc();
        procs := procs[p := procs[p].(kframes := procs[p].kframes + {f})];
        assert Vm() == Grab(vm, p, f);
        GrabKeeps(vm, p, f);
        GrabViews(vm, p, f);
        i := i + 1;
      }
    }

    // vspaceinvalidate: rewrite the page table from the entries.
    method Invalidate(p: nat)
      requires p in procs && procs[p].ptes.Keys <= procs[p].vpis.Keys
      modifies this`procs
      ensures procs == old(procs)[p := old(procs[p]).(ptes := Translated(old(procs[p]).vpis))]
    {
      var vpis, ptes := procs[p].vpis, procs[p].ptes;
      var todo := vpis.Keys;
      while todo != {}
        invariant todo <= vpis.Keys && ptes.Keys <= vpis.Keys
        invariant forall s :: s in vpis && s !in todo ==>
          (s in ptes <==> vpis[s].present) && (s in ptes ==> ptes[s] == Pte(vpis[s].ppn, vpis[s].writable))
      {
        var s :| s in todo;
        ptes := ptes - {s};
        if vpis[s].present { ptes := ptes[s := Pte(vpis[s].ppn, vpis[s].writable)]; }
        todo := todo - {s};
      }
      assert ptes == Translated(vpis);
      procs := procs[p := procs[p].(ptes := ptes)];
    }

    // fork: vspaceshallowcopy shares every page, then both page tables are rewritten.
    method DoFork(p: nat, c: nat, tables: nat)
      requires Valid() && freePages >= MIN_FREE + tables && p in procs && c !in procs
      modifies this`procs, this`freePages, this`pagesInUse, core
      ensures Valid() && freePages == old(freePages) - tables && p in procs
      ensures SameSizes(procs[p], old(procs[p])) && procs[p].vpis.Keys == old(procs[p]).vpis.Keys
      ensures forall s :: s in procs[p].vpis ==> !procs[p].vpis[s].writable
      ensures Images(Vm()) == EagerStep(old(Images(Vm())), Fork(p, c, tables))
    {
      hide Inv, Views, View, Available, Accounted, ProcOk, Translated, Images, ImageOf, EntriesShared, Forked;
      ghost var vm := Vm();
      var q := Proc(map[], map[], {}, procs[p].code, procs[p].base, procs[p].heap, procs[p].stack);
      NewChild(vm, c, q);
      procs := procs[c := q];
      GrabTables(c, tables);
      ghost var k := procs[c].kframes;
      assert procs == vm.procs[c := q.(kframes := k)];
      ShareAll(p, c);
      ghost var mid := Vm();
      PtesBelow(vm.procs[p]);
      IsForked(vm.procs, q, k, procs, p, c);
      Invalidate(c);
      Invalidate(p);
      ViewsHas(vm, p);
      AfterFork(vm, mid, Vm(), p, c);
      ImagesHas(vm, p);
    }

    // shallow_copy_vpi_page over every used entry
    method ShareAll(p: nat, c: nat)
      requires Counted() && Inv(Vm()) && p in procs && c in procs && p != c && procs[c].vpis == map[]
      modifies this`procs, core
      ensures Counted() && Inv(Vm())
      ensures EntriesShared(old(procs), procs, p, c, {})
      ensures p in Views(old(Vm())) && Views(Vm()) == Views(old(Vm()))[c := Views(old(Vm()))[p]]
    {
      hide Inv, Views, View, Available, Accounted, EntriesShared;
      ghost var vm := Vm();
      var todo := procs[p].vpis.Keys;
      BeforeSharing(vm, p, c);
      while todo != {}
        invariant Counted() && Inv(Vm()) && mem == vm.mem
        invariant EntriesShared(vm.procs, procs, p, c, todo)
        invariant Views(Vm()) == Views(vm)[c := Views(vm)[p] - todo]
      {
        ghost var before := Vm();
        var s :| s in todo;
        StillToShare(vm.procs, procs, p, c, todo, s);
        ShareKeeps(before, p, c, s);
        ShareViews(before, p, c, s);
        var v := procs[p].vpis[s].(cow := true, writable := false);
        EntryFacts(before, p, s);
        CoreUpdate(core[..], boot, v.ppn, core[v.ppn].(refCount := core[v.ppn].refCount + 1));
        core[v.ppn] := core[v.ppn].(refCount := core[v.ppn].refCount + 1);
        procs := SetEntry(SetEntry(procs, p, s, v), c, s, v);
        assert Vm() == Share(before, p, c, s);
        SharedOne(vm, before, p, c, todo, s);
        todo := todo - {s};
      }
      assert Views(vm)[p] - {} == Views(vm)[p];
    }

    // The copy-on-write branches of the page-fault handler, for byte off of page s.
    method Fault(p: nat, s: Slot, off: nat) returns (handled: bool)
      requires Valid() && freePages >= MIN_FREE && p in procs
      modifies this`mem, this`procs, this`freePages, this`pagesInUse, core
      ensures Valid() && procs.Keys == old(procs).Keys && procs[p].vpis.Keys == old(procs[p]).vpis.Keys
      ensures Images(Vm()) == old(Images(Vm()))
      ensures handled <==> s in old(procs[p]).vpis && !old(procs[p]).vpis[s].writable && old(Found(p, s, off))
      ensures handled ==> procs[p].vpis[s].writable
      ensures off < PGSIZE && s in old(procs[p]).vpis && !old(procs[p]).vpis[s].writable ==>
        (handled <==> s.region.Heap? ==> s.idx * PGSIZE + off < old(procs[p]).heap)
    {
      hide Inv, Views, View, Available, Accounted, ProcOk, Translated, Images, ImageOf, Covers;
      CoversExactly(procs[p], s, off);
      if !Found(p, s, off) {
        return false;
      }
      ghost var vm := Vm();
      FoundEntry(procs[p], s, off);
      var v := procs[p].vpis[s];
      EntryFacts(vm, p, s);
      if core[v.ppn].refCount > 1 && !v.writable && v.cow {
        CopyPage(p, s);
      } else if core[v.ppn].refCount == 1 && !v.writable && v.cow {
        ReclaimFaultKeeps(vm, p, s);
        ReclaimFaultViews(vm, p, s);
        procs := SetEntry(procs, p, s, v.(writable := true, cow := false));
        assert Vm() == ReclaimFault(vm, p, s);
      } else {
        return false;
      }
      ghost var mid := Vm();
      PtesBelow(vm.procs[p]);
      Invalidate(p);
      AfterChange(vm, mid, Vm(), p);
      return true;
    }

    // va2vregion finds a region for the byte.
    predicate Found(p: nat, s: Slot, off: nat)
      requires p in procs
      reads this
    {
      Covers(s, off, procs[p].code, procs[p].heap, procs[p].stack)
    }

    method CopyPage(p: nat, s: Slot)
      requires Counted() && Inv(Vm()) && freePages >= MIN_FREE && p in procs && s in procs[p].vpis
      requires procs[p].vpis[s].ppn < core.Length && core[procs[p].vpis[s].ppn].refCount > 1
      modifies this`mem, this`procs, this`freePages, this`pagesInUse, core
      ensures Counted() && Inv(Vm()) && Views(Vm()) == Views(old(Vm()))
      ensures p in procs && s in procs[p].vpis && procs[p].vpis[s].writable
      ensures procs == SetEntry(old(procs), p, s, procs[p].vpis[s])
    {
      hide Inv, Views, View, Available, Accounted;
      ghost var vm := Vm();
      var f := procs[p].vpis[s].ppn;
      EntryFacts(vm, p, s);
      var g := Kalloc();
      CopyFaultKeeps(vm, p, s, g);
      CopyFaultViews(vm, p, s, g);
      mem := mem[g := mem[f]];
      procs := SetEntry(procs, p, s, Vpi(true, true, false, g));
      CoreUpdate(core[..], boot, f, core[f].(refCount := core[f].refCount - 1));
      core[f] := core[f].(refCount := core[f].refCount - 1);
      assert Vm() == CopyFault(vm, p, s, g);
    }

    // A user store: the hardware uses the page table and faults when it may not write.
    // A store that is not completed kills the process.  A store with a page to go to,
    // which eager copying would complete, is completed exactly when the page's entry is
    // writable or the byte lies inside its region: every byte of a page of the code or the
    // stack does, and every byte of the heap before its end.
    method StoreByte(p: nat, s: Slot, off: nat, b: nat) returns (ok: bool)
      requires Valid() && freePages >= MIN_FREE && p in procs
      modifies this`mem, this`procs, this`freePages, this`pagesInUse, core
      ensures Valid() && procs.Keys == old(procs).Keys && procs[p].vpis.Keys == old(procs[p]).vpis.Keys
      ensures ok <==> s in old(procs[p]).vpis && (old(procs[p]).vpis[s].writable || old(Found(p, s, off)))
      ensures off < PGSIZE && s in old(procs[p]).vpis ==>
        (ok <==> old(procs[p]).vpis[s].writable || (s.region.Heap? ==> s.idx * PGSIZE + off < old(procs[p]).heap))
      ensures ok ==> Images(Vm()) == EagerStep(old(Images(Vm())), Store(p, s, off, b))
      ensures !ok ==> Images(Vm()) == old(Images(Vm()))
    {
      hide Inv, Views, View, Available, Accounted, ProcOk, Translated, Images, ImageOf, Covers;
      ghost var e := Images(Vm());
      PteOf(Vm(), p, s);
      ImagesHas(Vm(), p);
      if !(s in procs[p].ptes && procs[p].ptes[s].writable) {
        var handled := Fault(p, s, off);
        if !handled {
          return false;
        }
      }
      ghost var vm := Vm();
      ImagesHas(vm, p);
      PteOf(vm, p, s);
      var f := procs[p].ptes[s].ppn;
      EntryFacts(vm, p, s);
      ghost var page := Put(mem[f], off, b);
      StoreViews(vm, p, s, page);
      mem := mem[f := Put(mem[f], off, b)];
      ImagesChange(vm, Vm(), p, View(vm, p)[s := page]);
      return true;
    }

    // The store has a page to go to but the code does not complete it.
    predicate Refused(op: Op)
      reads this
    {
      && op.Store? && op.p in procs && op.s in procs[op.p].vpis
      && !procs[op.p].vpis[op.s].writable && !Found(op.p, op.s, op.off)
    }

    // sbrk(1), fork, then a store to any other byte of the new page: eager copying would
    // complete it, and the process is killed instead.
    method StoreBeyondBreak(p: nat, c: nat, tables: nat, off: nat, b: nat) returns (ok: bool)
      requires Valid() && p in procs && c !in procs && procs[p].heap % PGSIZE == 0 && 1 <= off < PGSIZE
      requires Grows(procs[p].base + procs[p].heap, 1) && freePages >= MIN_FREE + 2 * tables + 1
      modifies this`mem, this`procs, this`freePages, this`pagesInUse, core
      ensures !ok && Valid() && p in Images(Vm()) && Slot(Heap, old(procs[p].heap) / PGSIZE) in Images(Vm())[p].pages
    {
      hide Inv, View, Available, Accounted, Images, ProcOk, EagerStep, Covers, Pages;
      var s := Slot(Heap, procs[p].heap / PGSIZE);
      ghost var heap := procs[p].heap;
      OneMoreByte(heap);
      ImagesKeys(Vm());
      var bound := DoSbrk(p, 1, tables);
      assert c !in procs && freePages >= MIN_FREE + tables;
      DoFork(p, c, tables);
      JustPastBreak(procs[p], heap, off);
      ok := StoreByte(p, s, off, b);
      PagesOf(Vm(), p, s);
    }

    // sys_sbrk and sbrk
    method DoSbrk(p: nat, n: int, tables: nat) returns (r: int)
      requires Valid() && p in procs
      requires Grows(procs[p].base + procs[p].heap, n) ==>
        freePages >= MIN_FREE + tables + MorePagesFor(procs[p].heap, n)
      modifies this`mem, this`procs, this`freePages, this`pagesInUse, core
      ensures Valid() && Images(Vm()) == EagerStep(old(Images(Vm())), Sbrk(p, n, tables))
      ensures r == if Grows(old(procs[p].base + procs[p].heap), n) then old(procs[p].base + procs[p].heap) else -1
      ensures procs.Keys == old(procs).Keys && (r != -1 ==> procs[p].heap == old(procs[p].heap) + n)
      ensures r != -1 ==> freePages == old(freePages) - tables - MorePagesFor(old(procs[p].heap), n)
    {
      hide Inv, Views, View, Available, Accounted, ProcOk, Translated, Images, ImageOf, Pages, EntriesAdded, PageSlots;
      ghost var vm := Vm();
      ImagesHas(vm, p);
      var heap, bound := procs[p].heap, procs[p].base + procs[p].heap;
      if n < 0 || n + bound >= KERNBASE {
        return -1;
      }
      PagesGrow(heap, n);
      GrabTables(p, tables);
      ghost var grabbed := Vm();
      NewSlots(vm.procs[p], Heap, Pages(heap), Pages(heap + n));
      AddMap(p, Heap, Pages(heap), Pages(heap + n));
      ghost var mid := Vm();
      AddedBelow(vm.procs, grabbed.procs, procs, p, Heap, Pages(heap), Pages(heap + n));
      procs := procs[p := procs[p].(heap := heap + n)];
      Invalidate(p);
      ViewsHas(vm, p);
      ViewsHas(grabbed, p);
      GrownHeap(vm.procs[p], procs[p], n);
      AfterGrow(vm, mid, Vm(), p, View(vm, p) + ZeroPages(Heap, Pages(heap), Pages(heap + n)));
      return bound;
    }

    // growustack
    method DoGrowStack(p: nat, tables: nat) returns (ok: bool)
      requires Valid() && p in procs && (procs[p].stack < MAX_STACK ==> freePages >= MIN_FREE + tables + 1)
      modifies this`mem, this`procs, this`freePages, this`pagesInUse, core
      ensures Valid() && Images(Vm()) == EagerStep(old(Images(Vm())), GrowStack(p, tables))
      ensures ok <==> old(procs[p]).stack < MAX_STACK
    {
      hide Inv, Views, View, Available, Accounted, ProcOk, Translated, Images, ImageOf, Pages, EntriesAdded, PageSlots;
      ghost var vm := Vm();
      ImagesHas(vm, p);
      var stack := procs[p].stack;
      if stack >= MAX_STACK {
        return false;
      }
      GrabTables(p, tables);
      ghost var grabbed := Vm();
      NewSlots(vm.procs[p], Stack, Pages(stack), Pages(stack) + 1);
      AddMap(p, Stack, Pages(stack), Pages(stack) + 1);
      ghost var mid := Vm();
      AddedBelow(vm.procs, grabbed.procs, procs, p, Stack, Pages(stack), Pages(stack) + 1);
      procs := procs[p := procs[p].(stack := stack + PGSIZE)];
      Invalidate(p);
      ViewsHas(vm, p);
      ViewsHas(grabbed, p);
      GrownStack(vm.procs[p], procs[p]);
      AfterGrow(vm, mid, Vm(), p, View(vm, p) + ZeroPages(Stack, Pages(stack), Pages(stack) + 1));
      return true;
    }

    // userinit: a first process with its program in the code region, a heap of size zero
    // at `base` and one stack page.
    method DoSpawn(c: nat, prog: seq<nat>, base: nat, tables: nat)
      requires Valid() && c !in procs && freePages >= MIN_FREE + tables + Pages(|prog|) + 1
      modifies this`mem, this`procs, this`freePages, this`pagesInUse, core
      ensures Valid() && Images(Vm()) == EagerStep(old(Images(Vm())), Spawn(c, prog, base, tables))
    {
      hide Inv, View, Available, Accounted, AllOk, Images, ZeroPages, ProgPages, Pages;
      ImagesKeys(Vm());
      SpawnCode(c, prog, base, tables);
      ImagesHas(Vm(), c);
      assert Pages(0) == 0 by { NoBytes(); }
      var _ := DoGrowStack(c, 0);
    }

    method SpawnCode(c: nat, prog: seq<nat>, base: nat, tables: nat)
      requires Valid() && c !in procs && freePages >= MIN_FREE + tables + Pages(|prog|)
      modifies this`mem, this`procs, this`freePages, this`pagesInUse, core
      ensures Valid() && freePages == old(freePages) - tables - Pages(|prog|)
      ensures c in procs && procs[c].base == base && procs[c].heap == 0 && procs[c].stack == 0
      ensures Images(Vm()) ==
        old(Images(Vm()))[c := Image(ProgPages(prog, 0, Pages(|prog|)), Pages(|prog|) * PGSIZE, base, 0, 0)]
    {
      hide Inv, Views, View, Available, Accounted, ProcOk, Translated, Images, ImageOf, EntriesAdded, PageSlots;
      hide ProgPages, Pages;
      ghost var vm := Vm();
      NewProc(c, Proc(map[], map[], {}, 0, base, 0, 0), tables);
      ghost var grabbed := Vm();
      LoadProg(c, prog);
      ghost var mid := Vm();
      AddedPtes(grabbed.procs, mid.procs, c, Code, 0, Pages(|prog|));
      procs := procs[c := procs[c].(code := Pages(|prog|) * PGSIZE)];
      Invalidate(c);
      CodeOk(procs[c], |prog|);
      AfterSpawn(vm, mid, Vm(), c, ProgPages(prog, 0, Pages(|prog|)));
    }

    // A process with no user memory yet.
    method NewProc(c: nat, q: Proc, tables: nat)
      requires Valid() && c !in procs && freePages >= MIN_FREE + tables && q.vpis == map[] && q.kframes == {}
      modifies this`procs, this`freePages, this`pagesInUse, core
      ensures Counted() && Inv(Vm()) && freePages == old(freePages) - tables
      ensures c in procs && procs == old(procs)[c := q.(kframes := procs[c].kframes)]
      ensures Views(Vm()) == Views(old(Vm()))[c := map[]]
    {
      hide Inv, Views, View, Available, Accounted, AllOk;
      NewChild(Vm(), c, q);
      procs := procs[c := q];
      GrabTables(c, tables);
    }

    // vradddata: blank pages, then the program's bytes page by page.
    method LoadProg(c: nat, prog: seq<nat>)
      requires Counted() && Inv(Vm()) && c in procs && procs[c].vpis == map[] && freePages >= MIN_FREE + Pages(|prog|)
      modifies this`mem, this`procs, this`freePages, this`pagesInUse, core
      ensures Counted() && Inv(Vm()) && freePages == old(freePages) - Pages(|prog|)
      ensures EntriesAdded(old(procs), procs, c, PageSlots(Code, 0, Pages(|prog|)))
      ensures Views(Vm()) == Views(old(Vm()))[c := ProgPages(prog, 0, Pages(|prog|))]
    {
      hide Inv, Views, View, Available, Accounted, EntriesAdded, PageSlots, ProgPages, ZeroPages, Pages;
      ghost var vm := Vm();
      var n := Pages(|prog|);
      AddMap(c, Code, 0, n);
      ghost var added := procs;
      NothingLoaded(vm, c, prog, n);
      var i := 0;
      while i < n
        invariant 0 <= i <= n && Counted() && Inv(Vm()) && procs == added && freePages == old(freePages) - n
        invariant Views(Vm()) == Views(vm)[c := ZeroPages(Code, 0, n) + ProgPages(prog, 0, i)]
      {
        ghost var before := Vm();
        AddedSlot(vm.procs, procs, c, n, i);
        EntryFacts(before, c, Slot(Code, i));
        var f := procs[c].vpis[Slot(Code, i)].ppn;
        PageBytes(prog, i);
        var m := Min(|prog| - i * PGSIZE, PGSIZE);
        var chunk := prog[i * PGSIZE..i * PGSIZE + m];
        ViewsHas(before, c);
        StoreViews(before, c, Slot(Code, i), ProgPage(prog, i));
        StillBlank(prog, n, i);
        assert mem[f] == Filled(0);
        LoadedPage(prog, i, m);
        mem := mem[f := Page(chunk + mem[f].bytes[m..])];
        MoreLoaded(prog, n, i);
        i := i + 1;
      }
      AllLoaded(prog, n);
    }

    // process_zombie_child and vspacefree: every page of p goes back.
    method DoReap(p: nat)
      requires Valid() && p in procs
      modifies this`mem, this`procs, this`freePages, this`pagesInUse, core
      ensures Valid() && procs == old(procs) - {p} && freePages >= old(freePages)
      ensures Images(Vm()) == EagerStep(old(Images(Vm())), Reap(p))
    {
      hide Inv, Views, View, Available, Accounted, ProcOk, Translated, Images, ImageOf;
      ghost var vm := Vm();
      PteKeys(vm, p);
      FreeLeaves(p);
      FreeTables(p);
      ghost var mid := Vm();
      procs := procs - {p};
      assert mid.procs == procs[p := mid.procs[p]];
      Removed(vm, mid, Vm(), p);
    }

    // deallocuvm: kfree the frame of every mapped page.
    method FreeLeaves(p: nat)
      requires Counted() && Inv(Vm()) && p in procs && procs[p].ptes == Translated(procs[p].vpis)
      requires procs[p].ptes.Keys == procs[p].vpis.Keys
      modifies this`mem, this`procs, this`freePages, this`pagesInUse, core
      ensures Counted() && Inv(Vm()) && freePages >= old(freePages)
      ensures p in procs && procs == old(procs)[p := procs[p]] && procs[p].vpis == map[] && procs[p].ptes == map[]
      ensures Views(Vm()) == Views(old(Vm()))[p := View(Vm(), p)]
    {
      hide Inv, Views, View, Available, Accounted, Translated;
      ghost var vm := Vm();
      AllSame(vm, p);
      while procs[p].ptes != map[]
        invariant Counted() && Inv(Vm()) && freePages >= old(freePages)
        invariant p in procs && procs == old(procs)[p := procs[p]]
        invariant procs[p].ptes == Translated(procs[p].vpis) && procs[p].ptes.Keys == procs[p].vpis.Keys
        invariant Views(Vm()) == Views(vm)[p := View(Vm(), p)]
        decreases |procs[p].ptes|
      {
        var s :| s in procs[p].ptes;
        FreeLeaf(p, s);
      }
      assert procs[p].vpis.Keys == {};
    }

    method FreeLeaf(p: nat, s: Slot)
      requires Counted() && Inv(Vm()) && p in procs && s in procs[p].ptes && procs[p].ptes == Translated(procs[p].vpis)
      requires procs[p].ptes.Keys == procs[p].vpis.Keys
      modifies this`mem, this`procs, this`freePages, this`pagesInUse, core
      ensures Counted() && Inv(Vm()) && freePages >= old(freePages) && p in procs
      ensures procs ==
        old(procs)[p := old(procs[p]).(vpis := old(procs[p]).vpis - {s}, ptes := old(procs[p]).ptes - {s})]
      ensures procs[p].ptes == Translated(procs[p].vpis)
      ensures Views(Vm()) == Views(old(Vm()))[p := View(Vm(), p)]
    {
      hide Inv, Views, View, Available, Accounted, Translated;
      ghost var before := Vm();
      EntryFacts(before, p, s);
      PteHas(procs[p], s);
      UnmapKeeps(before, p, s);
      UnmapViews(before, p, s);
      Kfree(procs[p].ptes[s].ppn);
      procs := procs[p := procs[p].(vpis := procs[p].vpis - {s}, ptes := procs[p].ptes - {s})];
      OnlyEntriesMatter(Unmap(before, p, s), Vm());
      ViewsHas(Vm(), p);
      TranslatedDrop(before.procs[p].vpis, s);
    }

    // the kernel pages of p
    method FreeTables(p: nat)
      requires Counted() && Inv(Vm()) && p in procs
      modifies this`mem, this`procs, this`freePages, this`pagesInUse, core
      ensures Counted() && Inv(Vm()) && freePages >= old(freePages)
      ensures p in procs && procs == old(procs)[p := old(procs[p]).(kframes := {})]
      ensures Views(Vm()) == Views(old(Vm()))
    {
      hide Inv, Views, View, Available, Accounted;
      ghost var vm := Vm();
      while procs[p].kframes != {}
        invariant Counted() && Inv(Vm()) && freePages >= old(freePages)
        invariant p in procs && procs == old(procs)[p := old(procs[p]).(kframes := procs[p].kframes)]
        invariant Views(Vm()) == Views(vm)
        decreases procs[p].kframes
      {
        ghost var before := Vm();
        var f :| f in procs[p].kframes;
        OwnedFrame(before, p, f);
        UngrabKeeps(before, p, f);
        UngrabViews(before, p, f);
        Kfree(f);
        procs := SetFrames(procs, p, procs[p].kframes - {f});
        assert Vm() == Ungrab(before, p, f);
      }
    }

    // The pages an operation may allocate.
    function Need(op: Op): nat
      reads this
    {
      match op
      case Spawn(_, prog, _, tables) => tables + Pages(|prog|) + 1
      case Fork(_, _, tables) => tables
      case Store(_, _, _, _) => 0
      case Sbrk(p, n, tables) =>
        if p in procs && Grows(procs[p].base + procs[p].heap, n) then tables + MorePagesFor(procs[p].heap, n) else 0
      case GrowStack(p, tables) => tables + 1
      case Reap(_) => 0
    }

    // One operation; one that names a missing process does nothing.
    method Step(op: Op)
      requires Valid() && freePages >= MIN_FREE + Need(op)
      modifies this`mem, this`procs, this`freePages, this`pagesInUse, core
      ensures Valid() && Images(Vm()) ==
        if old(Refused(op)) then old(Images(Vm())) else EagerStep(old(Images(Vm())), op)
    {
      hide Inv, Available, Accounted, AllOk, Images, Covers, Pages;
      ImagesKeys(Vm());
      match op
      case Spawn(c, prog, base, tables) =>
        if c !in procs { DoSpawn(c, prog, base, tables); }
      case Fork(p, c, tables) =>
        if p in procs && c !in procs { DoFork(p, c, tables); }
      case Store(p, s, off, b) =>
        if p in procs {
          PagesOf(Vm(), p, s);
          var _ := StoreByte(p, s, off, b);
        }
      case Sbrk(p, n, tables) =>
        if p in procs { var _ := DoSbrk(p, n, tables); }
      case GrowStack(p, tables) =>
        if p in procs { var _ := DoGrowStack(p, tables); }
      case Reap(p) =>
        if p in procs { DoReap(p); } else { assert Images(Vm()) - {p} == Images(Vm()); }
    }

    // Any run: copy-on-write shows every process what eager copying would, until an
    // operation does not find the free pages it asks for or a process is killed for a
    // store outside its region.
    method Run(ops: seq<Op>) returns (n: nat)
      requires Valid()
      modifies this`mem, this`procs, this`freePages, this`pagesInUse, core
      ensures Valid() && n <= |ops|
      ensures Images(Vm()) == EagerRun(old(Images(Vm())), ops[..n])
      ensures n < |ops| ==> freePages < MIN_FREE + Need(ops[n]) || Refused(ops[n])
      ensures n < |ops| && Inside(Images(Vm()), ops[n]) ==> freePages < MIN_FREE + Need(ops[n])
    {
      hide Inv, Available, Accounted, AllOk, Images, EagerStep, Refused, Inside;
      n := 0;
      assert ops[..0] == [];
      while n < |ops| && freePages >= MIN_FREE + Need(ops[n]) && !Refused(ops[n])
        invariant Valid() && n <= |ops|
        invariant Images(Vm()) == EagerRun(old(Images(Vm())), ops[..n])
      {
        Step(ops[n]);
        assert ops[..n + 1][..n] == ops[..n];
        n := n + 1;
      }
      if n < |ops| && Inside(Images(Vm()), ops[n]) { InsideNotRefused(ops[n]); }
    }

    lemma InsideNotRefused(op: Op)
      requires Valid() && Inside(Images(Vm()), op)
      ensures !Refused(op)
    {
      hide Inv, Views, View, Available, Accounted, Translated, Covers;
      if op.Store? && op.p in procs {
        PagesOf(Vm(), op.p, op.s);
        CoversExactly(procs[op.p], op.s, op.off);
      }
    }

    // When every process has gone, every frame is as it was at boot.
    lemma AllReturned()
      requires Valid() && procs == map[]
      ensures freePages == Available(boot) && pagesInUse == 0
      ensures forall f :: 0 <= f < core.Length ==> core[f].available == boot[f].available && core[f].refCount == 0
    {
      forall f | 0 <= f < core.Length ensures core[f].available == boot[f].available && core[f].refCount == 0 {
        assert FrameOk(Vm(), f);
        assert Maps(procs, f) == {} && Owners(procs, f) == {};
      }
      SameAvailable(core[..], boot);
    }
  }

  // The entries of p outside `todo` are now c's too; nothing else about a process changes.
  ghost predicate EntriesShared(a: map<nat, Proc>, b: map<nat, Proc>, p: nat, c: nat, todo: set<Slot>) {
    && p in a && c in a && p in b && c in b && p != c
    && b == a[p := a[p].(vpis := b[p].vpis)][c := a[c].(vpis := b[c].vpis)]
    && b[p].vpis.Keys == a[p].vpis.Keys && todo <= a[p].vpis.Keys
    && b[c].vpis.Keys == a[p].vpis.Keys - todo
    && forall s :: s in b[c].vpis ==> !b[p].vpis[s].writable && !b[c].vpis[s].writable
  }

  lemma BeforeSharing(vm: Vm, p: nat, c: nat)
    requires p in vm.procs && c in vm.procs && p != c && vm.procs[c].vpis == map[]
    ensures EntriesShared(vm.procs, vm.procs, p, c, vm.procs[p].vpis.Keys)
    ensures p in Views(vm) && Views(vm) == Views(vm)[c := Views(vm)[p] - vm.procs[p].vpis.Keys]
  {
    EmptyView(vm, c);
    assert View(vm, p) - vm.procs[p].vpis.Keys == map[];
  }

  lemma StillToShare(a: map<nat, Proc>, b: map<nat, Proc>, p: nat, c: nat, todo: set<Slot>, s: Slot)
    requires EntriesShared(a, b, p, c, todo) && s in todo
    ensures p in b && c in b && p != c && s in b[p].vpis && s !in b[c].vpis
  {
  }

  lemma SharedOne(vm: Vm, before: Vm, p: nat, c: nat, todo: set<Slot>, s: Slot)
    requires EntriesShared(vm.procs, before.procs, p, c, todo) && s in todo && p in Views(vm)
    requires s in before.procs[p].vpis && before.procs[p].vpis[s].ppn < |before.core| && s in View(before, p)
    requires Views(before) == Views(vm)[c := Views(vm)[p] - todo]
    ensures EntriesShared(vm.procs, Share(before, p, c, s).procs, p, c, todo - {s})
    ensures Views(before)[c := View(before, c)[s := View(before, p)[s]]] == Views(vm)[c := Views(vm)[p] - (todo - {s})]
  {
    hide View, Views;
    SharedEntries(vm, before, p, c, todo, s);
    ViewsHas(before, p);
    ViewsHas(before, c);
    assert (Views(vm)[p] - todo)[s := Views(vm)[p][s]] == Views(vm)[p] - (todo - {s});
  }

  lemma SharedEntries(vm: Vm, before: Vm, p: nat, c: nat, todo: set<Slot>, s: Slot)
    requires EntriesShared(vm.procs, before.procs, p, c, todo) && s in todo
    requires s in before.procs[p].vpis && before.procs[p].vpis[s].ppn < |before.core|
    ensures EntriesShared(vm.procs, Share(before, p, c, s).procs, p, c, todo - {s})
  {
  }

  // What sharing leaves to be done: the child's sizes and entry names are the parent's.
  ghost predicate Forked(a: map<nat, Proc>, b: map<nat, Proc>, p: nat, c: nat) {
    && p in a && c !in a && b.Keys == a.Keys + {c}
    && (forall q :: q in a && q != p ==> b[q] == a[q])
    && b[p] == a[p].(vpis := b[p].vpis)
    && b[p].vpis.Keys == a[p].vpis.Keys && b[c].vpis.Keys == a[p].vpis.Keys
    && (forall s :: s in b[p].vpis ==> !b[p].vpis[s].writable)
    && b[c].ptes == map[] && SameSizes(b[c], a[p])
  }

  lemma IsForked(a: map<nat, Proc>, q: Proc, k: set<nat>, b: map<nat, Proc>, p: nat, c: nat)
    requires p in a && c !in a && EntriesShared(a[c := q.(kframes := k)], b, p, c, {})
    requires q.ptes == map[] && SameSizes(q, a[p])
    ensures Forked(a, b, p, c) && c in b && p in b && p != c
    ensures b[c].ptes == map[] && b[p].ptes == a[p].ptes && b[p].vpis.Keys == a[p].vpis.Keys
    ensures forall s :: s in b[p].vpis ==> !b[p].vpis[s].writable
  {
  }

  lemma NewChild(vm: Vm, c: nat, q: Proc)
    requires Inv(vm) && c !in vm.procs && q.vpis == map[] && q.kframes == {}
    ensures var n := vm.(procs := vm.procs[c := q]); Inv(n) && Views(n) == Views(vm)[c := map[]]
  {
    hide Inv, Views, View;
    EmptyProcKeeps(vm, c, q);
    EmptyProcViews(vm, c, q);
  }

  lemma PtesBelow(q: Proc)
    requires ProcOk(q)
    ensures q.ptes.Keys <= q.vpis.Keys
  {
  }

  lemma SameShape(q: Proc, r: Proc)
    requires ProcOk(q) && r.vpis.Keys == q.vpis.Keys && SameSizes(r, q)
    requires r.ptes == Translated(r.vpis)
    ensures ProcOk(r)
  {
  }

  lemma AfterFork(vm: Vm, mid: Vm, n: Vm, p: nat, c: nat)
    requires AllOk(vm.procs) && Inv(mid) && Forked(vm.procs, mid.procs, p, c)
    requires Views(mid) == Views(vm)[c := View(vm, p)]
    requires n.core == mid.core && n.mem == mid.mem
    requires n.procs == mid.procs[c := mid.procs[c].(ptes := Translated(mid.procs[c].vpis))]
      [p := mid.procs[p].(ptes := Translated(mid.procs[p].vpis))]
    ensures Inv(n) && AllOk(n.procs) && Images(n) == Images(vm)[c := Images(vm)[p]]
  {
    hide Inv, Views, View, ProcOk, Translated, ImageOf, Images;
    OnlyEntriesMatter(mid, n);
    SameShape(vm.procs[p], n.procs[p]);
    SameShape(vm.procs[p], n.procs[c]);
    ImagesChange(vm, n, c, View(vm, p));
    ImagesHas(vm, p);
  }

  lemma EntryFacts(vm: Vm, p: nat, s: Slot)
    requires Inv(vm) && p in vm.procs && s in vm.procs[p].vpis
    ensures var v := vm.procs[p].vpis[s];
      v.ppn < |vm.core| && v.ppn in vm.mem && vm.core[v.ppn].refCount > 0
      && !vm.core[v.ppn].available && v.writable != v.cow
  {
    hide Maps, Owners;
    MappedFrame(vm, p, s);
    assert EntryOk(vm, vm.procs[p].vpis[s]);
  }

  // The page table entry the hardware finds.
  lemma PteOf(vm: Vm, p: nat, s: Slot)
    requires Inv(vm) && p in vm.procs && ProcOk(vm.procs[p])
    ensures var q := vm.procs[p];
      && (s in q.ptes <==> s in q.vpis)
      && (s in q.ptes ==> q.ptes[s] == Pte(q.vpis[s].ppn, q.vpis[s].writable))
      && (s in View(vm, p) <==> s in q.vpis)
  {
    hide Maps, Owners;
    if s in vm.procs[p].vpis { assert EntryOk(vm, vm.procs[p].vpis[s]); }
  }

  // One entry of p changed, nothing any process sees, and then p's page table rewritten.
  lemma AfterChange(vm: Vm, mid: Vm, n: Vm, p: nat)
    requires AllOk(vm.procs) && Inv(mid) && p in vm.procs && p in mid.procs && Views(mid) == Views(vm)
    requires mid.procs == vm.procs[p := vm.procs[p].(vpis := mid.procs[p].vpis)]
    requires mid.procs[p].vpis.Keys == vm.procs[p].vpis.Keys
    requires n.core == mid.core && n.mem == mid.mem
    requires n.procs == mid.procs[p := mid.procs[p].(ptes := Translated(mid.procs[p].vpis))]
    ensures Inv(n) && AllOk(n.procs) && Images(n) == Images(vm)
  {
    hide Inv, Views, View, ProcOk, Translated, ImageOf, Images;
    OnlyEntriesMatter(mid, n);
    SameShape(vm.procs[p], n.procs[p]);
    ImagesSame(vm, n);
  }

  lemma NewSlots(q: Proc, r: RegionKind, lo: nat, hi: nat)
    requires ProcOk(q) && ((r == Heap && lo == Pages(q.heap)) || (r == Stack && lo == Pages(q.stack)))
    ensures PageSlots(r, lo, hi) !! q.vpis.Keys
  {
  }

  lemma PagesGrow(bytes: nat, n: nat)
    ensures Pages(bytes) <= Pages(bytes + n)
  {
  }

  // Nothing but p's kernel pages and its new entries has changed.
  lemma AddedBelow(a: map<nat, Proc>, b: map<nat, Proc>, c: map<nat, Proc>, p: nat, r: RegionKind, lo: nat, hi: nat)
    requires p in a && p in b && b == a[p := a[p].(kframes := b[p].kframes)]
    requires EntriesAdded(b, c, p, PageSlots(r, lo, hi))
    requires ProcOk(a[p])
    ensures p in c && c == a[p := a[p].(kframes := c[p].kframes, vpis := c[p].vpis)]
    ensures c[p].vpis.Keys == a[p].vpis.Keys + PageSlots(r, lo, hi) && c[p].ptes.Keys <= c[p].vpis.Keys
  {
    PtesBelow(a[p]);
  }

  lemma GrownHeap(q: Proc, r: Proc, n: nat)
    requires ProcOk(q) && r.heap == q.heap + n && r.stack == q.stack && r.code == q.code && r.ptes == Translated(r.vpis)
    requires r.vpis.Keys == q.vpis.Keys + PageSlots(Heap, Pages(q.heap), Pages(q.heap + n))
    ensures ProcOk(r)
  {
    hide Translated;
    PagesGrow(q.heap, n);
    forall i: nat ensures Slot(Heap, i) in r.vpis <==> i < Pages(r.heap) {
      assert Slot(Heap, i) in PageSlots(Heap, Pages(q.heap), Pages(r.heap)) <==> Pages(q.heap) <= i < Pages(r.heap);
    }
  }

  lemma GrownStack(q: Proc, r: Proc)
    requires ProcOk(q) && r.heap == q.heap && r.stack == q.stack + PGSIZE && r.code == q.code
    requires r.ptes == Translated(r.vpis)
    requires r.vpis.Keys == q.vpis.Keys + PageSlots(Stack, Pages(q.stack), Pages(q.stack) + 1)
    ensures ProcOk(r)
  {
    hide Translated;
    assert Pages(r.stack) == Pages(q.stack) + 1;
    forall i: nat ensures Slot(Stack, i) in r.vpis <==> i < Pages(r.stack) {
      assert Slot(Stack, i) in PageSlots(Stack, Pages(q.stack), Pages(r.stack)) <==>
        Pages(q.stack) <= i < Pages(r.stack);
    }
  }

  lemma AfterGrow(vm: Vm, mid: Vm, n: Vm, p: nat, x: map<Slot, Page>)
    requires AllOk(vm.procs) && Inv(mid) && p in vm.procs && p in mid.procs && p in n.procs && ProcOk(n.procs[p])
    requires mid.procs == vm.procs[p := mid.procs[p]] && n.procs == mid.procs[p := n.procs[p]]
    requires n.core == mid.core && n.mem == mid.mem
    requires n.procs[p].vpis == mid.procs[p].vpis && n.procs[p].kframes == mid.procs[p].kframes
    requires Views(mid) == Views(vm)[p := x]
    ensures Inv(n) && AllOk(n.procs)
    ensures Images(n) == Images(vm)[p := ImageWith(n.procs[p], x)]
  {
    hide Inv, Views, View, ProcOk, Translated, ImageOf, Images;
    OnlyEntriesMatter(mid, n);
    ImagesChange(vm, n, p, x);
  }

  lemma CodeOk(q: Proc, bytes: nat)
    requires q.vpis.Keys == PageSlots(Code, 0, Pages(bytes)) && q.ptes == Translated(q.vpis)
    requires q.code == Pages(bytes) * PGSIZE && q.heap == 0 && q.stack == 0
    ensures ProcOk(q)
  {
    hide Translated;
    assert Pages(q.code) == Pages(bytes);
  }

  lemma NoBytes()
    ensures Pages(0) == 0
  {
  }

  lemma AddedPtes(a: map<nat, Proc>, b: map<nat, Proc>, c: nat, r: RegionKind, lo: nat, hi: nat)
    requires c in a && a[c].ptes == map[] && a[c].vpis == map[] && EntriesAdded(a, b, c, PageSlots(r, lo, hi))
    ensures c in b && b == a[c := a[c].(vpis := b[c].vpis)] && b[c].vpis.Keys == PageSlots(r, lo, hi)
    ensures b[c].ptes == map[]
  {
  }

  // ---- loading a program ----

  lemma NothingLoaded(vm: Vm, c: nat, prog: seq<nat>, n: nat)
    requires c in vm.procs && vm.procs[c].vpis == map[]
    ensures View(vm, c) + ZeroPages(Code, 0, n) == ZeroPages(Code, 0, n) + ProgPages(prog, 0, 0)
  {
    EmptyView(vm, c);
  }

  lemma AddedSlot(a: map<nat, Proc>, b: map<nat, Proc>, c: nat, n: nat, i: nat)
    requires EntriesAdded(a, b, c, PageSlots(Code, 0, n)) && i < n
    ensures c in b && Slot(Code, i) in b[c].vpis && b[c].vpis[Slot(Code, i)].writable
  {
    assert Slot(Code, i) in PageSlots(Code, 0, n);
  }

  lemma PageBytes(prog: seq<nat>, i: nat)
    requires i < Pages(|prog|)
    ensures i * PGSIZE < |prog|
  {
  }

  lemma StillBlank(prog: seq<nat>, n: nat, i: nat)
    requires i < n
    ensures var m := ZeroPages(Code, 0, n) + ProgPages(prog, 0, i); Slot(Code, i) in m && m[Slot(Code, i)] == Filled(0)
  {
  }

  lemma LoadedPage(prog: seq<nat>, i: nat, m: nat)
    requires i * PGSIZE < |prog| && m == Min(|prog| - i * PGSIZE, PGSIZE)
    ensures Page(prog[i * PGSIZE..i * PGSIZE + m] + Filled(0).bytes[m..]) == ProgPage(prog, i)
  {
    assert prog[i * PGSIZE..i * PGSIZE + m] + Filled(0).bytes[m..] == ProgPage(prog, i).bytes;
  }

  lemma MoreLoaded(prog: seq<nat>, n: nat, i: nat)
    requires i < n
    ensures (ZeroPages(Code, 0, n) + ProgPages(prog, 0, i))[Slot(Code, i) := ProgPage(prog, i)] ==
      ZeroPages(Code, 0, n) + ProgPages(prog, 0, i + 1)
  {
    hide ProgPage;
  }

  lemma AllLoaded(prog: seq<nat>, n: nat)
    ensures ZeroPages(Code, 0, n) + ProgPages(prog, 0, n) == ProgPages(prog, 0, n)
  {
    hide ProgPage;
  }

  lemma AfterSpawn(vm: Vm, mid: Vm, n: Vm, c: nat, x: map<Slot, Page>)
    requires AllOk(vm.procs) && Inv(mid) && c !in vm.procs && c in mid.procs && c in n.procs && ProcOk(n.procs[c])
    requires mid.procs == vm.procs[c := mid.procs[c]] && n.procs == mid.procs[c := n.procs[c]]
    requires n.core == mid.core && n.mem == mid.mem
    requires n.procs[c].vpis == mid.procs[c].vpis && n.procs[c].kframes == mid.procs[c].kframes
    requires Views(mid) == Views(vm)[c := x]
    ensures Inv(n) && AllOk(n.procs)
    ensures Images(n) == Images(vm)[c := ImageWith(n.procs[c], x)]
  {
    hide Inv, Views, View, ProcOk, ImageOf, Images;
    OnlyEntriesMatter(mid, n);
    ImagesChange(vm, n, c, x);
  }

  // va2vregion finds a region for every byte of a page that has an entry, but for those past
  // the end of the heap.
  lemma CoversExactly(q: Proc, s: Slot, off: nat)
    requires ProcOk(q)
    ensures s in q.vpis && off < PGSIZE ==>
      (Covers(s, off, q.code, q.heap, q.stack) <==> s.region.Heap? ==> s.idx * PGSIZE + off < q.heap)
  {
    hide Agrees;
    match s.region
    case Code => assert s == Slot(Code, s.idx);
    case Heap => assert s == Slot(Heap, s.idx);
    case Stack => assert s == Slot(Stack, s.idx);
  }

  // Inside a region every page has an entry.
  lemma FoundEntry(q: Proc, s: Slot, off: nat)
    requires ProcOk(q) && Covers(s, off, q.code, q.heap, q.stack)
    ensures s in q.vpis
  {
    match s.region
    case Code => assert s == Slot(Code, s.idx);
    case Heap => assert s == Slot(Heap, s.idx);
    case Stack => assert s == Slot(Stack, s.idx);
  }

  lemma OneMoreByte(heap: nat)
    requires heap % PGSIZE == 0
    ensures MorePagesFor(heap, 1) == 1
  {
  }

  // The page of the last byte of the heap has other bytes, outside the region.
  lemma JustPastBreak(q: Proc, heap: nat, off: nat)
    requires ProcOk(q) && q.heap == heap + 1 && heap % PGSIZE == 0 && 1 <= off
    ensures Slot(Heap, heap / PGSIZE) in q.vpis && !Covers(Slot(Heap, heap / PGSIZE), off, q.code, q.heap, q.stack)
  {
    hide Agrees;
  }

  lemma PagesOf(vm: Vm, p: nat, s: Slot)
    requires Inv(vm) && p in vm.procs && AllOk(vm.procs)
    ensures p in Images(vm) && Images(vm).Keys == vm.procs.Keys
    ensures Images(vm)[p] == ImageWith(vm.procs[p], View(vm, p)) && (s in View(vm, p) <==> s in vm.procs[p].vpis)
  {
    hide Inv, ProcOk, View;
    PteOf(vm, p, s);
    ImagesHas(vm, p);
  }

  lemma PteKeys(vm: Vm, p: nat)
    requires Inv(vm) && p in vm.procs && ProcOk(vm.procs[p])
    ensures vm.procs[p].ptes == Translated(vm.procs[p].vpis) && vm.procs[p].ptes.Keys == vm.procs[p].vpis.Keys
  {
    forall s ensures s in vm.procs[p].ptes <==> s in vm.procs[p].vpis { PteOf(vm, p, s); }
  }

  lemma PteHas(q: Proc, s: Slot)
    requires q.ptes == Translated(q.vpis) && s in q.ptes
    ensures s in q.vpis && q.ptes[s].ppn == q.vpis[s].ppn
  {
  }

  lemma TranslatedDrop(vpis: map<Slot, Vpi>, s: Slot)
    ensures Translated(vpis - {s}) == Translated(vpis) - {s}
  {
  }

  lemma OwnedFrame(vm: Vm, p: nat, f: nat)
    requires Inv(vm) && p in vm.procs && f in vm.procs[p].kframes
    ensures f < |vm.core| && vm.core[f].refCount > 0 && !vm.core[f].available
  {
    assert FrameOk(vm, f);
    assert p in Owners(vm.procs, f);
  }

  lemma Removed(vm: Vm, mid: Vm, n: Vm, p: nat)
    requires AllOk(vm.procs) && Inv(mid) && p in vm.procs && p in mid.procs
    requires mid.procs == vm.procs[p := mid.procs[p]] && mid.procs[p].vpis == map[] && mid.procs[p].kframes == {}
    requires Views(mid) == Views(vm)[p := Views(mid)[p]]
    requires n == mid.(procs := mid.procs - {p})
    ensures Inv(n) && AllOk(n.procs) && Images(n) == Images(vm) - {p}
  {
    hide Inv, Views, View, ProcOk;
    assert mid == n.(procs := n.procs[p := mid.procs[p]]);
    EmptyProcKeeps(n, p, mid.procs[p]);
    forall q | q in n.procs ensures View(n, q) == View(vm, q) {
      SameEntriesSameView(mid, n, q);
      ViewsHas(mid, q);
      ViewsHas(vm, q);
    }
  }

  lemma ImagesKeys(vm: Vm)
    ensures Images(vm).Keys == vm.procs.Keys
  {
  }

  lemma {:induction false} SameAvailable(a: seq<Cme>, b: seq<Cme>)
    requires |a| == |b| && forall f :: 0 <= f < |a| ==> a[f].available == b[f].available
    ensures Available(a) == Available(b)
  {
    if a != [] { SameAvailable(a[..|a| - 1], b[..|b| - 1]); }
  }

  lemma ImagesHas(vm: Vm, p: nat)
    requires p in vm.procs
    ensures p in Images(vm) && Images(vm)[p] == ImageWith(vm.procs[p], View(vm, p))
    ensures Images(vm).Keys == vm.procs.Keys
  {
  }

  lemma NoPages(vm: Vm, p: nat, r: RegionKind, lo: nat)
    requires p in vm.procs
    ensures Views(vm)[p := View(vm, p) + ZeroPages(r, lo, lo)] == Views(vm)
    ensures EntriesAdded(vm.procs, vm.procs, p, PageSlots(r, lo, lo))
  {
    hide View;
    assert View(vm, p) + ZeroPages(r, lo, lo) == View(vm, p);
  }

  lemma ViewsHas(vm: Vm, p: nat)
    requires p in vm.procs
    ensures p in Views(vm) && Views(vm)[p] == View(vm, p)
  {
  }

  lemma MorePages(m: map<Slot, Page>, r: RegionKind, lo: nat, i: nat)
    requires lo <= i
    ensures (m + ZeroPages(r, lo, i))[Slot(r, i) := Filled(0)] == m + ZeroPages(r, lo, i + 1)
  {
  }

  lemma GrabViews(vm: Vm, p: nat, f: nat)
    requires p in vm.procs && f < |vm.core|
    ensures Views(Grab(vm, p, f)) == Views(vm)
  {
    hide View;
    var n := Grab(vm, p, f);
    forall q | q in vm.procs ensures View(n, q) == View(vm, q) { SameEntriesSameView(vm, n, q); }
  }
}
