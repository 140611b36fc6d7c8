/**
 Physical frames, reference counts and copy-on-write page entries
 (kernel/kalloc.c, kernel/vspace.c, kernel/trap.c), as a value.

 A page entry is named by its region and its index in that region's table; VSpace
 shows that names and page addresses correspond one to one.
 */
module CowMemory {
  import opened Prelude

  datatype RegionKind = Code | Heap | Stack
  datatype Slot = Slot(region: RegionKind, idx: nat)

  datatype Page = Page(bytes: seq<nat>)

  // struct core_map_entry
  datatype Cme = Cme(available: bool, refCount: nat)

  // struct vpage_info, for an entry with `used` set; swap is not modelled
  datatype Vpi = Vpi(present: bool, writable: bool, cow: bool, ppn: nat)

  // what the hardware sees
  datatype Pte = Pte(ppn: nat, writable: bool)

  // `vpis` are the used entries, `ptes` the machine page table, and `kframes` the
  // frames of the process's tables and kernel stack.  `base` is the heap's address;
  // `code`, `heap` and `stack` are the sizes in bytes of the regions.
  datatype Proc = Proc(vpis: map<Slot, Vpi>, ptes: map<Slot, Pte>, kframes: set<nat>,
                       code: nat, base: nat, heap: nat, stack: nat)

  datatype Vm = Vm(core: seq<Cme>, mem: map<nat, Page>, procs: map<nat, Proc>)

  // memset of a whole page
  function Filled(b: nat): Page {
    Page(seq(PGSIZE, _ => b))
  }

  // ---- who uses a frame ----

  function Maps(procs: map<nat, Proc>, f: nat): set<(nat, Slot)> {
    set p, s | p in procs && s in procs[p].vpis && procs[p].vpis[s].ppn == f :: (p, s)
  }

  function Owners(procs: map<nat, Proc>, f: nat): set<nat> {
    set p | p in procs && f in procs[p].kframes
  }

  // The reference count is the number of entries and kernel owners.
  predicate FrameOk(vm: Vm, f: nat)
    requires f < |vm.core|
  {
    var c := vm.core[f];
    && c.refCount == |Maps(vm.procs, f)| + |Owners(vm.procs, f)|
    && (c.available ==> c.refCount == 0)
    && |Owners(vm.procs, f)| <= 1
    && (Owners(vm.procs, f) != {} ==> Maps(vm.procs, f) == {})
  }

  // A frame with two entries is read-only and marked cow in both.
  predicate EntryOk(vm: Vm, v: Vpi) {
    && v.ppn < |vm.core| && !vm.core[v.ppn].available && v.ppn in vm.mem
    && v.present && v.writable != v.cow
    && (v.writable ==> |Maps(vm.procs, v.ppn)| == 1)
  }

  predicate Inv(vm: Vm) {
    && (forall f :: 0 <= f < |vm.core| ==> FrameOk(vm, f))
    && (forall p, s :: p in vm.procs && s in vm.procs[p].vpis ==> EntryOk(vm, vm.procs[p].vpis[s]))
    && (forall p, f :: p in vm.procs && f in vm.procs[p].kframes ==> f < |vm.core|)
  }

  // The machine page table says what the entries say.
  predicate Agrees(q: Proc) {
    q.ptes == Translated(q.vpis)
  }

  function Translated(vpis: map<Slot, Vpi>): map<Slot, Pte> {
    map s | s in vpis && vpis[s].present :: Pte(vpis[s].ppn, vpis[s].writable)
  }

  // ---- what processes see ----

  function View(vm: Vm, p: nat): map<Slot, Page>
    requires p in vm.procs
  {
    map s | s in vm.procs[p].vpis && vm.procs[p].vpis[s].ppn in vm.mem :: vm.mem[vm.procs[p].vpis[s].ppn]
  }

  function Views(vm: Vm): map<nat, map<Slot, Page>> {
    map p | p in vm.procs :: View(vm, p)
  }

  // ---- primitive changes ----

  function SetEntry(procs: map<nat, Proc>, p: nat, s: Slot, v: Vpi): map<nat, Proc>
    requires p in procs
  {
    procs[p := procs[p].(vpis := procs[p].vpis[s := v])]
  }

  function DropEntry(procs: map<nat, Proc>, p: nat, s: Slot): map<nat, Proc>
    requires p in procs
  {
    procs[p := procs[p].(vpis := procs[p].vpis - {s})]
  }

  function SetFrames(procs: map<nat, Proc>, p: nat, k: set<nat>): map<nat, Proc>
    requires p in procs
  {
    procs[p := procs[p].(kframes := k)]
  }

  // kalloc's change of the core map, and kfree's
  function Taken(core: seq<Cme>, f: nat): seq<Cme>
    requires f < |core|
  {
    core[f := Cme(false, 1)]
  }

  function Dropped(core: seq<Cme>, f: nat): seq<Cme>
    requires f < |core|
  {
    if core[f].refCount <= 1 then core[f := Cme(true, 0)]
    else core[f := core[f].(refCount := core[f].refCount - 1)]
  }

  // vregionaddmap, one page: a fresh zeroed frame.
  function MapNew(vm: Vm, p: nat, s: Slot, f: nat, page: Page): Vm
    requires p in vm.procs && f < |vm.core|
  {
    Vm(Taken(vm.core, f), vm.mem[f := page], SetEntry(vm.procs, p, s, Vpi(true, true, false, f)))
  }

  // shallow_copy_vpi_page, one entry: child and parent share the frame read-only.
  function Share(vm: Vm, p: nat, c: nat, s: Slot): Vm
    requires p in vm.procs && c in vm.procs && s in vm.procs[p].vpis && vm.procs[p].vpis[s].ppn < |vm.core|
  {
    var v := vm.procs[p].vpis[s].(cow := true, writable := false);
    Vm(vm.core[v.ppn := vm.core[v.ppn].(refCount := vm.core[v.ppn].refCount + 1)], vm.mem,
       SetEntry(SetEntry(vm.procs, p, s, v), c, s, v))
  }

  // The fault on a shared page: copy it into frame g.
  function CopyFault(vm: Vm, p: nat, s: Slot, g: nat): Vm
    requires p in vm.procs && s in vm.procs[p].vpis && g < |vm.core|
    requires vm.procs[p].vpis[s].ppn < |vm.core| && vm.procs[p].vpis[s].ppn in vm.mem
    requires vm.core[vm.procs[p].vpis[s].ppn].refCount > 0
  {
    var f := vm.procs[p].vpis[s].ppn;
    var core := Taken(vm.core, g);
    Vm(core[f := core[f].(refCount := if core[f].refCount > 0 then core[f].refCount - 1 else 0)],
       vm.mem[g := vm.mem[f]], SetEntry(vm.procs, p, s, Vpi(true, true, false, g)))
  }

  // The fault on a page only this entry still maps.
  function ReclaimFault(vm: Vm, p: nat, s: Slot): Vm
    requires p in vm.procs && s in vm.procs[p].vpis
  {
    vm.(procs := SetEntry(vm.procs, p, s, vm.procs[p].vpis[s].(writable := true, cow := false)))
  }

  // kfree fills a page it really frees with junk.
  function Scrubbed(vm: Vm, f: nat): map<nat, Page>
    requires f < |vm.core|
  {
    if vm.core[f].refCount <= 1 then vm.mem[f := Filled(2)] else vm.mem
  }

  // deallocuvm, one page
  function Unmap(vm: Vm, p: nat, s: Slot): Vm
    requires p in vm.procs && s in vm.procs[p].vpis && vm.procs[p].vpis[s].ppn < |vm.core|
  {
    var f := vm.procs[p].vpis[s].ppn;
    Vm(Dropped(vm.core, f), Scrubbed(vm, f), DropEntry(vm.procs, p, s))
  }

  // a kernel page for process p, and its release
  function Grab(vm: Vm, p: nat, f: nat): Vm
    requires p in vm.procs && f < |vm.core|
  {
    vm.(core := Taken(vm.core, f), procs := SetFrames(vm.procs, p, vm.procs[p].kframes + {f}))
  }

  function Ungrab(vm: Vm, p: nat, f: nat): Vm
    requires p in vm.procs && f < |vm.core|
  {
    Vm(Dropped(vm.core, f), Scrubbed(vm, f), SetFrames(vm.procs, p, vm.procs[p].kframes - {f}))
  }

  // ---- how the sets of users change ----

  lemma MapsSet(procs: map<nat, Proc>, p: nat, s: Slot, v: Vpi, f: nat)
    requires p in procs
    ensures Maps(SetEntry(procs, p, s, v), f) ==
      if v.ppn == f then Maps(procs, f) + {(p, s)} else Maps(procs, f) - {(p, s)}
    ensures Owners(SetEntry(procs, p, s, v), f) == Owners(procs, f)
  {
  }

  lemma MapsDrop(procs: map<nat, Proc>, p: nat, s: Slot, f: nat)
    requires p in procs
    ensures Maps(DropEntry(procs, p, s), f) == Maps(procs, f) - {(p, s)}
    ensures Owners(DropEntry(procs, p, s), f) == Owners(procs, f)
  {
  }

  lemma OwnersSet(procs: map<nat, Proc>, p: nat, k: set<nat>, f: nat)
    requires p in procs
    ensures Maps(SetFrames(procs, p, k), f) == Maps(procs, f)
    ensures Owners(SetFrames(procs, p, k), f) == if f in k then Owners(procs, f) + {p} else Owners(procs, f) - {p}
    ensures p in Owners(procs, f) <==> f in procs[p].kframes
  {
    var n := SetFrames(procs, p, k);
    forall q: nat, s ensures (q, s) in Maps(n, f) <==> (q, s) in Maps(procs, f) {
      MapsHas(n, q, s, f);
      MapsHas(procs, q, s, f);
    }
  }

  lemma MapsHas(procs: map<nat, Proc>, p: nat, s: Slot, f: nat)
    ensures (p, s) in Maps(procs, f) <==> p in procs && s in procs[p].vpis && procs[p].vpis[s].ppn == f
  {
  }

  // ---- each primitive keeps the invariant ----

  // An available frame has no user at all.
  lemma AvailableUnused(vm: Vm, f: nat)
    requires Inv(vm) && f < |vm.core| && vm.core[f].available
    ensures Maps(vm.procs, f) == {} && Owners(vm.procs, f) == {}
  {
    assert FrameOk(vm, f);
  }

  // A mapped frame has no kernel owner, and its count is the number of its entries.
  lemma MappedFrame(vm: Vm, p: nat, s: Slot)
    requires Inv(vm) && p in vm.procs && s in vm.procs[p].vpis
    ensures var f := vm.procs[p].vpis[s].ppn;
      && f < |vm.core| && !vm.core[f].available && (p, s) in Maps(vm.procs, f)
      && Owners(vm.procs, f) == {} && vm.core[f].refCount == |Maps(vm.procs, f)| > 0
  {
    var f := vm.procs[p].vpis[s].ppn;
    assert EntryOk(vm, vm.procs[p].vpis[s]);
    assert FrameOk(vm, f);
    MapsHas(vm.procs, p, s, f);
  }

  // To keep the invariant it is enough to look at one entry and the frames whose
  // users change.
  lemma EntryStays(vm: Vm, n: Vm, v: Vpi)
    requires EntryOk(vm, v) && |n.core| == |vm.core| && !n.core[v.ppn].available && v.ppn in n.mem
    requires v.writable ==> Maps(n.procs, v.ppn) == Maps(vm.procs, v.ppn)
    ensures EntryOk(n, v)
  {
  }

  lemma MapNewKeeps(vm: Vm, p: nat, s: Slot, f: nat, page: Page)
    requires Inv(vm) && p in vm.procs && s !in vm.procs[p].vpis && f < |vm.core| && vm.core[f].available
    ensures Inv(MapNew(vm, p, s, f, page))
  {
    hide Maps, Owners;
    var n := MapNew(vm, p, s, f, page);
    AvailableUnused(vm, f);
    forall g: nat
      ensures Maps(n.procs, g) == (if g == f then {(p, s)} else Maps(vm.procs, g))
      ensures Owners(n.procs, g) == Owners(vm.procs, g)
    {
      NewMaps(vm.procs, p, s, f, g);
    }
    forall g | 0 <= g < |n.core| ensures FrameOk(n, g) { assert FrameOk(vm, g); }
    forall q, t | q in n.procs && t in n.procs[q].vpis ensures EntryOk(n, n.procs[q].vpis[t]) {
      if (q, t) != (p, s) {
        assert EntryOk(vm, vm.procs[q].vpis[t]);
        EntryStays(vm, n, vm.procs[q].vpis[t]);
      }
    }
  }

  // A new entry for a frame that had none.
  lemma NewMaps(procs: map<nat, Proc>, p: nat, s: Slot, f: nat, g: nat)
    requires p in procs && s !in procs[p].vpis && Maps(procs, f) == {}
    ensures var n := SetEntry(procs, p, s, Vpi(true, true, false, f));
      Maps(n, g) == (if g == f then {(p, s)} else Maps(procs, g)) && Owners(n, g) == Owners(procs, g)
  {
    hide Maps, Owners;
    MapsSet(procs, p, s, Vpi(true, true, false, f), g);
    MapsHas(procs, p, s, g);
    assert Maps(procs, g) - {(p, s)} == Maps(procs, g);
  }

  // Forking one entry: the frame gains one user, and both users are read-only.
  lemma ShareKeeps(vm: Vm, p: nat, c: nat, s: Slot)
    requires Inv(vm) && p in vm.procs && c in vm.procs && p != c
    requires s in vm.procs[p].vpis && s !in vm.procs[c].vpis
    ensures vm.procs[p].vpis[s].ppn < |vm.core| && Inv(Share(vm, p, c, s))
  {
    hide Maps, Owners;
    MappedFrame(vm, p, s);
    var n := Share(vm, p, c, s);
    var v := vm.procs[p].vpis[s].(cow := true, writable := false);
    forall g: nat
      ensures Maps(n.procs, g) == (if g == v.ppn then Maps(vm.procs, g) + {(c, s)} else Maps(vm.procs, g))
      ensures Owners(n.procs, g) == Owners(vm.procs, g) && (c, s) !in Maps(vm.procs, g)
    {
      SharedMaps(vm.procs, p, c, s, v, g);
    }
    forall g | 0 <= g < |n.core| ensures FrameOk(n, g) { assert FrameOk(vm, g); }
    forall q, t | q in n.procs && t in n.procs[q].vpis ensures EntryOk(n, n.procs[q].vpis[t]) {
      assert EntryOk(vm, vm.procs[p].vpis[s]);
      if (q, t) != (p, s) && (q, t) != (c, s) {
        var w := vm.procs[q].vpis[t];
        assert EntryOk(vm, w);
        if w.ppn == v.ppn { Shared(vm, p, s, q, t); }
        EntryStays(vm, n, w);
      }
    }
  }

  // A second entry for the frame of p's entry s.
  lemma SharedMaps(procs: map<nat, Proc>, p: nat, c: nat, s: Slot, v: Vpi, g: nat)
    requires p in procs && c in procs && p != c && s in procs[p].vpis && s !in procs[c].vpis
    requires v.ppn == procs[p].vpis[s].ppn
    ensures var n := SetEntry(SetEntry(procs, p, s, v), c, s, v);
      && Maps(n, g) == (if g == v.ppn then Maps(procs, g) + {(c, s)} else Maps(procs, g))
      && Owners(n, g) == Owners(procs, g) && (c, s) !in Maps(procs, g)
  {
    hide Maps, Owners;
    MapsSet(procs, p, s, v, g);
    MapsSet(SetEntry(procs, p, s, v), c, s, v, g);
    MapsHas(procs, p, s, g);
    MapsHas(procs, c, s, g);
    if g == v.ppn {
      assert Maps(procs, g) + {(p, s)} == Maps(procs, g);
    } else {
      assert Maps(procs, g) - {(p, s)} - {(c, s)} == Maps(procs, g);
    }
  }

  // Two entries with one frame: neither is writable.
  lemma Shared(vm: Vm, p: nat, s: Slot, q: nat, t: Slot)
    requires Inv(vm) && p in vm.procs && s in vm.procs[p].vpis && q in vm.procs && t in vm.procs[q].vpis
    requires (p, s) != (q, t) && vm.procs[p].vpis[s].ppn == vm.procs[q].vpis[t].ppn
    ensures !vm.procs[p].vpis[s].writable && vm.procs[p].vpis[s].cow
    ensures vm.core[vm.procs[p].vpis[s].ppn].refCount >= 2
  {
    var f := vm.procs[p].vpis[s].ppn;
    assert EntryOk(vm, vm.procs[p].vpis[s]) && FrameOk(vm, f);
    TwoMembers(Maps(vm.procs, f), (p, s), (q, t));
  }

  lemma TwoMembers<T>(a: set<T>, x: T, y: T)
    requires x in a && y in a && x != y
    ensures |a| >= 2
  {
    assert a == (a - {x} - {y}) + {x} + {y};
  }

  lemma CopyFaultKeeps(vm: Vm, p: nat, s: Slot, g: nat)
    requires Inv(vm) && p in vm.procs && s in vm.procs[p].vpis && g < |vm.core| && vm.core[g].available
    requires vm.procs[p].vpis[s].ppn < |vm.core| && vm.core[vm.procs[p].vpis[s].ppn].refCount > 1
    ensures vm.procs[p].vpis[s].ppn in vm.mem && Inv(CopyFault(vm, p, s, g))
  {
    hide Maps, Owners;
    MappedFrame(vm, p, s);
    AvailableUnused(vm, g);
    assert EntryOk(vm, vm.procs[p].vpis[s]);
    var n := CopyFault(vm, p, s, g);
    var f := vm.procs[p].vpis[s].ppn;
    forall h: nat
      ensures Maps(n.procs, h) ==
        (if h == g then {(p, s)} else if h == f then Maps(vm.procs, f) - {(p, s)} else Maps(vm.procs, h))
      ensures Owners(n.procs, h) == Owners(vm.procs, h)
    {
      MovedMaps(vm.procs, p, s, g, h);
    }
    forall h | 0 <= h < |n.core| ensures FrameOk(n, h) { assert FrameOk(vm, h); }
    forall q, t | q in n.procs && t in n.procs[q].vpis ensures EntryOk(n, n.procs[q].vpis[t]) {
      if (q, t) != (p, s) {
        var w := vm.procs[q].vpis[t];
        assert EntryOk(vm, w);
        if w.ppn == f { Shared(vm, q, t, p, s); }
        EntryStays(vm, n, w);
      }
    }
  }

  // p's entry s moves to a frame that had no entry.
  lemma MovedMaps(procs: map<nat, Proc>, p: nat, s: Slot, g: nat, h: nat)
    requires p in procs && s in procs[p].vpis && Maps(procs, g) == {}
    ensures var n, f := SetEntry(procs, p, s, Vpi(true, true, false, g)), procs[p].vpis[s].ppn;
      && Maps(n, h) == (if h == g then {(p, s)} else if h == f then Maps(procs, f) - {(p, s)} else Maps(procs, h))
      && Owners(n, h) == Owners(procs, h)
  {
    hide Maps, Owners;
    MapsSet(procs, p, s, Vpi(true, true, false, g), h);
    MapsHas(procs, p, s, h);
    assert h != g && h != procs[p].vpis[s].ppn ==> Maps(procs, h) - {(p, s)} == Maps(procs, h);
  }

  lemma ReclaimFaultKeeps(vm: Vm, p: nat, s: Slot)
    requires Inv(vm) && p in vm.procs && s in vm.procs[p].vpis
    requires vm.procs[p].vpis[s].ppn < |vm.core| && vm.core[vm.procs[p].vpis[s].ppn].refCount == 1
    ensures Inv(ReclaimFault(vm, p, s))
  {
    hide Maps, Owners;
    MappedFrame(vm, p, s);
    var v := vm.procs[p].vpis[s];
    assert EntryOk(vm, v);
    var n := ReclaimFault(vm, p, s);
    forall h | 0 <= h < |n.core|
      ensures Maps(n.procs, h) == Maps(vm.procs, h) && FrameOk(n, h)
    {
      assert FrameOk(vm, h);
      MapsSet(vm.procs, p, s, v.(writable := true, cow := false), h);
      MapsHas(vm.procs, p, s, h);
      assert h == v.ppn ==> Maps(vm.procs, h) + {(p, s)} == Maps(vm.procs, h);
      assert h != v.ppn ==> Maps(vm.procs, h) - {(p, s)} == Maps(vm.procs, h);
    }
    forall q, t | q in n.procs && t in n.procs[q].vpis ensures EntryOk(n, n.procs[q].vpis[t]) {
      if (q, t) != (p, s) {
        assert EntryOk(vm, vm.procs[q].vpis[t]);
        EntryStays(vm, n, vm.procs[q].vpis[t]);
      }
    }
  }

  lemma UnmapKeeps(vm: Vm, p: nat, s: Slot)
    requires Inv(vm) && p in vm.procs && s in vm.procs[p].vpis
    ensures vm.procs[p].vpis[s].ppn < |vm.core| && Inv(Unmap(vm, p, s))
  {
    hide Maps, Owners;
    MappedFrame(vm, p, s);
    var f := vm.procs[p].vpis[s].ppn;
    var n := Unmap(vm, p, s);
    forall h | 0 <= h < |n.core|
      ensures Maps(n.procs, h) == (if h == f then Maps(vm.procs, f) - {(p, s)} else Maps(vm.procs, h)) && FrameOk(n, h)
    {
      assert FrameOk(vm, h);
      MapsDrop(vm.procs, p, s, h);
      MapsHas(vm.procs, p, s, h);
      assert h != f ==> Maps(vm.procs, h) - {(p, s)} == Maps(vm.procs, h);
    }
    forall q, t | q in n.procs && t in n.procs[q].vpis ensures EntryOk(n, n.procs[q].vpis[t]) {
      var w := vm.procs[q].vpis[t];
      assert EntryOk(vm, w);
      if w.ppn == f { Shared(vm, q, t, p, s); }
      EntryStays(vm, n, w);
    }
  }

  lemma GrabKeeps(vm: Vm, p: nat, f: nat)
    requires Inv(vm) && p in vm.procs && f < |vm.core| && vm.core[f].available
    ensures Inv(Grab(vm, p, f))
  {
    hide Maps, Owners;
    AvailableUnused(vm, f);
    FramesKeep(vm, Grab(vm, p, f), p, vm.procs[p].kframes + {f}, f);
  }

  lemma UngrabKeeps(vm: Vm, p: nat, f: nat)
    requires Inv(vm) && p in vm.procs && f in vm.procs[p].kframes
    ensures f < |vm.core| && Inv(Ungrab(vm, p, f))
  {
    hide Maps, Owners;
    assert FrameOk(vm, f);
    OwnersSet(vm.procs, p, vm.procs[p].kframes, f);
    if |Owners(vm.procs, f)| == 1 && Owners(vm.procs, f) != {p} {
      var q :| q in Owners(vm.procs, f) && q != p;
      TwoMembers(Owners(vm.procs, f), p, q);
    }
    FramesKeep(vm, Ungrab(vm, p, f), p, vm.procs[p].kframes - {f}, f);
  }

  // Changing only the owner of one frame that no entry maps.
  lemma FramesKeep(vm: Vm, n: Vm, p: nat, k: set<nat>, f: nat)
    requires Inv(vm) && p in vm.procs && f < |vm.core| && Maps(vm.procs, f) == {} && Owners(vm.procs, f) <= {p}
    requires n.procs == SetFrames(vm.procs, p, k) && |n.core| == |vm.core| && vm.mem.Keys <= n.mem.Keys
    requires forall h :: 0 <= h < |n.core| && h != f ==> n.core[h] == vm.core[h] && (h in k <==>
      h in vm.procs[p].kframes)
    requires n.core[f] == if f in k then Cme(false, 1) else Cme(true, 0)
    requires forall h :: h in k ==> h < |vm.core|
    ensures Inv(n)
  {
    hide Maps, Owners;
    forall h | 0 <= h < |n.core|
      ensures Maps(n.procs, h) == Maps(vm.procs, h)
      ensures Owners(n.procs, h) == if h == f then (if f in k then {p} else {}) else Owners(vm.procs, h)
    {
      OwnersSet(vm.procs, p, k, h);
    }
    forall h | 0 <= h < |n.core| ensures FrameOk(n, h) { assert FrameOk(vm, h); }
    forall q, t | q in n.procs && t in n.procs[q].vpis ensures EntryOk(n, n.procs[q].vpis[t]) {
      var w := vm.procs[q].vpis[t];
      assert EntryOk(vm, w);
      MapsHas(vm.procs, q, t, w.ppn);
      EntryStays(vm, n, w);
    }
  }

  // ---- what each primitive does to what processes see ----

  // An entry's contents, under the invariant.
  lemma ViewAt(vm: Vm, p: nat, s: Slot)
    requires Inv(vm) && p in vm.procs && s in vm.procs[p].vpis
    ensures vm.procs[p].vpis[s].ppn in vm.mem
    ensures s in View(vm, p) && View(vm, p)[s] == vm.mem[vm.procs[p].vpis[s].ppn]
  {
    assert EntryOk(vm, vm.procs[p].vpis[s]);
  }

  // Every entry but (p, s) shows what it showed.
  ghost predicate OthersSame(vm: Vm, n: Vm, p: nat, s: Slot) {
    && n.procs.Keys == vm.procs.Keys
    && forall q, t :: q in vm.procs && (q, t) != (p, s) ==>
         && (t in n.procs[q].vpis <==> t in vm.procs[q].vpis)
         && (t in vm.procs[q].vpis ==>
               && n.procs[q].vpis[t].ppn == vm.procs[q].vpis[t].ppn
               && (n.procs[q].vpis[t].ppn in n.mem <==> vm.procs[q].vpis[t].ppn in vm.mem)
               && (vm.procs[q].vpis[t].ppn in vm.mem ==>
                     n.mem[n.procs[q].vpis[t].ppn] == vm.mem[vm.procs[q].vpis[t].ppn]))
  }

  lemma ViewsChange(vm: Vm, n: Vm, p: nat, s: Slot)
    requires p in vm.procs && OthersSame(vm, n, p, s)
    ensures Views(n) == Views(vm)[p := View(n, p)]
    ensures View(n, p) == if s in View(n, p) then View(vm, p)[s := View(n, p)[s]] else View(vm, p) - {s}
  {
    forall q | q in vm.procs && q != p ensures View(n, q) == View(vm, q) {
      forall t ensures t in View(n, q) <==> t in View(vm, q) {
        assert (q, t) != (p, s);
      }
    }
    forall t | t != s ensures t in View(n, p) <==> t in View(vm, p) {
      assert (p, t) != (p, s);
    }
  }

  lemma MapNewViews(vm: Vm, p: nat, s: Slot, f: nat, page: Page)
    requires Inv(vm) && p in vm.procs && s !in vm.procs[p].vpis && f < |vm.core| && vm.core[f].available
    ensures Views(MapNew(vm, p, s, f, page)) == Views(vm)[p := View(vm, p)[s := page]]
  {
    hide Maps, Owners, View, Views;
    var n := MapNew(vm, p, s, f, page);
    AvailableUnused(vm, f);
    forall q, t | q in vm.procs && t in vm.procs[q].vpis ensures vm.procs[q].vpis[t].ppn != f {
      MapsHas(vm.procs, q, t, f);
    }
    ViewsChange(vm, n, p, s);
    MapNewKeeps(vm, p, s, f, page);
    ViewAt(n, p, s);
  }

  lemma ShareViews(vm: Vm, p: nat, c: nat, s: Slot)
    requires Inv(vm) && p in vm.procs && c in vm.procs && p != c
    requires s in vm.procs[p].vpis && s !in vm.procs[c].vpis
    ensures vm.procs[p].vpis[s].ppn < |vm.core| && s in View(vm, p)
    ensures Views(Share(vm, p, c, s)) == Views(vm)[c := View(vm, c)[s := View(vm, p)[s]]]
  {
    hide Maps, Owners, View, Views;
    ShareKeeps(vm, p, c, s);
    var n := Share(vm, p, c, s);
    ViewAt(vm, p, s);
    ViewAt(n, c, s);
    ViewsChange(vm, n, c, s);
  }

  lemma CopyFaultViews(vm: Vm, p: nat, s: Slot, g: nat)
    requires Inv(vm) && p in vm.procs && s in vm.procs[p].vpis && g < |vm.core| && vm.core[g].available
    requires vm.procs[p].vpis[s].ppn < |vm.core| && vm.core[vm.procs[p].vpis[s].ppn].refCount > 1
    ensures vm.procs[p].vpis[s].ppn in vm.mem && Views(CopyFault(vm, p, s, g)) == Views(vm)
  {
    hide Maps, Owners, View, Views;
    CopyFaultKeeps(vm, p, s, g);
    var n := CopyFault(vm, p, s, g);
    AvailableUnused(vm, g);
    forall q, t | q in vm.procs && t in vm.procs[q].vpis ensures vm.procs[q].vpis[t].ppn != g {
      MapsHas(vm.procs, q, t, g);
    }
    ViewAt(vm, p, s);
    ViewAt(n, p, s);
    ViewsChange(vm, n, p, s);
    assert View(vm, p)[s := View(vm, p)[s]] == View(vm, p);
    AllSame(vm, p);
  }

  lemma ReclaimFaultViews(vm: Vm, p: nat, s: Slot)
    requires Inv(vm) && p in vm.procs && s in vm.procs[p].vpis
    ensures Views(ReclaimFault(vm, p, s)) == Views(vm)
  {
    hide Maps, Owners, View, Views;
    var n := ReclaimFault(vm, p, s);
    ViewAt(vm, p, s);
    ViewsChange(vm, n, p, s);
    ReclaimKeepsView(vm, p, s);
    AllSame(vm, p);
  }

  lemma ReclaimKeepsView(vm: Vm, p: nat, s: Slot)
    requires p in vm.procs && s in vm.procs[p].vpis
    ensures View(ReclaimFault(vm, p, s), p) == View(vm, p)
  {
  }

  lemma AllSame(vm: Vm, p: nat)
    requires p in vm.procs
    ensures Views(vm)[p := View(vm, p)] == Views(vm)
  {
  }

  lemma UnmapViews(vm: Vm, p: nat, s: Slot)
    requires Inv(vm) && p in vm.procs && s in vm.procs[p].vpis && vm.procs[p].vpis[s].ppn < |vm.core|
    ensures Views(Unmap(vm, p, s)) == Views(vm)[p := View(vm, p) - {s}]
  {
    hide Maps, Owners, Views;
    var f := vm.procs[p].vpis[s].ppn;
    forall q, t | q in vm.procs && t in vm.procs[q].vpis && (q, t) != (p, s) && vm.procs[q].vpis[t].ppn == f
      ensures vm.core[f].refCount > 1
    {
      Shared(vm, p, s, q, t);
    }
    forall q, t | q in vm.procs && t in vm.procs[q].vpis ensures vm.procs[q].vpis[t].ppn in vm.mem {
      assert EntryOk(vm, vm.procs[q].vpis[t]);
    }
    ViewsChange(vm, Unmap(vm, p, s), p, s);
  }

  // Kernel pages are nobody's memory.
  lemma UngrabViews(vm: Vm, p: nat, f: nat)
    requires Inv(vm) && p in vm.procs && f in vm.procs[p].kframes && f < |vm.core|
    ensures Views(Ungrab(vm, p, f)) == Views(vm)
  {
    hide Maps, Owners;
    var n := Ungrab(vm, p, f);
    assert FrameOk(vm, f);
    OwnersSet(vm.procs, p, vm.procs[p].kframes, f);
    forall q | q in vm.procs ensures View(n, q) == View(vm, q) {
      forall t | t in vm.procs[q].vpis ensures vm.procs[q].vpis[t].ppn != f && vm.procs[q].vpis[t].ppn in vm.mem {
        assert EntryOk(vm, vm.procs[q].vpis[t]);
        MapsHas(vm.procs, q, t, f);
      }
    }
  }

  // Changes that touch neither entries nor frames.
  lemma OnlyEntriesMatter(vm: Vm, n: Vm)
    requires Inv(vm) && n.core == vm.core && n.mem == vm.mem && n.procs.Keys == vm.procs.Keys
    requires forall p :: p in vm.procs ==>
      n.procs[p].vpis == vm.procs[p].vpis && n.procs[p].kframes == vm.procs[p].kframes
    ensures Inv(n) && Views(n) == Views(vm)
  {
    forall f ensures Maps(n.procs, f) == Maps(vm.procs, f) && Owners(n.procs, f) == Owners(vm.procs, f) {
    }
    forall f | 0 <= f < |n.core| ensures FrameOk(n, f) { assert FrameOk(vm, f); }
    forall p, s | p in n.procs && s in n.procs[p].vpis ensures EntryOk(n, n.procs[p].vpis[s]) {
      assert EntryOk(vm, vm.procs[p].vpis[s]);
    }
    forall p | p in vm.procs ensures View(n, p) == View(vm, p) {
    }
  }

  // A process with no pages and no kernel frames uses nothing.
  lemma EmptyUsesNothing(procs: map<nat, Proc>, p: nat, q: Proc, f: nat)
    requires q.vpis == map[] && q.kframes == {} && p !in procs
    ensures Maps(procs[p := q], f) == Maps(procs, f) && Owners(procs[p := q], f) == Owners(procs, f)
  {
    var n := procs[p := q];
    forall r: nat, s ensures (r, s) in Maps(n, f) <==> (r, s) in Maps(procs, f) {
      MapsHas(n, r, s, f);
      MapsHas(procs, r, s, f);
    }
    assert Owners(n, f) == Owners(procs, f);
  }

  // ... so it can come and go.
  lemma EmptyProcKeeps(vm: Vm, p: nat, q: Proc)
    requires q.vpis == map[] && q.kframes == {} && p !in vm.procs
    ensures Inv(vm.(procs := vm.procs[p := q])) <==> Inv(vm)
  {
    hide Maps, Owners;
    var n := vm.(procs := vm.procs[p := q]);
    forall f: nat ensures Maps(n.procs, f) == Maps(vm.procs, f) && Owners(n.procs, f) == Owners(vm.procs, f) {
      EmptyUsesNothing(vm.procs, p, q, f);
    }
    assert forall f :: 0 <= f < |n.core| ==> FrameOk(n, f) == FrameOk(vm, f);
    assert forall v :: EntryOk(n, v) == EntryOk(vm, v);
    if Inv(n) {
      assert forall r, s :: r in vm.procs && s in vm.procs[r].vpis ==> EntryOk(n, n.procs[r].vpis[s]);
      assert forall r, f :: r in vm.procs && f in vm.procs[r].kframes ==> f in n.procs[r].kframes;
    }
  }

  lemma SameEntriesSameView(vm: Vm, n: Vm, p: nat)
    requires p in vm.procs && p in n.procs && n.mem == vm.mem && n.procs[p].vpis == vm.procs[p].vpis
    ensures View(n, p) == View(vm, p)
  {
  }

  lemma EmptyView(vm: Vm, p: nat)
    requires p in vm.procs && vm.procs[p].vpis == map[]
    ensures View(vm, p) == map[]
  {
  }

  lemma EmptyProcViews(vm: Vm, p: nat, q: Proc)
    requires q.vpis == map[] && p !in vm.procs
    ensures Views(vm.(procs := vm.procs[p := q])) == Views(vm)[p := map[]]
  {
    hide View;
    var n := vm.(procs := vm.procs[p := q]);
    EmptyView(n, p);
    forall r | r in vm.procs ensures View(n, r) == View(vm, r) {
      SameEntriesSameView(vm, n, r);
    }
    assert Views(n).Keys == Views(vm)[p := map[]].Keys;
    assert forall r :: r in Views(n) ==> Views(n)[r] == Views(vm)[p := map[]][r];
  }

  // ---- a user store ----

  function Put(page: Page, off: nat, b: nat): Page {
    if off < |page.bytes| then Page(page.bytes[off := b]) else page
  }

  // A write through a writable entry is seen through that entry and no other.
  lemma StoreViews(vm: Vm, p: nat, s: Slot, page: Page)
    requires Inv(vm) && p in vm.procs && s in vm.procs[p].vpis && vm.procs[p].vpis[s].writable
    ensures vm.procs[p].vpis[s].ppn in vm.mem && s in View(vm, p)
    ensures View(vm, p)[s] == vm.mem[vm.procs[p].vpis[s].ppn]
    ensures var n := vm.(mem := vm.mem[vm.procs[p].vpis[s].ppn := page]);
      Inv(n) && Views(n) == Views(vm)[p := View(vm, p)[s := page]]
  {
    hide Maps, Owners, View, Views;
    ViewAt(vm, p, s);
    var f := vm.procs[p].vpis[s].ppn;
    var n := vm.(mem := vm.mem[f := page]);
    forall q, t | q in vm.procs && t in vm.procs[q].vpis && (q, t) != (p, s) ensures vm.procs[q].vpis[t].ppn != f {
      if vm.procs[q].vpis[t].ppn == f { Shared(vm, p, s, q, t); }
    }
    forall h | 0 <= h < |n.core| ensures FrameOk(n, h) { assert FrameOk(vm, h); }
    forall q, t | q in n.procs && t in n.procs[q].vpis ensures EntryOk(n, n.procs[q].vpis[t]) {
      assert EntryOk(vm, vm.procs[q].vpis[t]);
    }
    ViewAt(n, p, s);
    ViewsChange(vm, n, p, s);
  }
}
