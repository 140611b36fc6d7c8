/**
 walkpml4, mappages, deallocuvm and freevm of kernel/x86_64vm.c, changing the tables in
 place.  kalloc takes the next frame of a pool; kfree calls are recorded in order.
 */
module X86Vm {
  import opened Prelude
  import opened PageTable
  import opened PageHoles
  import opened PageFree

  datatype Outcome = Ok | Remap | NoMemory

  predicate PoolOk(pool: seq<nat>, t: Tables) {
    NoRepeats(pool) && forall f :: f in pool ==> f !in t
  }

  // All tables keep their places, and all but f their contents.
  ghost predicate Kept(a: Pt, b: Pt, f: nat) {
    forall g :: g in a.t && g in a.tag ==>
      g in b.tag && b.tag[g] == a.tag[g] && g in b.t && (g != f ==> b.t[g] == a.t[g])
  }

  lemma KeptAt(a: Pt, b: Pt, f: nat, g: nat)
    requires Kept(a, b, f) && g in a.t && g in a.tag && g != f
    ensures g in b.tag && b.tag[g] == a.tag[g] && g in b.t && b.t[g] == a.t[g]
  {
  }

  // No table has this place.
  ghost predicate Lacks(pt: Pt, tg: Tag) {
    forall f :: f in pt.tag ==> pt.tag[f] != tg
  }

  // The page directory that a walk for a page leads through.
  function DirTag(page: nat): Tag {
    Tag(2, page / Reach(3))
  }

  // Every page directory of b other than this page's was in a.
  ghost predicate OneDir(a: Pt, b: Pt, page: nat) {
    forall n :: Lacks(a, Tag(2, n)) && Tag(2, n) != DirTag(page) ==> Lacks(b, Tag(2, n))
  }

  class PageMap {
    const root: nat
    var tables: Tables
    var pool: seq<nat>
    var kfreed: seq<nat>
    ghost var tag: map<nat, Tag>

    ghost function View(): Pt
      reads this
    {
      Pt(tables, tag)
    }

    ghost predicate Valid()
      reads this
    {
      Tree(View(), root) && PoolOk(pool, tables)
    }

    // setupkvm's start: a blank root.
    constructor (r: nat, frames: seq<nat>)
      requires NoRepeats(frames) && r !in frames
      ensures Valid() && root == r && pool == frames && kfreed == []
      ensures TablesOk(View()) && root in tables && forall p :: 0 <= p < MAX_PAGE ==> Translate(View(), root, p).Absent?
      ensures forall n :: Lacks(View(), Tag(2, n))
    {
      root, tables, pool, kfreed := r, map[r := Blank()], frames, [];
      tag := map[r := Tag(4, 0)];
      new;
      assert TableOk(View(), r);
    }

    // One level of walkpml4: the child of f for this page, made if need be.
    method Descend(f: nat, level: nat, page: nat, alloc: bool) returns (c: Option<nat>)
      requires Valid() && f in tables && f in tag && tag[f].level == level > 1
      modifies this`tables, this`pool, this`tag
      ensures Valid() && SameTranslations(old(View()), View(), root)
      ensures f in tag && tag[f] == old(tag[f]) && f in tables && |tables[f]| == ENTRIES
      ensures var e := tables[f][Index(level, page)]; c == if e.Present? then Some(e.frame) else None
      ensures c.Some? ==> c.value in tables && c.value in tag && tag[c.value] == ChildTag(tag[f], Index(level, page))
      ensures Kept(old(View()), View(), f)
      ensures forall g :: g in tag && g !in old(tag) ==> tag[g] == ChildTag(tag[f], Index(level, page))
      ensures !alloc ==> tables == old(tables) && tag == old(tag) && pool == old(pool)
      ensures |pool| >= |old(pool)| - 1 && (alloc && old(pool) != [] ==> c.Some?)
    {
      hide Tree, Index, Translate, ChildTag, SameTranslations;
      ghost var pt := View();
      TableFacts(pt, root, f);
      SameSelf(pt, root);
      var i := Index(level, page);
      EntryFacts(pt, root, f, i);
      if tables[f][i].Present? {
        return Some(tables[f][i].frame);
      }
      if !alloc || pool == [] {
        return None;
      }
      var n := pool[0];
      pool := pool[1..];
      AddedSame(pt, root, f, i, n);
      AddedTree(pt, root, f, i, n);
      AddedParts(pt, root, f, i, n);
      tag := tag[n := ChildTag(tag[f], i)];
      tables := tables[f := tables[f][i := Present(n, true)]][n := Blank()];
      return Some(n);
    }

    // walkpml4: the level-1 table for a page.
    method Walk(page: nat, alloc: bool) returns (r: Option<nat>)
      requires Valid() && page < MAX_PAGE
      modifies this`tables, this`pool, this`tag
      ensures Valid() && SameTranslations(old(View()), View(), root)
      ensures TablesOk(View()) && root in tables && r == WalkTo(View(), root, page)
      ensures !alloc ==> tables == old(tables) && tag == old(tag) && pool == old(pool)
      ensures |pool| >= |old(pool)| - 3 && (alloc && |old(pool)| >= 3 ==> r.Some?)
      ensures OneDir(old(View()), View(), page)
    {
      hide Tree, Index, Translate, SameTranslations, TablesOk, Kept, Distinct, OneDir, ChildTag;
      TreeFacts(View(), root);
      ghost var v0 := View();
      var pdpt := Descend(root, 4, page, alloc);
      ghost var v1 := View();
      TreeFacts(v1, root);
      NewTag(v0, v1, root, page, 4);
      if pdpt.None? {
        WalkStops(v1, root, page);
        return None;
      }
      var pgdir := Descend(pdpt.value, 3, page, alloc);
      ghost var v2 := View();
      TreeFacts(v2, root);
      KeptAt(v1, v2, pdpt.value, root);
      NewTag(v1, v2, pdpt.value, page, 3);
      DirAgain(v0, v1, v2, page);
      SameTransitive(v0, v1, v2, root);
      WalkStep(v2, root, page);
      if pgdir.None? {
        WalkStops(v2, pdpt.value, page);
        return None;
      }
      r := Descend(pgdir.value, 2, page, alloc);
      ghost var v3 := View();
      TreeFacts(v3, root);
      KeptAt(v2, v3, pgdir.value, root);
      NewTag(v2, v3, pgdir.value, page, 2);
      DirAgain(v0, v2, v3, page);
      KeptAt(v2, v3, pgdir.value, pdpt.value);
      SameTransitive(v0, v2, v3, root);
      WalkStep(v3, root, page);
      WalkStep(v3, pdpt.value, page);
      if r.None? {
        WalkStops(v3, pgdir.value, page);
      } else {
        WalkStep(v3, pgdir.value, page);
        WalkEnds(v3, r.value, page);
      }
    }

    // Write the leaf entry of a page in its level-1 table g.
    method SetLeaf(page: nat, g: nat, e: Entry)
      requires Valid() && page < MAX_PAGE && TablesOk(View()) && root in tables && WalkTo(View(), root, page) == Some(g)
      modifies this`tables
      ensures Valid() && OneChanged(old(View()), View(), root, page, e) && SameUpper(old(View()), View())
      ensures tag == old(tag)
    {
      hide Tree, Index, WalkTo, OneChanged;
      ghost var pt := View();
      TreeFacts(pt, root);
      LeafedChanges(pt, root, page, g, e);
      LeafedTree(pt, root, g, Index(1, page), e);
      tables := tables[g := tables[g][Index(1, page) := e]];
      assert View() == Leafed(pt, g, Index(1, page), e);
    }

    // One round of mappages.
    method MapPage(page: nat, frame: nat, writable: bool) returns (o: Outcome)
      requires Valid() && page < MAX_PAGE
      modifies this`tables, this`pool, this`tag
      ensures Valid() && |pool| >= |old(pool)| - 3 && (|old(pool)| >= 3 ==> o != NoMemory)
      ensures o == NoMemory ==> SameTranslations(old(View()), View(), root)
      ensures o == Ok ==> OneChanged(old(View()), View(), root, page, Present(frame, writable))
      ensures o != NoMemory ==> TablesOk(old(View())) && root in old(tables) && (o == Ok <==>
        Translate(old(View()), root, page).Absent?)
      ensures OneDir(old(View()), View(), page)
    {
      hide Tree, Index, WalkTo, OneChanged, SameTranslations, TablesOk;
      ghost var v0 := View();
      TreeFacts(v0, root);
      var r := Walk(page, true);
      if r.None? {
        return NoMemory;
      }
      ghost var v1 := View();
      SameAt(v0, v1, root, page);
      TranslateIs(v1, root, page, r.value);
      if tables[r.value][Index(1, page)].Present? {
        return Remap;
      }
      SetLeaf(page, r.value, Present(frame, writable));
      SameThenChanged(v0, v1, View(), root, page, Present(frame, writable));
      return Ok;
    }

    // mappages: consecutive pages to consecutive frames.
    method Mappages(page: nat, num: nat, frame: nat, writable: bool) returns (o: Outcome)
      requires Valid() && page + num <= MAX_PAGE
      modifies this`tables, this`pool, this`tag
      ensures Valid() && (|old(pool)| >= 3 * num ==> o != NoMemory)
      ensures o == Ok ==> RangeMapped(old(View()), View(), root, page, num, frame, writable)
      ensures o == Remap ==> exists p :: page <= p < page + num && Mapped(old(View()), root, p)
      ensures o == Ok ==> forall p :: page <= p < page + num ==> !Mapped(old(View()), root, p)
    {
      hide Tree, OneChanged, SameTranslations, TablesOk, RangeMapped, Mapped;
      ghost var v0 := View();
      NothingMapped(v0, root, page, frame, writable);
      var i := 0;
      while i < num
        invariant 0 <= i <= num && Valid() && |pool| >= |old(pool)| - 3 * i
        invariant RangeMapped(v0, View(), root, page, i, frame, writable)
        invariant forall p :: page <= p < page + i ==> !Mapped(v0, root, p)
      {
        ghost var v1 := View();
        o := MapPage(page + i, frame + i, writable);
        RangeThen(v0, v1, root, page, i, frame, writable);
        if o != Ok {
          return;
        }
        RangeGrows(v0, v1, View(), root, page, i, frame, writable);
        i := i + 1;
      }
      o := Ok;
    }

    // find_next_possible_page
    method FindNextPossiblePage(page: nat) returns (a: int)
      requires Valid() && page < USER && TablesOk(View()) && root in tables && tag[root].level == 4
      requires WalkTo(View(), root, page).None?
      ensures a == NextHole(View(), root, page) - 1
    {
      hide Tree, Index, TablesOk;
      ghost var pt := View();
      TreeFacts(pt, root);
      SameKeys(pt);
      ChildIs(pt, root, page);
      var e := tables[root][Index(4, page)];
      if e.Absent? {
        return Pgaddr(Index(4, page) + 1, 0, 0) - 1;
      }
      ChildIs(pt, e.frame, page);
      e := tables[e.frame][Index(3, page)];
      if e.Absent? {
        return Pgaddr(Index(4, page), Index(3, page) + 1, 0) - 1;
      }
      return Pgaddr(Index(4, page), Index(3, page), Index(2, page) + 1) - 1;
    }

    // deallocuvm(pml4, 0, SZ_4G, 0)
    method Deallocuvm()
      requires Valid() && TablesOk(View()) && root in tables && tag[root].level == 4 && Jumpable(View(), root)
      modifies this`tables, this`kfreed, this`pool, this`tag
      ensures Valid() && SameUpper(old(View()), View()) && Cleared(old(View()), View(), root, USER) && pool == old(pool)
      ensures kfreed == old(kfreed) + Frames(old(View()), root, USER)
    {
      hide Tree, Index, TablesOk, Translate, WalkTo, NextPage, NextHole, Jumpable, SameUpper, Cleared, Frames;
      ghost var v0 := View();
      CleanStart(v0, root);
      var a: int := 0;
      while a < USER
        invariant Valid() && SameUpper(v0, View()) && Cleared(v0, View(), root, if a < USER then a else USER)
        invariant pool == old(pool) && kfreed == old(kfreed) + Frames(v0, root, if a < USER then a else USER)
        decreases USER - a
      {
        ghost var v1 := View();
        StepFacts(v0, v1, root, a);
        var pte := Walk(a, false);
        if pte.None? {
          HoleStep(v0, v1, root, a);
          a := FindNextPossiblePage(a);
        } else {
          LeafStep(v0, v1, root, a, pte.value);
          var e := tables[pte.value][Index(1, a)];
          if e.Present? {
            kfreed := kfreed + [e.frame];
            SetLeaf(a, pte.value, Absent);
            ClearedOne(v0, v1, View(), root, a);
          }
        }
        a := a + 1;
      }
    }

    // kfree of a table page: it is no longer a table.
    method FreeTable(f: nat)
      requires f in tables
      modifies this`tables, this`kfreed
      ensures tables == old(tables) - {f} && kfreed == old(kfreed) + [f]
    {
      kfreed := kfreed + [f];
      tables := tables - {f};
    }

    // freevm_pgdir.  `pt` are the tables at the start, `done` those freed since.
    method FreevmPgdir(pgdir: nat, ghost pt: Pt, ghost done: seq<nat>)
      requires TablesOk(pt) && pgdir in pt.t && pt.tag[pgdir].level == 2 && Fresh(done, Post(pt, pgdir))
      requires tables == Without(pt.t, done)
      modifies this`tables, this`kfreed
      ensures tables == Without(pt.t, done + Post(pt, pgdir)) && kfreed == old(kfreed) + Post(pt, pgdir)
    {
      hide Fresh, TablesOk, Without, Kids, Post;
      var i := 0;
      KidsStart(pt, pgdir, done);
      while i < ENTRIES
        invariant 0 <= i <= ENTRIES && tables == Without(pt.t, done + Kids(pt, pgdir, i))
        invariant kfreed == old(kfreed) + Kids(pt, pgdir, i)
      {
        KidsStep(pt, pgdir, done, i);
        if tables[pgdir][i].Present? {
          FreeTable(tables[pgdir][i].frame);
        }
        i := i + 1;
      }
      KidsEnd(pt, pgdir, done);
      FreeTable(pgdir);
    }

    // freevm_pdpt
    method FreevmPdpt(pdpt: nat, ghost pt: Pt, ghost done: seq<nat>)
      requires TablesOk(pt) && pdpt in pt.t && pt.tag[pdpt].level == 3 && Fresh(done, Post(pt, pdpt))
      requires tables == Without(pt.t, done)
      modifies this`tables, this`kfreed
      ensures tables == Without(pt.t, done + Post(pt, pdpt)) && kfreed == old(kfreed) + Post(pt, pdpt)
    {
      hide Fresh, TablesOk, Without, Kids, Post;
      var i := 0;
      KidsStart(pt, pdpt, done);
      while i < ENTRIES
        invariant 0 <= i <= ENTRIES && tables == Without(pt.t, done + Kids(pt, pdpt, i))
        invariant kfreed == old(kfreed) + Kids(pt, pdpt, i)
      {
        KidsStep(pt, pdpt, done, i);
        if tables[pdpt][i].Present? {
          FreevmPgdir(tables[pdpt][i].frame, pt, done + Kids(pt, pdpt, i));
        }
        i := i + 1;
      }
      KidsEnd(pt, pdpt, done);
      FreeTable(pdpt);
    }

    // freevm: every leaf of the user part, then every table, each exactly once.
    method Freevm()
      requires Valid() && TablesOk(View()) && root in tables && tag[root].level == 4 && Jumpable(View(), root)
      modifies this
      ensures tables == map[]
      ensures exists order ::
        && kfreed == old(kfreed) + Frames(old(View()), root, USER) + order
        && NoRepeats(order) && forall c :: c in order <==> c in old(tables)
    {
      hide Fresh, TablesOk, Without, Tree, Kids, Post, Frames, Jumpable, Cleared;
      Deallocuvm();
      ghost var pt := View();
      TreeFacts(pt, root);
      EveryTableOnce(pt, root);
      FreevmPml4(pt);
      AllGone(pt, root);
    }

    // the rest of freevm
    method FreevmPml4(ghost pt: Pt)
      requires TablesOk(pt) && root in pt.t && pt.tag[root].level == 4 && tables == pt.t
      modifies this`tables, this`kfreed
      ensures tables == Without(pt.t, [] + Post(pt, root)) && kfreed == old(kfreed) + Post(pt, root)
    {
      hide Fresh, TablesOk, Without, Kids, Post;
      var i := 0;
      KidsStart(pt, root, []);
      while i < ENTRIES
        invariant 0 <= i <= ENTRIES && tables == Without(pt.t, [] + Kids(pt, root, i))
        invariant kfreed == old(kfreed) + Kids(pt, root, i)
      {
        KidsStep(pt, root, [], i);
        if tables[root][i].Present? {
          FreevmPdpt(tables[root][i].frame, pt, [] + Kids(pt, root, i));
        }
        i := i + 1;
      }
      KidsEnd(pt, root, []);
      FreeTable(root);
    }
  }

  function Without(t: Tables, s: seq<nat>): Tables {
    map f | f in t && f !in s :: t[f]
  }

  // None of these tables has been freed yet.
  predicate Fresh(done: seq<nat>, more: seq<nat>) {
    forall c :: c in more ==> c !in done
  }

  lemma KidsStart(pt: Pt, f: nat, done: seq<nat>)
    requires TablesOk(pt) && f in pt.t && pt.tag[f].level > 1
    ensures Kids(pt, f, 0) == [] && done + Kids(pt, f, 0) == done && (done == [] ==> Without(pt.t, done) == pt.t)
    ensures done == [] ==> Fresh(done, Post(pt, f))
  {
  }

  // Before entry i: f is still a table, and its child is next on the list.
  lemma KidsStep(pt: Pt, f: nat, done: seq<nat>, i: nat)
    requires TablesOk(pt) && f in pt.t && pt.tag[f].level > 1 && i < ENTRIES && Fresh(done, Post(pt, f))
    ensures var now := Without(pt.t, done + Kids(pt, f, i)); var e := pt.t[f];
      && f in now && now[f] == e && |e| == ENTRIES
      && (e[i].Absent? ==> Kids(pt, f, i + 1) == Kids(pt, f, i))
      && (e[i].Present? ==>
            var c := e[i].frame;
            && c in pt.t && c in now && c in pt.tag && pt.tag[c].level == pt.tag[f].level - 1
            && Fresh(done + Kids(pt, f, i), Post(pt, c))
            && Kids(pt, f, i + 1) == Kids(pt, f, i) + Post(pt, c)
            && Without(pt.t, done + Kids(pt, f, i) + Post(pt, c)) == Without(pt.t, done + Kids(pt, f, i + 1))
            && (pt.tag[c].level == 1 ==> Post(pt, c) == [c] && now - {c} == Without(pt.t, done + Kids(pt, f, i + 1))))
  {
    assert TableOk(pt, f);
    assert f in Post(pt, f);
    SelfNotKid(pt, f, i);
    if pt.t[f][i].Present? {
      hide Post, Kids;
      var c := pt.t[f][i].frame;
      NextKid(pt, f, i);
      LastKid(pt, c);
      assert done + (Kids(pt, f, i) + Post(pt, c)) == done + Kids(pt, f, i) + Post(pt, c);
    }
  }

  lemma LastKid(pt: Pt, c: nat)
    requires TablesOk(pt) && c in pt.t
    ensures c in Post(pt, c) && (pt.tag[c].level == 1 ==> Post(pt, c) == [c])
  {
  }

  lemma KidsEnd(pt: Pt, f: nat, done: seq<nat>)
    requires TablesOk(pt) && f in pt.t && pt.tag[f].level > 1 && Fresh(done, Post(pt, f))
    ensures Post(pt, f) == Kids(pt, f, ENTRIES) + [f] && f in Without(pt.t, done + Kids(pt, f, ENTRIES))
    ensures Without(pt.t, done + Kids(pt, f, ENTRIES)) - {f} == Without(pt.t, done + Post(pt, f))
  {
    SelfNotKid(pt, f, ENTRIES);
    assert f in Post(pt, f);
  }

  lemma AllGone(pt: Pt, root: nat)
    requires TablesOk(pt) && root in pt.t && forall c :: c in Post(pt, root) <==> c in pt.t
    ensures Without(pt.t, [] + Post(pt, root)) == map[]
  {
  }

  // The pages below `lim` translate to nothing now; the others are as they were.
  ghost predicate Cleared(a: Pt, b: Pt, root: nat, lim: nat) {
    && Tree(a, root) && Tree(b, root)
    && forall p :: 0 <= p < MAX_PAGE ==> Translate(b, root, p) == if p < lim then Absent else Translate(a, root, p)
  }

  lemma ChildIs(pt: Pt, f: nat, page: nat)
    requires TablesOk(pt) && f in pt.t && f in pt.tag && pt.tag[f].level > 1
    ensures |pt.t[f]| == ENTRIES
    ensures var e := pt.t[f][Index(pt.tag[f].level, page)];
      && Child(pt, f, page) == (if e.Present? then Some(e.frame) else None)
      && (e.Present? ==> e.frame in pt.t && e.frame in pt.tag && pt.tag[e.frame].level == pt.tag[f].level - 1)
  {
    assert TableOk(pt, f);
  }

  lemma CleanStart(pt: Pt, root: nat)
    requires Tree(pt, root)
    ensures Cleared(pt, pt, root, 0) && SameUpper(pt, pt) && Frames(pt, root, 0) == []
  {
  }

  lemma StepFacts(v0: Pt, v1: Pt, root: nat, a: nat)
    requires Tree(v0, root) && Tree(v1, root) && SameUpper(v0, v1) && a < USER && TablesOk(v0) && root in v0.t
    requires v0.tag[root].level == 4
    ensures TablesOk(v1) && root in v1.t && root in v1.tag && v1.tag[root].level == 4
    ensures Jumpable(v0, root) ==> NextPage(v1, root, a) > a
    ensures NextPage(v1, root, a) == if WalkTo(v1, root, a).Some? then a + 1 else NextHole(v1, root, a)
  {
    UpperNext(v0, v1, root, a);
    if Jumpable(v0, root) { Forward(v1, root, a); }
  }

  lemma HoleStep(v0: Pt, v1: Pt, root: nat, a: nat)
    requires Tree(v0, root) && SameUpper(v0, v1) && a < USER && Cleared(v0, v1, root, a) && root in v1.t && TablesOk(v1)
    requires v1.tag[root].level == 4 && WalkTo(v1, root, a).None? && NextHole(v1, root, a) > a
    ensures var n := NextHole(v1, root, a); var lim := if n < USER then n else USER;
      Cleared(v0, v1, root, lim) && Frames(v0, root, lim) == Frames(v0, root, a)
  {
    hide NextHole, WalkTo, Tree, TablesOk, Translate;
    TreeFacts(v0, root);
    var n := NextHole(v1, root, a);
    var lim := if n < USER then n else USER;
    forall p | a <= p < lim ensures Translate(v0, root, p).Absent? && Translate(v1, root, p).Absent? {
      HoleIsEmpty(v1, root, a, p);
      UpperWalk(v0, v1, root, p);
      NoTranslation(v0, root, p);
      NoTranslation(v1, root, p);
    }
    FramesSkip(v0, root, a, lim);
  }

  lemma NoTranslation(pt: Pt, root: nat, p: nat)
    requires TablesOk(pt) && root in pt.t && WalkTo(pt, root, p).None?
    ensures Translate(pt, root, p).Absent?
  {
  }

  lemma LeafStep(v0: Pt, v1: Pt, root: nat, a: nat, g: nat)
    requires Cleared(v0, v1, root, a) && a < USER && TablesOk(v1) && root in v1.t && WalkTo(v1, root, a) == Some(g)
    ensures g in v1.t && |v1.t[g]| == ENTRIES
    ensures var e := v1.t[g][Index(1, a)];
      && Frames(v0, root, a + 1) == Frames(v0, root, a) + (if e.Present? then [e.frame] else [])
      && (e.Absent? ==> Cleared(v0, v1, root, a + 1))
  {
    hide Translate, WalkTo, Tree, TablesOk, Index;
    TranslateIs(v1, root, a, g);
    ClearedAt(v0, v1, root, a);
    FramesNext(v0, root, a);
  }

  lemma ClearedAt(v0: Pt, v1: Pt, root: nat, a: nat)
    requires Cleared(v0, v1, root, a) && a < USER
    ensures TablesOk(v0) && root in v0.t && TablesOk(v1) && root in v1.t
    ensures Translate(v0, root, a) == Translate(v1, root, a)
    ensures Translate(v1, root, a).Absent? ==> Cleared(v0, v1, root, a + 1)
  {
    hide Translate, Tree, TablesOk;
    TreeFacts(v0, root);
    TreeFacts(v1, root);
  }

  lemma FramesNext(pt: Pt, root: nat, a: nat)
    requires TablesOk(pt) && root in pt.t
    ensures Frames(pt, root, a + 1) == Frames(pt, root, a) +
      var e := Translate(pt, root, a); if e.Present? then [e.frame] else []
  {
  }

  lemma ClearedOne(v0: Pt, v1: Pt, v2: Pt, root: nat, a: nat)
    requires Cleared(v0, v1, root, a) && OneChanged(v1, v2, root, a, Absent) && SameUpper(v0, v1) && SameUpper(v1, v2)
    ensures Cleared(v0, v2, root, a + 1) && SameUpper(v0, v2)
  {
    hide Translate, TablesOk;
  }

  ghost predicate Mapped(pt: Pt, root: nat, page: nat) {
    Tree(pt, root) && Translate(pt, root, page).Present?
  }

  // From a to b, `num` pages from `page` on have come to map the frames from `frame` on.
  ghost predicate RangeMapped(a: Pt, b: Pt, root: nat, page: nat, num: nat, frame: nat, writable: bool) {
    && Tree(a, root) && Tree(b, root)
    && forall p :: 0 <= p < MAX_PAGE ==>
      (Translate(b, root, p) ==
        if page <= p < page + num then Present(frame + p - page, writable) else Translate(a, root, p))
  }

  lemma NothingMapped(pt: Pt, root: nat, page: nat, frame: nat, writable: bool)
    requires Tree(pt, root)
    ensures RangeMapped(pt, pt, root, page, 0, frame, writable)
  {
  }

  lemma RangeThen(a: Pt, b: Pt, root: nat, page: nat, i: nat, frame: nat, writable: bool)
    requires RangeMapped(a, b, root, page, i, frame, writable) && page + i < MAX_PAGE
    ensures TablesOk(b) && root in b.t && (Mapped(a, root, page + i) <==> Translate(b, root, page + i).Present?)
  {
    hide Translate;
  }

  lemma RangeGrows(a: Pt, b: Pt, c: Pt, root: nat, page: nat, i: nat, frame: nat, writable: bool)
    requires RangeMapped(a, b, root, page, i, frame, writable)
    requires OneChanged(b, c, root, page + i, Present(frame + i, writable))
    ensures RangeMapped(a, c, root, page, i + 1, frame, writable)
  {
    hide Translate, TablesOk;
  }

  lemma SameAt(a: Pt, b: Pt, root: nat, page: nat)
    requires SameTranslations(a, b, root) && page < MAX_PAGE
    ensures TablesOk(a) && TablesOk(b) && root in a.t && root in b.t
    ensures Translate(b, root, page) == Translate(a, root, page)
  {
  }

  lemma TranslateIs(pt: Pt, root: nat, page: nat, g: nat)
    requires TablesOk(pt) && root in pt.t && WalkTo(pt, root, page) == Some(g)
    ensures g in pt.t && |pt.t[g]| == ENTRIES && Translate(pt, root, page) == pt.t[g][Index(1, page)]
  {
    assert TableOk(pt, g);
  }

  lemma SameThenChanged(a: Pt, b: Pt, c: Pt, root: nat, page: nat, e: Entry)
    requires SameTranslations(a, b, root) && OneChanged(b, c, root, page, e)
    ensures OneChanged(a, c, root, page, e)
  {
    hide Translate, TablesOk;
  }

  // One table more, on the way to a page.
  lemma NewTag(a: Pt, b: Pt, f: nat, page: nat, level: nat)
    requires page < MAX_PAGE && 2 <= level <= 4 && f in a.t && f in a.tag && f in b.tag && b.tag[f] == a.tag[f]
    requires a.tag.Keys == a.t.Keys
    requires a.tag[f] == (if level == 4 then Tag(4, 0) else if level == 3 then Tag(3, Index(4, page)) else DirTag(page))
    requires Kept(a, b, f) && forall g :: g in b.tag && g !in a.tag ==>
      b.tag[g] == ChildTag(b.tag[f], Index(level, page))
    ensures OneDir(a, b, page)
    ensures ChildTag(a.tag[f], Index(level, page)).level == level - 1
    ensures level == 4 ==> ChildTag(a.tag[f], Index(4, page)) == Tag(3, Index(4, page))
    ensures level == 3 ==> ChildTag(a.tag[f], Index(3, page)) == DirTag(page)
  {
    DirIs(page);
    forall n | Lacks(a, Tag(2, n)) && Tag(2, n) != DirTag(page) ensures Lacks(b, Tag(2, n)) {
      forall g | g in b.tag ensures b.tag[g] != Tag(2, n) {
        if g in a.tag { assert g in a.t; }
      }
    }
  }

  lemma DirIs(page: nat)
    requires page < MAX_PAGE
    ensures DirTag(page) == Tag(2, Index(4, page) * ENTRIES + Index(3, page))
  {
  }

  lemma DirAgain(a: Pt, b: Pt, c: Pt, page: nat)
    requires OneDir(a, b, page) && OneDir(b, c, page)
    ensures OneDir(a, c, page)
  {
  }

  lemma WalkStep(pt: Pt, f: nat, page: nat)
    requires TablesOk(pt) && f in pt.t && f in pt.tag && pt.tag[f].level > 1
    ensures |pt.t[f]| == ENTRIES
    ensures var e := pt.t[f][Index(pt.tag[f].level, page)];
      e.Present? ==> e.frame in pt.t && WalkTo(pt, f, page) == WalkTo(pt, e.frame, page)
  {
    assert TableOk(pt, f);
    assert EntryOk(pt, pt.tag[f], Index(pt.tag[f].level, page), pt.t[f][Index(pt.tag[f].level, page)]);
  }

  lemma WalkStops(pt: Pt, f: nat, page: nat)
    requires TablesOk(pt) && f in pt.t && f in pt.tag && pt.tag[f].level > 1
    ensures |pt.t[f]| == ENTRIES
    ensures pt.t[f][Index(pt.tag[f].level, page)].Absent? ==> WalkTo(pt, f, page) == None
  {
    assert TableOk(pt, f);
  }

  lemma WalkEnds(pt: Pt, f: nat, page: nat)
    requires TablesOk(pt) && f in pt.t && f in pt.tag && pt.tag[f].level == 1
    ensures WalkTo(pt, f, page) == Some(f)
  {
  }

  lemma SameSelf(pt: Pt, root: nat)
    requires Tree(pt, root)
    ensures SameTranslations(pt, pt, root)
  {
  }

  lemma TableFacts(pt: Pt, root: nat, f: nat)
    requires Tree(pt, root) && f in pt.t
    ensures pt.tag.Keys == pt.t.Keys && |pt.t[f]| == ENTRIES && 1 <= pt.tag[f].level <= 4
  {
    assert TableOk(pt, f);
  }

  lemma EntryFacts(pt: Pt, root: nat, f: nat, i: nat)
    requires Tree(pt, root) && f in pt.t && i < ENTRIES
    ensures f in pt.tag && i < |pt.t[f]| && EntryOk(pt, pt.tag[f], i, pt.t[f][i])
  {
    assert TableOk(pt, f);
  }

  lemma AddedParts(pt: Pt, root: nat, f: nat, i: nat, c: nat)
    requires Tree(pt, root) && f in pt.t && f in pt.tag && pt.tag[f].level > 1 && i < |pt.t[f]| && c !in pt.t
    ensures pt.tag.Keys == pt.t.Keys && c !in pt.tag
  {
  }
}
