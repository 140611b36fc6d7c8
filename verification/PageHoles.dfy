/**
 The order in which deallocuvm visits pages (kernel/x86_64vm.c): the jump over missing
 tables, when it loses its carry, and what it can skip.
 */
module PageHoles {
  import opened Prelude
  import opened PageTable

  // The user part that freevm clears: 4 GiB of pages.
  const USER := 0x10_0000

  // PGADDR in pages.  The fields are ORed, so an index of 512 carries into the next
  // field only if that field is even.
  function Pgaddr(l4: nat, l3: nat, d: nat): nat {
    if d == ENTRIES then l4 * 0x800_0000 + WithCarry(l3) * 0x4_0000
    else if l3 == ENTRIES then WithCarry(l4) * 0x800_0000
    else l4 * 0x800_0000 + l3 * 0x4_0000 + d * 512
  }

  function WithCarry(x: nat): nat {
    if x % 2 == 1 then x else x + 1
  }

  // The same on machine words, in bytes.
  lemma PgaddrBits(l3: bv64, d: bv64)
    requires l3 < 512 && d < 512
    ensures ((l3 << 30) | (512 as bv64 << 21)) == if l3 & 1 == 1 then l3 << 30 else (l3 + 1) << 30
    ensures ((l3 << 30) | (d << 21)) == (l3 << 30) + (d << 21)
  {
  }

  // ---- the tables on the way to a page ----

  // The table below f for this page.
  function Child(pt: Pt, f: nat, page: nat): (c: Option<nat>)
    requires TablesOk(pt) && f in pt.t && pt.tag[f].level > 1
    ensures c.Some? ==> c.value in pt.t && pt.tag[c.value].level == pt.tag[f].level - 1
    ensures WalkTo(pt, f, page) == if c.Some? then WalkTo(pt, c.value, page) else None
  {
    assert TableOk(pt, f);
    var i := Index(pt.tag[f].level, page);
    assert EntryOk(pt, pt.tag[f], i, pt.t[f][i]);
    if pt.t[f][i].Present? then Some(pt.t[f][i].frame) else None
  }

  // find_next_possible_page, one page further: where the loop goes on after a hole.
  function NextHole(pt: Pt, root: nat, page: nat): nat
    requires TablesOk(pt) && root in pt.t && pt.tag[root].level == 4
  {
    match Child(pt, root, page)
    case None => Pgaddr(Index(4, page) + 1, 0, 0)
    case Some(f) =>
      if Child(pt, f, page).None? then Pgaddr(Index(4, page), Index(3, page) + 1, 0)
      else Pgaddr(Index(4, page), Index(3, page), Index(2, page) + 1)
  }

  function NextPage(pt: Pt, root: nat, page: nat): nat
    requires TablesOk(pt) && root in pt.t && pt.tag[root].level == 4
  {
    if WalkTo(pt, root, page).Some? then page + 1 else NextHole(pt, root, page)
  }

  // The page directory of slot l3 is there, and its last entry is not.
  predicate NoLast(pt: Pt, root: nat, l3: nat)
    requires TablesOk(pt) && root in pt.t && pt.tag[root].level == 4
  {
    var last := l3 * 0x4_0000 + 0x3_FFFF;
    match Child(pt, root, last)
    case None => false
    case Some(f) => Child(pt, f, last).Some? && WalkTo(pt, root, last).None?
  }

  // What a jump needs: no odd slot of the user part lacks its last page table.
  predicate Jumpable(pt: Pt, root: nat)
    requires TablesOk(pt) && root in pt.t && pt.tag[root].level == 4
  {
    !NoLast(pt, root, 1) && !NoLast(pt, root, 3)
  }

  // ---- pages that share tables ----

  lemma UserIndices(page: nat)
    requires page < USER
    ensures Index(4, page) == 0 && Index(3, page) == page / 0x4_0000 < 4
    ensures page == Index(3, page) * 0x4_0000 + Index(2, page) * 512 + Index(1, page)
  {
  }

  lemma SameChild(pt: Pt, f: nat, page: nat, other: nat)
    requires TablesOk(pt) && f in pt.t && pt.tag[f].level > 1
    requires Index(pt.tag[f].level, page) == Index(pt.tag[f].level, other)
    ensures Child(pt, f, page) == Child(pt, f, other)
  {
  }

  // A jump never passes a page that has a table.
  lemma HoleIsEmpty(pt: Pt, root: nat, page: nat, p: nat)
    requires TablesOk(pt) && root in pt.t && pt.tag[root].level == 4
    requires page < USER && WalkTo(pt, root, page).None? && page <= p < NextHole(pt, root, page) && p < USER
    ensures WalkTo(pt, root, p).None?
  {
    hide Index, Child, WalkTo;
    UserIndices(page);
    UserIndices(p);
    SameChild(pt, root, page, p);
    match Child(pt, root, page)
    case None =>
    case Some(f) =>
      HoleBounds(page);
      if Child(pt, f, page).None? {
        SameChild(pt, f, page, p);
      } else {
        SameSlots(page, p);
        SameChild(pt, f, page, p);
        var g := Child(pt, f, page).value;
        SameChild(pt, g, page, p);
        if Child(pt, g, page).Some? { WalkLast(pt, Child(pt, g, page).value, page); }
      }
  }

  lemma WalkLast(pt: Pt, f: nat, page: nat)
    requires TablesOk(pt) && f in pt.t && pt.tag[f].level == 1
    ensures WalkTo(pt, f, page) == Some(f)
  {
  }

  lemma HoleBounds(page: nat)
    requires page < USER
    ensures Pgaddr(0, Index(3, page) + 1, 0) == (page / 0x4_0000 + 1) * 0x4_0000
    ensures var a := Pgaddr(0, Index(3, page), Index(2, page) + 1);
      if Index(2, page) + 1 < ENTRIES then a == (page / 512 + 1) * 512
      else if Index(3, page) % 2 == 1 then a == page / 0x4_0000 * 0x4_0000
      else a == (page / 512 + 1) * 512
  {
    UserIndices(page);
  }

  lemma SameSlots(page: nat, p: nat)
    requires page / 512 == p / 512
    ensures Index(2, page) == Index(2, p) && Index(3, page) == Index(3, p)
  {
    BigSlot(page);
    BigSlot(p);
  }

  lemma BigSlot(page: nat)
    ensures page / 0x4_0000 == page / 512 / 512
  {
  }

  // ---- progress ----

  lemma LastPage(page: nat)
    requires page < USER && Index(2, page) == ENTRIES - 1
    ensures var last := Index(3, page) * 0x4_0000 + 0x3_FFFF;
      last < USER && Index(3, last) == Index(3, page) && last / 512 == page / 512
  {
    UserIndices(page);
  }

  // In the last directory slot, no table for this page means no last table.
  lemma NoLastHere(pt: Pt, root: nat, page: nat)
    requires TablesOk(pt) && root in pt.t && pt.tag[root].level == 4 && page < USER
    requires Index(2, page) == ENTRIES - 1 && WalkTo(pt, root, page).None?
    requires Child(pt, root, page).Some? && Child(pt, Child(pt, root, page).value, page).Some?
    ensures NoLast(pt, root, Index(3, page))
  {
    hide Index, Child, WalkTo;
    var last := Index(3, page) * 0x4_0000 + 0x3_FFFF;
    LastPage(page);
    UserIndices(page);
    UserIndices(last);
    SameSlots(page, last);
    SameChild(pt, root, page, last);
    var f := Child(pt, root, page).value;
    SameChild(pt, f, page, last);
    var g := Child(pt, f, page).value;
    SameChild(pt, g, page, last);
    if Child(pt, g, page).Some? { WalkLast(pt, Child(pt, g, page).value, page); }
  }

  lemma Forward(pt: Pt, root: nat, page: nat)
    requires TablesOk(pt) && root in pt.t && pt.tag[root].level == 4 && page < USER && Jumpable(pt, root)
    ensures NextPage(pt, root, page) > page
  {
    hide Index, Child, WalkTo, NoLast;
    UserIndices(page);
    HoleBounds(page);
    if WalkTo(pt, root, page).None? && Child(pt, root, page).Some? && Child(pt, Child(pt, root, page).value, page).Some?
       && Index(2, page) == ENTRIES - 1 {
      NoLastHere(pt, root, page);
    }
  }

  // A slot without its last table is never left.
  lemma Trapped(pt: Pt, root: nat, l3: nat, page: nat)
    requires TablesOk(pt) && root in pt.t && pt.tag[root].level == 4 && l3 < 4 && l3 % 2 == 1 && NoLast(pt, root, l3)
    requires page < (l3 + 1) * 0x4_0000
    ensures NextPage(pt, root, page) < (l3 + 1) * 0x4_0000
  {
    hide Index, Child, WalkTo;
    var last := l3 * 0x4_0000 + 0x3_FFFF;
    UserIndices(page);
    UserIndices(last);
    HoleBounds(page);
    SameChild(pt, root, page, last);
    var f := Child(pt, root, last).value;
    if Index(3, page) == l3 { SameChild(pt, f, page, last); }
    if page == last {
      assert WalkTo(pt, root, page).None?;
    }
  }

  // ---- the loop as a sequence of steps ----

  // The page number after n rounds, from `page` on.
  function After(pt: Pt, root: nat, page: nat, n: nat): nat
    requires TablesOk(pt) && root in pt.t && pt.tag[root].level == 4
    decreases n
  {
    if n == 0 || page >= USER then page else After(pt, root, NextPage(pt, root, page), n - 1)
  }

  lemma {:induction false} NeverLeaves(pt: Pt, root: nat, l3: nat, page: nat, n: nat)
    requires TablesOk(pt) && root in pt.t && pt.tag[root].level == 4 && l3 < 4 && l3 % 2 == 1 && NoLast(pt, root, l3)
    requires page < (l3 + 1) * 0x4_0000
    ensures After(pt, root, page, n) < USER
    decreases n
  {
    hide NextPage, NoLast;
    if n > 0 {
      Trapped(pt, root, l3, page);
      NeverLeaves(pt, root, l3, NextPage(pt, root, page), n - 1);
    }
  }

  lemma {:induction false} Leaves(pt: Pt, root: nat, page: nat) returns (n: nat)
    requires TablesOk(pt) && root in pt.t && pt.tag[root].level == 4 && Jumpable(pt, root)
    ensures After(pt, root, page, n) >= USER
    decreases USER - page
  {
    hide NextPage, Jumpable;
    if page >= USER { return 0; }
    Forward(pt, root, page);
    var m := Leaves(pt, root, NextPage(pt, root, page));
    n := m + 1;
  }

  // deallocuvm over the user part stops exactly when every odd slot that has a page
  // directory has the last page table of it.
  lemma StopsExactly(pt: Pt, root: nat)
    requires TablesOk(pt) && root in pt.t && pt.tag[root].level == 4
    ensures (exists n: nat :: After(pt, root, 0, n) >= USER) <==> Jumpable(pt, root)
  {
    hide NoLast, After;
    if Jumpable(pt, root) {
      var n := Leaves(pt, root, 0);
    } else {
      var l3 := if NoLast(pt, root, 1) then 1 else 3;
      forall n: nat ensures After(pt, root, 0, n) < USER { NeverLeaves(pt, root, l3, 0, n); }
    }
  }

  // A root with one table below it, which has a page directory in slot 1 and nothing else.
  function Lopsided(): Pt {
    var p0 := Pt(map[0 := Blank()], map[0 := Tag(4, 0)]);
    Added(Added(p0, 0, 0, 1), 1, 1, 2)
  }

  lemma LopsidedTree()
    ensures Tree(Lopsided(), 0)
  {
    var p0 := Pt(map[0 := Blank()], map[0 := Tag(4, 0)]);
    assert Tree(p0, 0) by { assert TableOk(p0, 0); }
    AddedTree(p0, 0, 0, 0, 1);
    AddedTree(Added(p0, 0, 0, 1), 0, 1, 1, 2);
  }

  // The directory's last entry is missing: the loop never ends.
  lemma StuckTree()
    ensures exists pt: Pt :: Tree(pt, 0) && TablesOk(pt) && 0 in pt.t && pt.tag[0].level == 4 && !Jumpable(pt, 0)
  {
    hide Tree, TablesOk;
    var pt := Lopsided();
    LopsidedTree();
    TreeFacts(pt, 0);
    var last := 0x7_FFFF;
    assert Index(4, last) == 0 && Index(3, last) == 1 && Index(2, last) == 511;
    assert Child(pt, 0, last) == Some(1) && Child(pt, 1, last) == Some(2) && Child(pt, 2, last) == None;
    assert NoLast(pt, 0, 1);
  }

  // ---- clearing leaves changes no step ----

  // The same tables above the last level.
  predicate SameUpper(a: Pt, b: Pt) {
    && b.tag == a.tag && b.t.Keys == a.t.Keys
    && forall f :: f in a.t && f in a.tag && a.tag[f].level > 1 ==> b.t[f] == a.t[f]
  }

  lemma UpperChild(a: Pt, b: Pt, f: nat, page: nat)
    requires TablesOk(a) && TablesOk(b) && SameUpper(a, b) && f in a.t && a.tag[f].level > 1
    ensures Child(b, f, page) == Child(a, f, page)
  {
  }

  lemma {:induction false} UpperWalk(a: Pt, b: Pt, f: nat, page: nat)
    requires TablesOk(a) && TablesOk(b) && SameUpper(a, b) && f in a.t
    ensures WalkTo(b, f, page) == WalkTo(a, f, page)
    decreases a.tag[f].level
  {
    hide Child;
    assert TableOk(a, f);
    if a.tag[f].level > 1 {
      UpperChild(a, b, f, page);
      if Child(a, f, page).Some? { UpperWalk(a, b, Child(a, f, page).value, page); }
    }
  }

  lemma UpperNext(a: Pt, b: Pt, root: nat, page: nat)
    requires TablesOk(a) && TablesOk(b) && SameUpper(a, b) && root in a.t && a.tag[root].level == 4
    ensures NextHole(b, root, page) == NextHole(a, root, page) && NextPage(b, root, page) == NextPage(a, root, page)
    ensures Jumpable(b, root) == Jumpable(a, root)
  {
    hide Child, WalkTo;
    UpperPath(a, b, root, page);
    UpperPath(a, b, root, 0x7_FFFF);
    UpperPath(a, b, root, 0xF_FFFF);
  }

  lemma UpperPath(a: Pt, b: Pt, root: nat, page: nat)
    requires TablesOk(a) && TablesOk(b) && SameUpper(a, b) && root in a.t && a.tag[root].level == 4
    ensures WalkTo(b, root, page) == WalkTo(a, root, page) && Child(b, root, page) == Child(a, root, page)
    ensures Child(a, root, page).Some? ==>
      Child(b, Child(a, root, page).value, page) == Child(a, Child(a, root, page).value, page)
  {
    hide Child, WalkTo;
    UpperWalk(a, b, root, page);
    UpperChild(a, b, root, page);
    if Child(a, root, page).Some? { UpperChild(a, b, Child(a, root, page).value, page); }
  }

  // ---- the frames the user part maps, in page order ----

  function Frames(pt: Pt, root: nat, hi: nat): seq<nat>
    requires TablesOk(pt) && root in pt.t
  {
    if hi == 0 then []
    else
      var e := Translate(pt, root, hi - 1);
      Frames(pt, root, hi - 1) + if e.Present? then [e.frame] else []
  }

  // Each page that is mapped has its frame in the list, after those of the pages before it,
  // and nothing else is in the list.
  lemma {:induction false} FramesAt(pt: Pt, root: nat, p: nat, hi: nat)
    requires TablesOk(pt) && root in pt.t && p < hi
    ensures Frames(pt, root, p) <= Frames(pt, root, hi)
    ensures Translate(pt, root, p).Present? ==>
      var k := |Frames(pt, root, p)|;
      k < |Frames(pt, root, hi)| && Frames(pt, root, hi)[k] == Translate(pt, root, p).frame
    decreases hi
  {
    hide Translate;
    if p < hi - 1 { FramesAt(pt, root, p, hi - 1); }
  }

  lemma {:induction false} FramesOf(pt: Pt, root: nat, hi: nat, k: nat) returns (p: nat)
    requires TablesOk(pt) && root in pt.t && k < |Frames(pt, root, hi)|
    ensures p < hi && Translate(pt, root, p).Present? && |Frames(pt, root, p)| == k
    decreases hi
  {
    hide Translate;
    if k < |Frames(pt, root, hi - 1)| { p := FramesOf(pt, root, hi - 1, k); } else { p := hi - 1; }
  }

  lemma {:induction false} FramesSkip(pt: Pt, root: nat, lo: nat, hi: nat)
    requires TablesOk(pt) && root in pt.t && lo <= hi
    requires forall p :: lo <= p < hi ==> Translate(pt, root, p).Absent?
    ensures Frames(pt, root, hi) == Frames(pt, root, lo)
    decreases hi - lo
  {
    hide Translate;
    if lo < hi { FramesSkip(pt, root, lo, hi - 1); }
  }
}
