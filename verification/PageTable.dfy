/**
 The four-level page table of kernel/x86_64vm.c (4-level paging, section 4.5 of the
 Intel SDM, volume 3A), as a value: tables in page frames, and what a walk finds.

 Addresses are page numbers; levels are 4 (PML4), 3 (PDPT), 2 (page directory) and 1.
 */
module PageTable {
  import opened Prelude

  const ENTRIES := 512
  const MAX_PAGE := 0x10_0000_0000

  // An entry without PTE_P, or one that names a frame.
  datatype Entry = Absent | Present(frame: nat, writable: bool)

  type Tables = map<nat, seq<Entry>>

  // Where a table sits in the tree: its level and the page-number bits above it.
  datatype Tag = Tag(level: nat, prefix: nat)

  datatype Pt = Pt(t: Tables, tag: map<nat, Tag>)

  // Pages covered by one entry of a table at this level.
  function Reach(level: nat): (r: nat)
    ensures r > 0
  {
    if level <= 1 then 1 else if level == 2 then 512 else if level == 3 then 0x4_0000 else 0x800_0000
  }

  function Index(level: nat, page: nat): (i: nat)
    ensures i < ENTRIES
  {
    page / Reach(level) % ENTRIES
  }

  function Blank(): (b: seq<Entry>)
    ensures |b| == ENTRIES && forall i :: 0 <= i < ENTRIES ==> b[i].Absent?
  {
    seq(ENTRIES, _ => Absent)
  }

  // ---- the tree ----

  // Entry i of a table at tag tg leads to the table just below it.
  function ChildTag(tg: Tag, i: nat): Tag
    requires tg.level > 0
  {
    Tag(tg.level - 1, tg.prefix * ENTRIES + i)
  }

  predicate EntryOk(pt: Pt, tg: Tag, i: nat, e: Entry) {
    e.Present? && tg.level > 1 ==> e.frame in pt.t && e.frame in pt.tag && pt.tag[e.frame] == ChildTag(tg, i)
  }

  predicate TableOk(pt: Pt, f: nat) {
    && f in pt.t && f in pt.tag
    && |pt.t[f]| == ENTRIES && 1 <= pt.tag[f].level <= 4
    && forall i :: 0 <= i < ENTRIES ==> EntryOk(pt, pt.tag[f], i, pt.t[f][i])
  }

  predicate TablesOk(pt: Pt) {
    pt.tag.Keys == pt.t.Keys && forall f :: f in pt.t ==> TableOk(pt, f)
  }

  // Each table has its own place, and each but the root is some entry's child.
  ghost predicate Tree(pt: Pt, root: nat) {
    && TablesOk(pt) && root in pt.t && pt.tag[root] == Tag(4, 0)
    && Distinct(pt) && Rooted(pt, root)
  }

  ghost predicate Distinct(pt: Pt) {
    forall f, g :: f in pt.tag && g in pt.tag && pt.tag[f] == pt.tag[g] ==> f == g
  }

  ghost predicate Rooted(pt: Pt, root: nat) {
    forall c :: c in pt.t && c != root ==> exists f, i :: IsChild(pt, f, i, c)
  }

  predicate IsChild(pt: Pt, f: nat, i: nat, c: nat) {
    f in pt.t && f in pt.tag && pt.tag[f].level > 1 && i < |pt.t[f]| && pt.t[f][i].Present? && pt.t[f][i].frame == c
  }

  // ---- walking ----

  // walkpml4 without alloc, from table f: the level-1 table, if all tables are there.
  function WalkTo(pt: Pt, f: nat, page: nat): (r: Option<nat>)
    requires TablesOk(pt) && f in pt.t
    ensures r.Some? ==> r.value in pt.t && pt.tag[r.value] == Tag(1, Under(pt.tag[f], page))
    decreases pt.tag[f].level
  {
    assert TableOk(pt, f);
    if pt.tag[f].level == 1 then Some(f)
    else
      var i := Index(pt.tag[f].level, page);
      assert EntryOk(pt, pt.tag[f], i, pt.t[f][i]);
      if pt.t[f][i].Absent? then None else WalkTo(pt, pt.t[f][i].frame, page)
  }

  // The prefix of the level-1 table that a walk for this page reaches from a table.
  function Under(tg: Tag, page: nat): nat
    decreases tg.level
  {
    if tg.level <= 1 then tg.prefix else Under(ChildTag(tg, Index(tg.level, page)), page)
  }

  // From the root, that prefix is the page number without its last nine bits.
  lemma UnderRoot(page: nat)
    requires page < MAX_PAGE
    ensures Under(Tag(4, 0), page) == page / ENTRIES
  {
    hide Index;
    var a, b, c := Index(4, page), Index(3, page), Index(2, page);
    UnderFolds(page);
    assert Under(Tag(4, 0), page) == Under(Tag(3, a), page) == Under(Tag(2, a * ENTRIES + b), page)
      == (a * ENTRIES + b) * ENTRIES + c;
  }

  lemma UnderFolds(page: nat)
    requires page < MAX_PAGE
    ensures (Index(4, page) * ENTRIES + Index(3, page)) * ENTRIES + Index(2, page) == page / ENTRIES
  {
    assert Index(4, page) == page / 0x800_0000;
  }

  // The entry that maps a page, if any.
  function Translate(pt: Pt, f: nat, page: nat): Entry
    requires TablesOk(pt) && f in pt.t
  {
    match WalkTo(pt, f, page)
    case None => Absent
    case Some(g) => assert TableOk(pt, g); pt.t[g][Index(1, page)]
  }

  // ---- adding a table ----

  function Added(pt: Pt, f: nat, i: nat, c: nat): Pt
    requires f in pt.t && f in pt.tag && i < |pt.t[f]| && pt.tag[f].level > 1
  {
    Pt(pt.t[f := pt.t[f][i := Present(c, true)]][c := Blank()], pt.tag[c := ChildTag(pt.tag[f], i)])
  }

  lemma AddedOk(pt: Pt, f: nat, i: nat, c: nat)
    requires TablesOk(pt) && f in pt.t && pt.tag[f].level > 1 && i < ENTRIES && c !in pt.t
    ensures |pt.t[f]| == ENTRIES && TablesOk(Added(pt, f, i, c))
  {
    assert TableOk(pt, f);
    var n := Added(pt, f, i, c);
    forall g | g in n.t ensures TableOk(n, g) {
      if g != c {
        assert TableOk(pt, g);
        forall k | 0 <= k < ENTRIES ensures EntryOk(n, n.tag[g], k, n.t[g][k]) {
          assert EntryOk(pt, pt.tag[g], k, pt.t[g][k]);
        }
      }
    }
  }

  // A new blank table where there was none translates nothing new.
  lemma {:induction false} AddedTranslates(pt: Pt, f: nat, i: nat, c: nat, g: nat, page: nat)
    requires TablesOk(pt) && f in pt.t && pt.tag[f].level > 1 && i < ENTRIES && c !in pt.t && g in pt.t
    requires |pt.t[f]| == ENTRIES && pt.t[f][i].Absent? && TablesOk(Added(pt, f, i, c))
    ensures Translate(Added(pt, f, i, c), g, page) == Translate(pt, g, page)
    decreases pt.tag[g].level
  {
    var n := Added(pt, f, i, c);
    assert TableOk(pt, g) && TableOk(n, g);
    if pt.tag[g].level > 1 {
      var k := Index(pt.tag[g].level, page);
      assert EntryOk(pt, pt.tag[g], k, pt.t[g][k]) && EntryOk(n, n.tag[g], k, n.t[g][k]);
      if g == f && k == i {
        BlankTranslates(n, c, page);
      } else if pt.t[g][k].Present? {
        AddedTranslates(pt, f, i, c, pt.t[g][k].frame, page);
      }
    }
  }

  lemma BlankTranslates(pt: Pt, c: nat, page: nat)
    requires TablesOk(pt) && c in pt.t && pt.t[c] == Blank()
    ensures Translate(pt, c, page).Absent?
  {
    assert TableOk(pt, c);
  }

  lemma ChildTagInjective(a: Tag, i: nat, b: Tag, j: nat)
    requires a.level > 0 && b.level > 0 && i < ENTRIES && j < ENTRIES && ChildTag(a, i) == ChildTag(b, j)
    ensures a == b && i == j
  {
  }

  lemma Parent(pt: Pt, root: nat, g: nat) returns (h: nat, j: nat)
    requires Tree(pt, root) && g in pt.t && g != root
    ensures IsChild(pt, h, j, g) && j < ENTRIES && g in pt.tag && pt.tag[g] == ChildTag(pt.tag[h], j)
  {
    h, j :| IsChild(pt, h, j, g);
    assert TableOk(pt, h) && EntryOk(pt, pt.tag[h], j, pt.t[h][j]);
  }

  // The place below an absent entry is free.
  lemma PlaceFree(pt: Pt, root: nat, f: nat, i: nat, g: nat)
    requires Tree(pt, root) && f in pt.t && f in pt.tag && 1 < pt.tag[f].level <= 4 && i < ENTRIES && g in pt.t
    requires g in pt.tag
    requires |pt.t[f]| == ENTRIES && pt.t[f][i].Absent?
    ensures pt.tag[g] != ChildTag(pt.tag[f], i)
  {
    hide TablesOk, ChildTag, Rooted;
    if pt.tag[g] == ChildTag(pt.tag[f], i) {
      if g != root {
        var h, j := Parent(pt, root, g);
        ChildTagInjective(pt.tag[f], i, pt.tag[h], j);
      } else {
        ChildLevel(pt.tag[f], i);
      }
    }
  }

  lemma ChildLevel(tg: Tag, i: nat)
    requires tg.level > 0
    ensures ChildTag(tg, i).level == tg.level - 1
  {
  }

  lemma AddedTree(pt: Pt, root: nat, f: nat, i: nat, c: nat)
    requires Tree(pt, root) && f in pt.t && f in pt.tag && 1 < pt.tag[f].level <= 4 && i < ENTRIES && c !in pt.t
    requires |pt.t[f]| == ENTRIES && pt.t[f][i].Absent?
    ensures Tree(Added(pt, f, i, c), root)
  {
    hide TablesOk, ChildTag, Distinct, Rooted;
    AddedOk(pt, f, i, c);
    SameKeys(pt);
    AddedDistinct(pt, root, f, i, c);
    AddedRooted(pt, root, f, i, c);
  }

  lemma AddedDistinct(pt: Pt, root: nat, f: nat, i: nat, c: nat)
    requires Tree(pt, root) && f in pt.t && f in pt.tag && 1 < pt.tag[f].level <= 4 && i < ENTRIES && c !in pt.t
    requires |pt.t[f]| == ENTRIES && pt.t[f][i].Absent? && pt.tag.Keys == pt.t.Keys
    ensures Distinct(Added(pt, f, i, c))
  {
    hide TablesOk, ChildTag, Rooted;
    forall g | g in pt.t ensures g in pt.tag && pt.tag[g] != ChildTag(pt.tag[f], i) {
      PlaceFree(pt, root, f, i, g);
    }
  }

  lemma SameKeys(pt: Pt)
    requires TablesOk(pt)
    ensures pt.tag.Keys == pt.t.Keys
  {
  }

  lemma AddedRooted(pt: Pt, root: nat, f: nat, i: nat, c: nat)
    requires Rooted(pt, root) && f in pt.t && f in pt.tag && 1 < pt.tag[f].level && i < |pt.t[f]| && c !in pt.t
    requires c !in pt.tag
    requires pt.t[f][i].Absent?
    ensures Rooted(Added(pt, f, i, c), root)
  {
    var n := Added(pt, f, i, c);
    forall d | d in n.t && d != root ensures exists h, j :: IsChild(n, h, j, d) {
      if d == c {
        assert IsChild(n, f, i, c);
      } else {
        var h, j :| IsChild(pt, h, j, d);
        assert IsChild(n, h, j, d);
      }
    }
  }

  // ---- setting a leaf ----

  function Leafed(pt: Pt, g: nat, k: nat, e: Entry): Pt
    requires g in pt.t && k < |pt.t[g]|
  {
    pt.(t := pt.t[g := pt.t[g][k := e]])
  }

  lemma LeafedTree(pt: Pt, root: nat, g: nat, k: nat, e: Entry)
    requires Tree(pt, root) && g in pt.t && pt.tag[g].level == 1 && k < ENTRIES
    ensures |pt.t[g]| == ENTRIES && Tree(Leafed(pt, g, k, e), root)
  {
    hide Distinct;
    LeafedOk(pt, g, k, e);
    var n := Leafed(pt, g, k, e);
    SameTags(pt, n);
    forall d | d in n.t && d != root ensures exists h, j :: IsChild(n, h, j, d) {
      var h, j :| IsChild(pt, h, j, d);
      assert IsChild(n, h, j, d);
    }
  }

  lemma SameTags(pt: Pt, n: Pt)
    requires Distinct(pt) && n.tag == pt.tag
    ensures Distinct(n)
  {
  }

  lemma LeafedOk(pt: Pt, g: nat, k: nat, e: Entry)
    requires TablesOk(pt) && g in pt.t && pt.tag[g].level == 1 && k < ENTRIES
    ensures |pt.t[g]| == ENTRIES && TablesOk(Leafed(pt, g, k, e))
  {
    assert TableOk(pt, g);
    var n := Leafed(pt, g, k, e);
    forall f | f in n.t ensures TableOk(n, f) {
      assert TableOk(pt, f);
      forall i | 0 <= i < ENTRIES ensures EntryOk(n, n.tag[f], i, n.t[f][i]) {
        assert EntryOk(pt, pt.tag[f], i, pt.t[f][i]);
      }
    }
  }

  lemma {:induction false} LeafedWalk(pt: Pt, g: nat, k: nat, e: Entry, f: nat, page: nat)
    requires TablesOk(pt) && g in pt.t && pt.tag[g].level == 1 && k < |pt.t[g]| && TablesOk(Leafed(pt, g, k, e))
    requires f in pt.t
    ensures WalkTo(Leafed(pt, g, k, e), f, page) == WalkTo(pt, f, page)
    decreases pt.tag[f].level
  {
    var n := Leafed(pt, g, k, e);
    assert TableOk(pt, f) && TableOk(n, f);
    if pt.tag[f].level > 1 {
      var i := Index(pt.tag[f].level, page);
      assert EntryOk(pt, pt.tag[f], i, pt.t[f][i]);
      if pt.t[f][i].Present? { LeafedWalk(pt, g, k, e, pt.t[f][i].frame, page); }
    }
  }

  // Setting the leaf of one page changes that page's translation and no other.
  lemma LeafedTranslates(pt: Pt, root: nat, page: nat, g: nat, e: Entry, other: nat)
    requires Tree(pt, root) && page < MAX_PAGE && other < MAX_PAGE && WalkTo(pt, root, page) == Some(g)
    ensures |pt.t[g]| == ENTRIES && Tree(Leafed(pt, g, Index(1, page), e), root)
    ensures Translate(Leafed(pt, g, Index(1, page), e), root, other) ==
      if other == page then e else Translate(pt, root, other)
  {
    hide Tree, Index, Under;
    LeafedTree(pt, root, g, Index(1, page), e);
    TreeFacts(pt, root);
    LeafedWalk(pt, g, Index(1, page), e, root, other);
    UnderRoot(page);
    UnderRoot(other);
    SplitPage(page, other);
  }

  lemma TreeFacts(pt: Pt, root: nat)
    requires Tree(pt, root)
    ensures TablesOk(pt) && root in pt.t && pt.tag[root] == Tag(4, 0)
    ensures Distinct(pt)
  {
  }

  lemma SplitPage(page: nat, other: nat)
    ensures page / ENTRIES == other / ENTRIES && Index(1, page) == Index(1, other) ==> page == other
  {
  }

  // ---- translations as a whole ----

  ghost predicate SameTranslations(a: Pt, b: Pt, root: nat) {
    && Tree(a, root) && Tree(b, root)
    && forall p :: 0 <= p < MAX_PAGE ==> Translate(b, root, p) == Translate(a, root, p)
  }

  lemma AddedSame(pt: Pt, root: nat, f: nat, i: nat, c: nat)
    requires Tree(pt, root) && f in pt.t && f in pt.tag && pt.tag[f].level > 1 && i < ENTRIES && c !in pt.t
    requires |pt.t[f]| == ENTRIES && pt.t[f][i].Absent?
    ensures SameTranslations(pt, Added(pt, f, i, c), root)
  {
    hide Translate;
    assert TableOk(pt, f);
    AddedTree(pt, root, f, i, c);
    forall p | 0 <= p < MAX_PAGE ensures Translate(Added(pt, f, i, c), root, p) == Translate(pt, root, p) {
      AddedTranslates(pt, f, i, c, root, p);
    }
  }

  lemma SameTransitive(a: Pt, b: Pt, c: Pt, root: nat)
    requires SameTranslations(a, b, root) && SameTranslations(b, c, root)
    ensures SameTranslations(a, c, root)
  {
    hide Tree, Translate;
  }

  // b differs from a by the translation of one page.
  ghost predicate OneChanged(a: Pt, b: Pt, root: nat, page: nat, e: Entry) {
    && Tree(a, root) && Tree(b, root)
    && forall p :: 0 <= p < MAX_PAGE ==> Translate(b, root, p) == if p == page then e else Translate(a, root, p)
  }

  lemma LeafedChanges(pt: Pt, root: nat, page: nat, g: nat, e: Entry)
    requires Tree(pt, root) && page < MAX_PAGE && WalkTo(pt, root, page) == Some(g)
    ensures g in pt.t && |pt.t[g]| == ENTRIES && OneChanged(pt, Leafed(pt, g, Index(1, page), e), root, page, e)
  {
    hide Translate, Index, Tree;
    LeafedTranslates(pt, root, page, g, e, 0);
    TreeFacts(pt, root);
    TreeFacts(Leafed(pt, g, Index(1, page), e), root);
    forall p | 0 <= p < MAX_PAGE
      ensures Translate(Leafed(pt, g, Index(1, page), e), root, p) == if p == page then e else Translate(pt, root, p)
    {
      LeafedTranslates(pt, root, page, g, e, p);
    }
  }
}
