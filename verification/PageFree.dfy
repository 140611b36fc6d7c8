/**
 The order in which freevm frees page-table pages (kernel/x86_64vm.c): children first,
 every table exactly once.
 */
module PageFree {
  import opened Prelude
  import opened PageTable

  predicate NoRepeats(s: seq<nat>) {
    forall i, j :: 0 <= i < j < |s| ==> s[i] != s[j]
  }

  // A table and everything below it, in the order it is freed.
  function Post(pt: Pt, f: nat): seq<nat>
    requires TablesOk(pt) && f in pt.t
    decreases pt.tag[f].level, ENTRIES + 1
  {
    assert TableOk(pt, f);
    if pt.tag[f].level == 1 then [f] else Kids(pt, f, ENTRIES) + [f]
  }

  // ... below its first n entries.
  function Kids(pt: Pt, f: nat, n: nat): seq<nat>
    requires TablesOk(pt) && f in pt.t && pt.tag[f].level > 1 && n <= ENTRIES
    decreases pt.tag[f].level, n
  {
    if n == 0 then []
    else
      assert TableOk(pt, f) && EntryOk(pt, pt.tag[f], n - 1, pt.t[f][n - 1]);
      Kids(pt, f, n - 1) + if pt.t[f][n - 1].Present? then Post(pt, pt.t[f][n - 1].frame) else []
  }

  // ---- where the listed tables sit ----

  function ParentTag(a: Tag): Tag {
    Tag(a.level + 1, a.prefix / ENTRIES)
  }

  // The place above `a` at this level.
  function Ancestor(a: Tag, level: nat): Tag
    decreases level - a.level
  {
    if a.level >= level then a else Ancestor(ParentTag(a), level)
  }

  lemma {:induction false} AncestorUp(a: Tag, level: nat)
    requires a.level <= level
    ensures Ancestor(a, level + 1) == ParentTag(Ancestor(a, level))
    decreases level - a.level
  {
    if a.level < level { AncestorUp(ParentTag(a), level); }
  }

  lemma ChildParent(tg: Tag, i: nat)
    requires tg.level > 0 && i < ENTRIES
    ensures ParentTag(ChildTag(tg, i)) == tg
  {
  }

  predicate Below(a: Tag, b: Tag) {
    a.level <= b.level && Ancestor(a, b.level) == b
  }

  lemma {:induction false} PostBelow(pt: Pt, f: nat, c: nat)
    requires TablesOk(pt) && f in pt.t && c in Post(pt, f)
    ensures c in pt.t && c in pt.tag && Below(pt.tag[c], pt.tag[f])
    decreases pt.tag[f].level, ENTRIES + 1
  {
    if c != f { var i := KidsBelow(pt, f, ENTRIES, c); }
  }

  lemma {:induction false} KidsBelow(pt: Pt, f: nat, n: nat, c: nat) returns (i: nat)
    requires TablesOk(pt) && f in pt.t && pt.tag[f].level > 1 && n <= ENTRIES && c in Kids(pt, f, n)
    ensures i < n && c in pt.t && c in pt.tag && Below(pt.tag[c], ChildTag(pt.tag[f], i)) && Below(pt.tag[c], pt.tag[f])
    ensures pt.tag[c].level < pt.tag[f].level
    decreases pt.tag[f].level, n
  {
    hide ParentTag, Ancestor;
    if c in Kids(pt, f, n - 1) {
      i := KidsBelow(pt, f, n - 1, c);
    } else {
      i := n - 1;
      assert TableOk(pt, f) && EntryOk(pt, pt.tag[f], i, pt.t[f][i]);
      PostBelow(pt, pt.t[f][i].frame, c);
      AncestorUp(pt.tag[c], pt.tag[f].level - 1);
      ChildParent(pt.tag[f], i);
    }
  }

  // ---- each once ----

  lemma {:induction false} PostOnce(pt: Pt, f: nat)
    requires TablesOk(pt) && f in pt.t
    ensures NoRepeats(Post(pt, f))
    decreases pt.tag[f].level, ENTRIES + 1
  {
    hide Below;
    assert TableOk(pt, f);
    if pt.tag[f].level > 1 {
      KidsOnce(pt, f, ENTRIES);
      if f in Kids(pt, f, ENTRIES) { var i := KidsBelow(pt, f, ENTRIES, f); }
    }
  }

  lemma {:induction false} KidsOnce(pt: Pt, f: nat, n: nat)
    requires TablesOk(pt) && f in pt.t && pt.tag[f].level > 1 && n <= ENTRIES
    ensures NoRepeats(Kids(pt, f, n))
    decreases pt.tag[f].level, n
  {
    hide ParentTag, Ancestor;
    if n > 0 {
      KidsOnce(pt, f, n - 1);
      assert TableOk(pt, f) && EntryOk(pt, pt.tag[f], n - 1, pt.t[f][n - 1]);
      if pt.t[f][n - 1].Present? {
        var g := pt.t[f][n - 1].frame;
        PostOnce(pt, g);
        PostAllBelow(pt, g);
        forall c | c in Kids(pt, f, n - 1) ensures c !in Post(pt, g) {
          var i := KidsBelow(pt, f, n - 1, c);
          Siblings(pt.tag[f], i, n - 1);
        }
        OnceTogether(Kids(pt, f, n - 1), Post(pt, g));
      }
    }
  }

  lemma PostAllBelow(pt: Pt, g: nat)
    requires TablesOk(pt) && g in pt.t
    ensures forall c :: c in Post(pt, g) ==> c in pt.t && c in pt.tag && Below(pt.tag[c], pt.tag[g])
    decreases pt.tag[g].level, ENTRIES + 2
  {
    hide Post, Below;
    forall c | c in Post(pt, g) ensures c in pt.t && c in pt.tag && Below(pt.tag[c], pt.tag[g]) { PostBelow(pt, g, c); }
  }

  lemma Siblings(tg: Tag, i: nat, j: nat)
    requires tg.level > 0 && i < j
    ensures ChildTag(tg, i) != ChildTag(tg, j)
  {
  }

  lemma OnceTogether(a: seq<nat>, b: seq<nat>)
    requires NoRepeats(a) && NoRepeats(b) && forall c :: c in a ==> c !in b
    ensures NoRepeats(a + b)
  {
    forall i, j | 0 <= i < j < |a + b| ensures (a + b)[i] != (a + b)[j] {
      if i < |a| <= j { assert (a + b)[i] in a && (a + b)[j] in b; }
    }
  }

  // ---- all of them ----

  lemma {:induction false} PostHasKid(pt: Pt, f: nat, h: nat, j: nat, c: nat)
    requires TablesOk(pt) && f in pt.t && h in Post(pt, f) && IsChild(pt, h, j, c)
    ensures c in Post(pt, f)
    decreases pt.tag[f].level, ENTRIES + 1
  {
    assert TableOk(pt, f) && TableOk(pt, h);
    if pt.tag[f].level > 1 {
      if h == f {
        assert EntryOk(pt, pt.tag[f], j, pt.t[f][j]);
        KidListed(pt, f, ENTRIES, j);
      } else {
        KidsHaveKid(pt, f, ENTRIES, h, j, c);
      }
    }
  }

  lemma {:induction false} KidsHaveKid(pt: Pt, f: nat, n: nat, h: nat, j: nat, c: nat)
    requires TablesOk(pt) && f in pt.t && pt.tag[f].level > 1 && n <= ENTRIES && h in Kids(pt, f, n)
    requires IsChild(pt, h, j, c)
    ensures c in Kids(pt, f, n)
    decreases pt.tag[f].level, n
  {
    if h in Kids(pt, f, n - 1) {
      KidsHaveKid(pt, f, n - 1, h, j, c);
    } else {
      assert TableOk(pt, f) && EntryOk(pt, pt.tag[f], n - 1, pt.t[f][n - 1]);
      PostHasKid(pt, pt.t[f][n - 1].frame, h, j, c);
    }
  }

  lemma {:induction false} KidListed(pt: Pt, f: nat, n: nat, j: nat)
    requires TablesOk(pt) && f in pt.t && pt.tag[f].level > 1 && j < n <= ENTRIES
    requires j < |pt.t[f]| && pt.t[f][j].Present?
    ensures pt.t[f][j].frame in Kids(pt, f, n)
    decreases n
  {
    assert TableOk(pt, f) && EntryOk(pt, pt.tag[f], n - 1, pt.t[f][n - 1]);
    if j < n - 1 { KidListed(pt, f, n - 1, j); } else { assert TableOk(pt, pt.t[f][j].frame); }
  }

  lemma {:induction false} PostHasAll(pt: Pt, root: nat, c: nat)
    requires Tree(pt, root) && c in pt.t
    ensures c in Post(pt, root)
    decreases 4 - pt.tag[c].level
  {
    assert TableOk(pt, root) && TableOk(pt, c);
    if c != root {
      var h, j := Parent(pt, root, c);
      assert TableOk(pt, h);
      PostHasAll(pt, root, h);
      PostHasKid(pt, root, h, j, c);
    }
  }

  // freevm's list names every table of the tree, and each exactly once.
  lemma EveryTableOnce(pt: Pt, root: nat)
    requires Tree(pt, root)
    ensures NoRepeats(Post(pt, root)) && forall c :: c in Post(pt, root) <==> c in pt.t
  {
    hide Post;
    PostOnce(pt, root);
    forall c ensures c in Post(pt, root) <==> c in pt.t {
      if c in pt.t { PostHasAll(pt, root, c); }
      if c in Post(pt, root) { PostBelow(pt, root, c); }
    }
  }

  // ---- entry by entry ----

  lemma {:induction false} KidsPrefix(pt: Pt, f: nat, n: nat, m: nat)
    requires TablesOk(pt) && f in pt.t && pt.tag[f].level > 1 && n <= m <= ENTRIES
    ensures Kids(pt, f, n) <= Kids(pt, f, m)
    decreases m - n
  {
    if n < m { KidsPrefix(pt, f, n, m - 1); }
  }

  lemma SelfNotKid(pt: Pt, f: nat, n: nat)
    requires TablesOk(pt) && f in pt.t && pt.tag[f].level > 1 && n <= ENTRIES
    ensures f !in Kids(pt, f, n)
  {
    if f in Kids(pt, f, n) { var i := KidsBelow(pt, f, n, f); }
  }

  // The child at entry i, and all below it, come next and are not listed before.
  lemma NextKid(pt: Pt, f: nat, i: nat)
    requires TablesOk(pt) && f in pt.t && pt.tag[f].level > 1 && i < ENTRIES && i < |pt.t[f]| && pt.t[f][i].Present?
    ensures var c := pt.t[f][i].frame;
      && c in pt.t && c in pt.tag && pt.tag[c].level == pt.tag[f].level - 1
      && Kids(pt, f, i + 1) == Kids(pt, f, i) + Post(pt, c)
      && (forall x :: x in Post(pt, c) ==> x in Post(pt, f) && x !in Kids(pt, f, i))
  {
    assert TableOk(pt, f) && EntryOk(pt, pt.tag[f], i, pt.t[f][i]);
    var c := pt.t[f][i].frame;
    KidsOnce(pt, f, i + 1);
    KidsPrefix(pt, f, i + 1, ENTRIES);
    var a, b := Kids(pt, f, i), Post(pt, c);
    forall x | x in b ensures x in Post(pt, f) {
      var k :| 0 <= k < |b| && b[k] == x;
      assert (a + b)[|a| + k] == x && (a + b)[|a| + k] in Kids(pt, f, ENTRIES);
    }
    OnceApart(a, b);
  }

  lemma OnceApart(a: seq<nat>, b: seq<nat>)
    requires NoRepeats(a + b)
    ensures forall x :: x in b ==> x !in a
  {
    forall j, k | 0 <= j < |a| && 0 <= k < |b| ensures a[j] != b[k] {
      assert (a + b)[j] == a[j] && (a + b)[|a| + k] == b[k];
    }
  }
}
