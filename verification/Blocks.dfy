/**
 Disk blocks, and what a sequence of whole-block writes does to a disk.

 A block is moved to and from the disk as BSIZE / 4 32-bit words (`insl`, `outsl`),
 and the log reads it as an array of `uint`; that is the unit here.
 */
module Blocks {
  const BSIZE := 512
  const BLOCK_WORDS := 128

  type word = x: int | 0 <= x < 0x1_0000_0000

  datatype Block = Block(words: seq<word>)

  // Block numbers to contents; the keys are the blocks that exist.
  type Disk = map<nat, Block>

  datatype Write = Write(block: nat, data: Block)

  predicate Whole(b: Block) {
    |b.words| == BLOCK_WORDS
  }

  // memset(p, 0, BSIZE)
  function ZeroBlock(): (b: Block)
    ensures Whole(b) && forall i :: 0 <= i < BLOCK_WORDS ==> b.words[i] == 0
  {
    Block(seq(BLOCK_WORDS, _ => 0))
  }

  // The disk after the writes `ws`, made in order.
  function Apply(d: Disk, ws: seq<Write>): (r: Disk)
  {
    if ws == [] then d
    else Apply(d, ws[..|ws| - 1])[ws[|ws| - 1].block := ws[|ws| - 1].data]
  }

  predicate Misses(ws: seq<Write>, b: nat) {
    forall i :: 0 <= i < |ws| ==> ws[i].block != b
  }

  function BlocksOf(ws: seq<Write>): set<nat> {
    set i | 0 <= i < |ws| :: ws[i].block
  }

  // Write `i` is the last one to its block: the one that decides its contents.
  predicate IsLast(ws: seq<Write>, i: nat) {
    i < |ws| && forall j :: i < j < |ws| ==> ws[j].block != ws[i].block
  }

  lemma {:induction false} ApplyAppend(d: Disk, ws: seq<Write>, vs: seq<Write>)
    ensures Apply(d, ws + vs) == Apply(Apply(d, ws), vs)
  {
    if vs == [] {
      assert ws + vs == ws;
    } else {
      ApplyAppend(d, ws, vs[..|vs| - 1]);
      assert (ws + vs)[..|ws + vs| - 1] == ws + vs[..|vs| - 1];
    }
  }

  lemma ApplySnoc(d: Disk, ws: seq<Write>, w: Write)
    ensures Apply(d, ws + [w]) == Apply(d, ws)[w.block := w.data]
  {
    assert (ws + [w])[..|ws|] == ws;
  }

  // A block nobody wrote is untouched.
  lemma {:induction false} ApplyMisses(d: Disk, ws: seq<Write>, b: nat)
    requires Misses(ws, b)
    ensures b in Apply(d, ws) <==> b in d
    ensures b in d ==> Apply(d, ws)[b] == d[b]
  {
    if ws != [] { ApplyMisses(d, ws[..|ws| - 1], b); }
  }

  // Writes to existing blocks create none.
  lemma {:induction false} ApplyKeys(d: Disk, ws: seq<Write>)
    requires forall i :: 0 <= i < |ws| ==> ws[i].block in d
    ensures Apply(d, ws).Keys == d.Keys
  {
    if ws != [] {
      ApplyKeys(d, ws[..|ws| - 1]);
      assert ws[|ws| - 1].block in d;
    }
  }

  // Last writer wins.
  lemma {:induction false} ApplyLast(d: Disk, ws: seq<Write>, i: nat)
    requires IsLast(ws, i)
    ensures ws[i].block in Apply(d, ws) && Apply(d, ws)[ws[i].block] == ws[i].data
  {
    if i < |ws| - 1 { ApplyLast(d, ws[..|ws| - 1], i); }
  }

  lemma {:induction false} LastExists(ws: seq<Write>, b: nat) returns (i: nat)
    requires !Misses(ws, b)
    ensures IsLast(ws, i) && ws[i].block == b
  {
    i := |ws| - 1;
    if ws[i].block != b {
      assert !Misses(ws[..i], b) by {
        var k :| 0 <= k < |ws| && ws[k].block == b;
        assert ws[..i][k].block == b;
      }
      i := LastExists(ws[..i], b);
    }
  }

  // Whatever disks they start from, the same writes decide the same blocks.
  lemma SameWrites(d: Disk, e: Disk, ws: seq<Write>, b: nat)
    requires Misses(ws, b) ==> (b in d <==> b in e) && (b in d ==> d[b] == e[b])
    ensures b in Apply(d, ws) <==> b in Apply(e, ws)
    ensures b in Apply(d, ws) ==> Apply(d, ws)[b] == Apply(e, ws)[b]
  {
    if Misses(ws, b) {
      ApplyMisses(d, ws, b);
      ApplyMisses(e, ws, b);
    } else {
      var i := LastExists(ws, b);
      ApplyLast(d, ws, i);
      ApplyLast(e, ws, i);
    }
  }

  // Replaying a plan from its start, after any prefix of it has already been done.
  lemma Replay(d: Disk, ws: seq<Write>, k: nat)
    requires k <= |ws|
    ensures Apply(Apply(d, ws[..k]), ws) == Apply(d, ws)
  {
    var part := Apply(d, ws[..k]);
    forall b: nat
      ensures b in Apply(part, ws) <==> b in Apply(d, ws)
      ensures b in Apply(d, ws) ==> Apply(part, ws)[b] == Apply(d, ws)[b]
    {
      if Misses(ws, b) { ApplyMisses(d, ws[..k], b); }
      SameWrites(part, d, ws, b);
    }
  }
}
