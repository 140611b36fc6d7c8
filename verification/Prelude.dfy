/** Definitions that several modules share. */
module Prelude {
  const PGSIZE := 4096

  datatype Option<T> = None | Some(value: T)

  function Min(a: int, b: int): int {
    if a < b then a else b
  }

  function Max(a: int, b: int): int {
    if a < b then b else a
  }

  // All the sequences one after another.
  function Flatten<T>(ss: seq<seq<T>>): seq<T> {
    if ss == [] then [] else Flatten(ss[..|ss| - 1]) + ss[|ss| - 1]
  }

  lemma FlattenStep<T>(ss: seq<seq<T>>, i: nat)
    requires i < |ss|
    ensures Flatten(ss[..i + 1]) == Flatten(ss[..i]) + ss[i] && |Flatten(ss[..i + 1])| <= |Flatten(ss)|
  {
    assert ss[..i + 1][..i] == ss[..i];
    FlattenGrows(ss, i + 1);
  }

  lemma {:induction false} FlattenGrows<T>(ss: seq<seq<T>>, i: nat)
    requires i <= |ss|
    ensures |Flatten(ss[..i])| <= |Flatten(ss)|
    decreases |ss|
  {
    if i == |ss| {
      assert ss[..i] == ss;
    } else {
      FlattenGrows(ss[..|ss| - 1], i);
      assert ss[..|ss| - 1][..i] == ss[..i];
    }
  }
}
