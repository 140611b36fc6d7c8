/**
 The regular-expression matcher of user/grep.c (The Practice of Programming, chapter 9)
 against a declarative meaning of patterns.  The end of a sequence is the terminator.
 */
module Regex {
  // c, or any character if c is '.'; once, or any number of times.
  datatype Item = One(c: char) | Many(c: char)

  predicate Fits(c: char, x: char) {
    c == '.' || c == x
  }

  // ---- what a pattern says ----

  function Items(re: string): seq<Item> {
    if re == [] then []
    else if |re| > 1 && re[1] == '*' then [Many(re[0])] + Items(re[2..])
    else if re == "$" then []
    else [One(re[0])] + Items(re[1..])
  }

  // A final $ ties the match to the end of the text.
  predicate Anchored(re: string) {
    if re == [] then false
    else if |re| > 1 && re[1] == '*' then Anchored(re[2..])
    else if re == "$" then true
    else Anchored(re[1..])
  }

  predicate AllFit(c: char, s: string) {
    forall i :: 0 <= i < |s| ==> Fits(c, s[i])
  }

  // The items, one after another, make up all of s.
  predicate Denotes(items: seq<Item>, s: string)
    decreases |items|
  {
    if items == [] then s == []
    else
      match items[0]
      case One(c) => s != [] && Fits(c, s[0]) && Denotes(items[1..], s[1..])
      case Many(c) => exists k :: 0 <= k <= |s| && AllFit(c, s[..k]) && Denotes(items[1..], s[k..])
  }

  // The text begins with a match that uses its first k characters.
  predicate BeginsWith(re: string, text: string, k: nat) {
    k <= |text| && Denotes(Items(re), text[..k]) && (Anchored(re) ==> k == |text|)
  }

  predicate Begins(re: string, text: string) {
    exists k :: 0 <= k <= |text| && BeginsWith(re, text, k)
  }

  // Some position begins a match; with a leading ^, the first one.
  predicate Occurs(re: string, text: string) {
    if re != [] && re[0] == '^' then Begins(re[1..], text)
    else exists i :: 0 <= i <= |text| && Begins(re, text[i..])
  }

  // ---- one step of the pattern ----

  lemma BeginsEmpty(text: string)
    ensures Begins("", text)
  {
    assert BeginsWith("", text, 0);
  }

  lemma BeginsEnd(text: string)
    ensures Begins("$", text) <==> text == []
  {
    if text == [] { assert BeginsWith("$", text, 0); }
  }

  lemma BeginsOne(re: string, text: string)
    requires re != [] && !(|re| > 1 && re[1] == '*') && re != "$"
    ensures Begins(re, text) <==> text != [] && Fits(re[0], text[0]) && Begins(re[1..], text[1..])
  {
    assert Items(re)[0] == One(re[0]) && Items(re)[1..] == Items(re[1..]);
    if Begins(re, text) {
      var k :| 0 <= k <= |text| && BeginsWith(re, text, k);
      assert text[..k][1..] == text[1..][..k - 1];
      assert BeginsWith(re[1..], text[1..], k - 1);
    }
    if text != [] && Fits(re[0], text[0]) && Begins(re[1..], text[1..]) {
      var k :| 0 <= k <= |text[1..]| && BeginsWith(re[1..], text[1..], k);
      assert text[..k + 1][1..] == text[1..][..k];
      assert BeginsWith(re, text, k + 1);
    }
  }

  predicate StarBegins(c: char, re: string, text: string) {
    exists j :: 0 <= j <= |text| && AllFit(c, text[..j]) && Begins(re, text[j..])
  }

  lemma BeginsMany(re: string, text: string)
    requires |re| > 1 && re[1] == '*'
    ensures Begins(re, text) <==> StarBegins(re[0], re[2..], text)
  {
    assert Items(re)[0] == Many(re[0]) && Items(re)[1..] == Items(re[2..]);
    if Begins(re, text) {
      var k :| 0 <= k <= |text| && BeginsWith(re, text, k);
      var j :| 0 <= j <= k && AllFit(re[0], text[..k][..j]) && Denotes(Items(re[2..]), text[..k][j..]);
      assert text[..k][..j] == text[..j] && text[..k][j..] == text[j..][..k - j];
      assert BeginsWith(re[2..], text[j..], k - j);
    }
    if StarBegins(re[0], re[2..], text) {
      var j :| 0 <= j <= |text| && AllFit(re[0], text[..j]) && Begins(re[2..], text[j..]);
      var k :| 0 <= k <= |text[j..]| && BeginsWith(re[2..], text[j..], k);
      assert text[..j + k][..j] == text[..j] && text[..j + k][j..] == text[j..][..k];
      assert BeginsWith(re, text, j + k);
    }
  }

  // ---- user/grep.c ----

  method MatchHere(re: string, text: string) returns (r: bool)
    ensures r <==> Begins(re, text)
    decreases |re|, 1
  {
    if re == [] {
      BeginsEmpty(text);
      return true;
    }
    if |re| > 1 && re[1] == '*' {
      BeginsMany(re, text);
      r := MatchStar(re[0], re[2..], text);
      return;
    }
    if re == "$" {
      BeginsEnd(text);
      return text == [];
    }
    BeginsOne(re, text);
    if text != [] && (re[0] == '.' || re[0] == text[0]) {
      r := MatchHere(re[1..], text[1..]);
      return;
    }
    return false;
  }

  method MatchStar(c: char, re: string, text: string) returns (r: bool)
    ensures r <==> StarBegins(c, re, text)
    decreases |re|, 2
  {
    var i := 0;
    while true
      invariant 0 <= i <= |text| && AllFit(c, text[..i])
      invariant forall j :: 0 <= j < i ==> !Begins(re, text[j..])
      decreases |text| - i
    {
      r := MatchHere(re, text[i..]);
      if r {
        return true;
      }
      if i == |text| || !(text[i] == c || c == '.') {
        StarStops(c, re, text, i);
        return false;
      }
      i := i + 1;
    }
  }

  // Past the first character that does not fit there is nothing to try.
  lemma StarStops(c: char, re: string, text: string, i: nat)
    requires i <= |text| && (i == |text| || !Fits(c, text[i])) && forall j :: 0 <= j <= i ==> !Begins(re, text[j..])
    ensures !StarBegins(c, re, text)
  {
    forall j | i < j <= |text| ensures !AllFit(c, text[..j]) {
      assert text[..j][i] == text[i];
    }
  }

  method Match(re: string, text: string) returns (r: bool)
    ensures r <==> Occurs(re, text)
  {
    if re != [] && re[0] == '^' {
      r := MatchHere(re[1..], text);
      return;
    }
    var i := 0;
    while true
      invariant 0 <= i <= |text| && forall j :: 0 <= j < i ==> !Begins(re, text[j..])
      decreases |text| - i
    {
      r := MatchHere(re, text[i..]);
      if r {
        return true;
      }
      if i == |text| {
        return false;
      }
      i := i + 1;
    }
  }
}
