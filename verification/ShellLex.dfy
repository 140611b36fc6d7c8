/**
 The shell's tokens in a line of text (gettoken and peek in user/sh.c), and the text of
 a token list.
 */
module ShellLex {
  import opened ShellSyntax

  predicate White(c: char) {
    c == ' ' || c == '\t' || c == '\r' || c == '\n' || c == '\U{0B}'
  }

  predicate Symbol(c: char) {
    c == '<' || c == '|' || c == '>' || c == '&' || c == ';' || c == '(' || c == ')'
  }

  predicate WordChar(c: char) {
    !White(c) && !Symbol(c)
  }

  // The first place from i on that is not white space.
  function Skip(s: string, i: nat): (j: nat)
    requires i <= |s|
    ensures i <= j <= |s| && (j < |s| ==> !White(s[j])) && forall k :: i <= k < j ==> White(s[k])
    decreases |s| - i
  {
    if i < |s| && White(s[i]) then Skip(s, i + 1) else i
  }

  // The end of the word at i.
  function WordEnd(s: string, i: nat): (j: nat)
    requires i <= |s|
    ensures i <= j <= |s| && (j < |s| ==> !WordChar(s[j])) && forall k :: i <= k < j ==> WordChar(s[k])
    decreases |s| - i
  {
    if i < |s| && WordChar(s[i]) then WordEnd(s, i + 1) else i
  }

  // The tokens from i on.
  function Lex(s: string, i: nat): seq<Token>
    requires i <= |s|
    decreases |s| - i
  {
    var j := Skip(s, i);
    if j == |s| then []
    else if s[j] == '>' && j + 1 < |s| && s[j + 1] == '>' then [Append] + Lex(s, j + 2)
    else if Symbol(s[j]) then [Sym(s[j])] + Lex(s, j + 1)
    else [Word(s[j..WordEnd(s, j)])] + Lex(s, WordEnd(s, j))
  }

  // One step of Lex.
  lemma LexStep(s: string, i: nat)
    requires i <= |s|
    ensures var j := Skip(s, i);
      Lex(s, i) ==
        if j == |s| then []
        else if s[j] == '>' && j + 1 < |s| && s[j + 1] == '>' then [Append] + Lex(s, j + 2)
        else if Symbol(s[j]) then [Sym(s[j])] + Lex(s, j + 1)
        else [Word(s[j..WordEnd(s, j)])] + Lex(s, WordEnd(s, j))
  {
  }

  lemma SkipTwice(s: string, i: nat)
    requires i <= |s|
    ensures Skip(s, Skip(s, i)) == Skip(s, i) && Lex(s, Skip(s, i)) == Lex(s, i)
  {
  }

  // What peek learns about the next token.
  lemma PeekSymbol(s: string, i: nat, c: char)
    requires i <= |s| && Symbol(c) && c != '>'
    ensures StartsWith(Lex(s, i), c) <==> Skip(s, i) < |s| && s[Skip(s, i)] == c
  {
  }

  lemma PeekRedir(s: string, i: nat)
    requires i <= |s|
    ensures StartsRedir(Lex(s, i)) <==> Skip(s, i) < |s| && (s[Skip(s, i)] == '<' || s[Skip(s, i)] == '>')
  {
  }

  // ---- text of tokens ----

  predicate LegalWord(w: string) {
    w != [] && forall i :: 0 <= i < |w| ==> WordChar(w[i]) && w[i] != '\0'
  }

  predicate LegalToken(t: Token) {
    match t
    case Sym(c) => Symbol(c)
    case Append => true
    case Word(w) => LegalWord(w)
  }

  function Show(t: Token): (r: string)
    ensures r != []
  {
    match t
    case Sym(c) => [c, ' ']
    case Append => ">> "
    case Word(w) => w + " "
  }

  function Render(ts: seq<Token>): string {
    if ts == [] then [] else Show(ts[0]) + Render(ts[1..])
  }

  lemma {:induction false} SkipShift(p: string, s: string, i: nat)
    requires i <= |s|
    ensures Skip(p + s, |p| + i) == |p| + Skip(s, i)
    decreases |s| - i
  {
    if i < |s| && White(s[i]) { SkipShift(p, s, i + 1); }
  }

  lemma {:induction false} WordEndShift(p: string, s: string, i: nat)
    requires i <= |s|
    ensures WordEnd(p + s, |p| + i) == |p| + WordEnd(s, i)
    decreases |s| - i
  {
    if i < |s| && WordChar(s[i]) { WordEndShift(p, s, i + 1); }
  }

  // What came before a place does not matter.
  lemma {:induction false} LexShift(p: string, s: string, i: nat)
    requires i <= |s|
    ensures Lex(p + s, |p| + i) == Lex(s, i)
    decreases |s| - i
  {
    hide Lex, Skip, WordEnd, WordChar;
    SkipShift(p, s, i);
    LexStep(s, i);
    LexStep(p + s, |p| + i);
    var j := Skip(s, i);
    if j < |s| {
      assert (p + s)[|p| + j] == s[j];
      assert j + 1 < |s| ==> (p + s)[|p| + j + 1] == s[j + 1];
      if s[j] == '>' && j + 1 < |s| && s[j + 1] == '>' {
        LexShift(p, s, j + 2);
      } else if Symbol(s[j]) {
        LexShift(p, s, j + 1);
      } else {
        WordEndShift(p, s, j);
        WordMoves(s, j);
        assert (p + s)[|p| + j..|p| + WordEnd(s, j)] == s[j..WordEnd(s, j)];
        LexShift(p, s, WordEnd(s, j));
      }
    }
  }

  lemma WordMoves(s: string, j: nat)
    requires j < |s| && !White(s[j]) && !Symbol(s[j])
    ensures WordEnd(s, j) > j
  {
  }

  lemma {:induction false} WordEndOf(w: string, s: string, i: nat)
    requires LegalWord(w) && i <= |w| && s != [] && White(s[0])
    ensures WordEnd(w + s, i) == |w|
    decreases |w| - i
  {
    if i < |w| { WordEndOf(w, s, i + 1); } else { assert (w + s)[i] == s[0]; }
  }

  // White space at the front does not matter.
  lemma LexSpace(s: string)
    requires s != [] && White(s[0])
    ensures Lex(s, 0) == Lex(s[1..], 0)
  {
    hide Lex;
    assert [s[0]] + s[1..] == s;
    LexShift([s[0]], s[1..], 0);
    assert Skip(s, 0) == Skip(s, 1);
    LexStep(s, 0);
    LexStep(s, 1);
  }

  lemma ShowOne(t: Token, more: string)
    requires LegalToken(t)
    ensures Lex(Show(t) + more, 0) == [t] + Lex(more, 0)
  {
    hide Lex;
    var s := Show(t) + more;
    var w := Show(t)[..|Show(t)| - 1];
    var rest := [' '] + more;
    assert s == w + rest && rest[1..] == more;
    LexSpace(rest);
    LexShift(w, rest, 0);
    LexStep(s, 0);
    if t.Word? {
      WordEndOf(t.text, rest, 0);
      assert s[0] == t.text[0] && s[..|w|] == t.text;
    } else {
      assert s[|w|] == ' ';
    }
  }

  // The text of a token list reads as that list.
  lemma {:induction false} LexRendered(ts: seq<Token>)
    requires forall i :: 0 <= i < |ts| ==> LegalToken(ts[i])
    ensures Lex(Render(ts), 0) == ts
  {
    if ts != [] {
      ShowOne(ts[0], Render(ts[1..]));
      LexRendered(ts[1..]);
    }
  }

  // ---- which texts read as which tokens ----

  // A token as it is written; a word is any run of characters that are neither white space
  // nor symbols.
  function Written(t: Token): string {
    match t
    case Sym(c) => [c]
    case Append => ">>"
    case Word(w) => w
  }

  predicate IsToken(t: Token) {
    match t
    case Sym(c) => Symbol(c)
    case Append => true
    case Word(w) => w != [] && forall i :: 0 <= i < |w| ==> WordChar(w[i])
  }

  // Side by side these would read as something else.
  predicate Sticks(a: Token, b: Token) {
    (a.Word? && b.Word?) || (a == Sym('>') && (b == Sym('>') || b == Append))
  }

  predicate Blank(g: string) {
    forall i :: 0 <= i < |g| ==> White(g[i])
  }

  // s is the tokens ts with white space before, between and after them.
  predicate Spaced(s: string, ts: seq<Token>, gaps: seq<string>)
    decreases |ts|
  {
    && |gaps| == |ts| + 1 && Blank(gaps[0])
    && if ts == [] then s == gaps[0]
       else
         var k := |gaps[0]| + |Written(ts[0])|;
         && IsToken(ts[0]) && k <= |s| && s[..k] == gaps[0] + Written(ts[0]) && Spaced(s[k..], ts[1..], gaps[1..])
         && (|ts| > 1 && Sticks(ts[0], ts[1]) ==> gaps[1] != [])
  }

  lemma SpacedFirst(s: string, ts: seq<Token>, gaps: seq<string>)
    requires Spaced(s, ts, gaps)
    ensures |gaps| == |ts| + 1 && Blank(gaps[0]) && (ts == [] ==> s == gaps[0])
    ensures ts != [] ==>
      var k := |gaps[0]| + |Written(ts[0])|;
      && IsToken(ts[0]) && k <= |s| && s[..k] == gaps[0] + Written(ts[0]) && Spaced(s[k..], ts[1..], gaps[1..])
      && (|ts| > 1 && Sticks(ts[0], ts[1]) ==> gaps[1] != [])
  {
  }

  ghost predicate Reads(s: string, ts: seq<Token>) {
    exists gaps :: Spaced(s, ts, gaps)
  }

  lemma SkipBlank(s: string, k: nat)
    requires k <= |s| && Blank(s[..k]) && (k < |s| ==> !White(s[k]))
    ensures Skip(s, 0) == k
  {
    forall i | 0 <= i < k ensures White(s[i]) { assert s[..k][i] == s[i]; }
  }

  lemma WordEndIs(s: string, i: nat, e: nat)
    requires i <= e <= |s| && (forall k :: i <= k < e ==> WordChar(s[k])) && (e < |s| ==> !WordChar(s[e]))
    ensures WordEnd(s, i) == e
  {
  }

  lemma FirstIs(t: Token)
    requires IsToken(t)
    ensures Written(t) != [] && !White(Written(t)[0]) && (t.Word? ==> WordChar(Written(t)[0]))
    ensures !t.Word? ==> Symbol(Written(t)[0]) && (Written(t)[0] == '>' <==> t == Sym('>') || t == Append)
  {
  }

  // What the text after a token begins with.
  lemma NextIs(s: string, ts: seq<Token>, gaps: seq<string>)
    requires Spaced(s, ts, gaps) && s != []
    ensures if gaps[0] != [] then White(s[0])
      else ts != [] && IsToken(ts[0]) && s[0] == Written(ts[0])[0]
  {
    if ts == [] {
      assert s[0] == gaps[0][0];
    } else {
      FirstIs(ts[0]);
      var k := |gaps[0]| + |Written(ts[0])|;
      assert s[..k][0] == s[0];
    }
  }

  lemma {:induction false} SpacedLexes(s: string, ts: seq<Token>, gaps: seq<string>)
    requires Spaced(s, ts, gaps)
    ensures Lex(s, 0) == ts
    decreases |ts|
  {
    hide Lex, Skip, WordEnd, WordChar, White, Symbol, Sticks, Spaced, Blank, IsToken;
    LexStep(s, 0);
    SpacedFirst(s, ts, gaps);
    if ts == [] {
      assert s[..|s|] == s;
      SkipBlank(s, |s|);
    } else {
      var t, j := ts[0], |gaps[0]|;
      var k := j + |Written(t)|;
      GapThenToken(s, gaps[0], t);
      SpacedLexes(s[k..], ts[1..], gaps[1..]);
      assert s == s[..k] + s[k..];
      LexShift(s[..k], s[k..], 0);
      assert Lex(s, k) == ts[1..];
      assert ts == [t] + ts[1..];
      TokenEnds(s, j, t, ts, gaps);
    }
  }

  lemma GapThenToken(s: string, g: string, t: Token)
    requires Blank(g) && IsToken(t) && |g| + |Written(t)| <= |s| && s[..|g| + |Written(t)|] == g + Written(t)
    ensures Skip(s, 0) == |g| < |s| && s[|g|..|g| + |Written(t)|] == Written(t) && s[|g|] == Written(t)[0]
  {
    hide Skip, White;
    var j, k := |g|, |g| + |Written(t)|;
    FirstIs(t);
    assert s[..k][..j] == g && s[..k][j..] == Written(t);
    assert s[..j] == g && s[j..k] == Written(t);
    assert s[j] == s[..k][j];
    SkipBlank(s, j);
  }

  lemma TokenEnds(s: string, j: nat, t: Token, ts: seq<Token>, gaps: seq<string>)
    requires IsToken(t) && ts != [] && ts[0] == t && |gaps| == |ts| + 1
    requires var k := j + |Written(t)|;
      k <= |s| && s[j..k] == Written(t) && Spaced(s[k..], ts[1..], gaps[1..])
    requires |ts| > 1 && Sticks(ts[0], ts[1]) ==> gaps[1] != []
    ensures var k := j + |Written(t)|;
      && j < |s| && (t == Append <==> s[j] == '>' && j + 1 < |s| && s[j + 1] == '>')
      && (t.Sym? ==> Symbol(s[j]) && t.c == s[j])
      && (t.Word? ==> !Symbol(s[j]) && WordEnd(s, j) == k && t.text == s[j..k])
  {
    hide WordEnd, Spaced, Blank;
    var k := j + |Written(t)|;
    FirstIs(t);
    assert s[j] == s[j..k][0];
    if k < |s| {
      assert s[k..][0] == s[k];
      NextIs(s[k..], ts[1..], gaps[1..]);
      AfterToken(s[k], t, ts, gaps);
    }
    if t.Word? { WholeWord(s, j, k, t.text); }
    if t == Append { assert s[j..k][1] == s[j + 1]; }
  }

  // What comes right after a token cannot be read as part of it.
  lemma AfterToken(c: char, t: Token, ts: seq<Token>, gaps: seq<string>)
    requires IsToken(t) && ts != [] && ts[0] == t && |gaps| == |ts| + 1
    requires if gaps[1] != [] then White(c) else |ts| > 1 && IsToken(ts[1]) && c == (Written(ts[1]) + [' '])[0]
    requires |ts| > 1 && Sticks(ts[0], ts[1]) ==> gaps[1] != []
    ensures (t.Word? ==> !WordChar(c)) && (t == Sym('>') ==> c != '>')
  {
    if gaps[1] == [] { FirstIs(ts[1]); }
  }

  lemma WholeWord(s: string, j: nat, k: nat, w: string)
    requires j < k <= |s| && s[j..k] == w && (k < |s| ==> !WordChar(s[k]))
    requires forall i :: 0 <= i < |w| ==> WordChar(w[i])
    ensures WordEnd(s, j) == k
  {
    hide WordEnd, WordChar;
    forall i | j <= i < k ensures WordChar(s[i]) { assert w[i - j] == s[i]; }
    WordEndIs(s, j, k);
  }

  lemma {:induction false} LexSpaces(s: string) returns (gaps: seq<string>)
    ensures Spaced(s, Lex(s, 0), gaps)
    decreases |s|
  {
    hide Lex, Skip, WordEnd, Spaced, WordChar, Symbol, White, IsToken, Sticks;
    LexStep(s, 0);
    var j := Skip(s, 0);
    if j == |s| {
      gaps := [s];
      AllBlank(s);
    } else {
      var t, k := FirstToken(s, j);
      assert s == s[..k] + s[k..];
      LexShift(s[..k], s[k..], 0);
      assert Lex(s, 0) == [t] + Lex(s[k..], 0);
      var more := LexSpaces(s[k..]);
      var us := Lex(s[k..], 0);
      GapCount(s[k..], us, more);
      if us != [] && Sticks(t, us[0]) { Separated(s, j, k, t, us, more); }
      gaps := [s[..j]] + more;
      Joined(s, j, k, t, us, more);
    }
  }

  lemma AllBlank(s: string)
    requires Skip(s, 0) == |s|
    ensures Spaced(s, [], [s])
  {
  }

  lemma GapCount(s: string, ts: seq<Token>, gaps: seq<string>)
    requires Spaced(s, ts, gaps)
    ensures |gaps| == |ts| + 1
  {
  }

  lemma Joined(s: string, j: nat, k: nat, t: Token, us: seq<Token>, more: seq<string>)
    requires j < k <= |s| && Skip(s, 0) == j && IsToken(t) && s[j..k] == Written(t) && Spaced(s[k..], us, more)
    requires us != [] && Sticks(t, us[0]) ==> more[0] != []
    ensures Spaced(s, [t] + us, [s[..j]] + more)
  {
    hide IsToken, WordChar, Sticks;
    var ts, gaps := [t] + us, [s[..j]] + more;
    assert ts[1..] == us && gaps[1..] == more;
    assert s[..k] == s[..j] + s[j..k];
    forall i | 0 <= i < j ensures White(s[..j][i]) { assert s[..j][i] == s[i]; }
  }

  // The token at j, which is not white space, and where it ends.
  lemma FirstToken(s: string, j: nat) returns (t: Token, k: nat)
    requires j < |s| && !White(s[j])
    ensures j < k <= |s| && IsToken(t) && s[j..k] == Written(t)
    ensures t == Append <==> s[j] == '>' && j + 1 < |s| && s[j + 1] == '>'
    ensures t.Word? <==> !Symbol(s[j])
    ensures t.Word? ==> k == WordEnd(s, j) && t.text == s[j..k]
    ensures t.Sym? ==> t.c == s[j] && k == j + 1
    ensures t == Append ==> k == j + 2
  {
    if s[j] == '>' && j + 1 < |s| && s[j + 1] == '>' {
      t, k := Append, j + 2;
    } else if Symbol(s[j]) {
      t, k := Sym(s[j]), j + 1;
    } else {
      k := WordEnd(s, j);
      t := Word(s[j..k]);
    }
  }

  lemma Separated(s: string, j: nat, k: nat, t: Token, ts: seq<Token>, gaps: seq<string>)
    requires j < k <= |s| && IsToken(t) && ts != [] && Sticks(t, ts[0]) && Spaced(s[k..], ts, gaps)
    requires t.Word? ==> k == WordEnd(s, j)
    requires t.Sym? ==> k == j + 1 && s[j] == t.c && !(s[j] == '>' && j + 1 < |s| && s[j + 1] == '>')
    ensures gaps[0] != []
  {
    FirstIs(ts[0]);
    assert s[k..] != [];
    NextIs(s[k..], ts, gaps);
    assert s[k..][0] == s[k];
  }

  // The tokens of a line are the ones it is written with: there is one way to read it.
  lemma LexesExactly(s: string, ts: seq<Token>)
    ensures Lex(s, 0) == ts <==> Reads(s, ts)
  {
    hide Lex, Spaced;
    if Reads(s, ts) {
      var gaps :| Spaced(s, ts, gaps);
      SpacedLexes(s, ts, gaps);
    }
    var gaps := LexSpaces(s);
    assert Reads(s, Lex(s, 0));
  }
}
