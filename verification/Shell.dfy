/**
 The shell's parser (user/sh.c) as it runs: a cursor moving over the line, command nodes
 built by mutual recursion, and NULs written into the line at the end.
 */
module Shell {
  import opened ShellSyntax
  import opened ShellGrammar
  import opened ShellLex

  // A word as sh.c holds it: pointers to its start and to just past its end.
  datatype Span = Span(start: nat, end: nat)

  datatype Parsed = Tree(cmd: Cmd<Span>) | Panic

  function Text(s: string, w: Span): string {
    if w.start <= w.end <= |s| then s[w.start..w.end] else []
  }

  function Texts(s: string, ws: seq<Span>): (r: seq<string>)
    ensures |r| == |ws|
  {
    seq(|ws|, i requires 0 <= i < |ws| => Text(s, ws[i]))
  }

  // The command with its words as strings.
  function Strings(s: string, c: Cmd<Span>): Cmd<string> {
    match c
    case Exec(argv) => Exec(Texts(s, argv))
    case Redir(d, f, m, fd) => Redir(Strings(s, d), Text(s, f), m, fd)
    case Pipe(l, r) => Pipe(Strings(s, l), Strings(s, r))
    case List(l, r) => List(Strings(s, l), Strings(s, r))
    case Back(d) => Back(Strings(s, d))
  }

  // A maximal run of word characters.
  predicate WordAt(s: string, w: Span) {
    && w.start < w.end <= |s| && (forall k :: w.start <= k < w.end ==> WordChar(s[k]))
    && (w.end < |s| ==> !WordChar(s[w.end]))
  }

  predicate SpansOk(s: string, c: Cmd<Span>) {
    match c
    case Exec(argv) => forall i :: 0 <= i < |argv| ==> WordAt(s, argv[i])
    case Redir(d, f, _, _) => SpansOk(s, d) && WordAt(s, f)
    case Pipe(l, r) => SpansOk(s, l) && SpansOk(s, r)
    case List(l, r) => SpansOk(s, l) && SpansOk(s, r)
    case Back(d) => SpansOk(s, d)
  }

  lemma {:induction false} AddArgStrings(s: string, c: Cmd<Span>, w: Span)
    requires SpansOk(s, c) && WordAt(s, w)
    ensures Strings(s, AddArg(c, w)) == AddArg(Strings(s, c), Text(s, w)) && SpansOk(s, AddArg(c, w))
  {
    match c
    case Exec(argv) => assert Texts(s, argv + [w]) == Texts(s, argv) + [Text(s, w)];
    case Redir(d, _, _, _) => AddArgStrings(s, d, w);
    case _ =>
  }

  // What a parsing method returns agrees with the grammar.
  predicate Agrees(s: string, p: Parsed, next: nat, r: Result) {
    && (p.Panic? <==> r.Fail?)
    && (p.Tree? ==> next <= |s| && SpansOk(s, p.cmd) && r == Ok(Strings(s, p.cmd), Lex(s, next)))
  }

  // ---- gettoken and peek ----

  method SkipWhite(s: string, i: nat) returns (j: nat)
    requires i <= |s|
    ensures j == Skip(s, i)
  {
    j := i;
    while j < |s| && White(s[j])
      invariant i <= j <= |s| && Skip(s, j) == Skip(s, i)
    {
      j := j + 1;
    }
  }

  // The kinds of gettoken's result.
  function TokenOf(tok: char, text: string): Token {
    if tok == 'a' then Word(text) else if tok == '+' then Append else Sym(tok)
  }

  method Gettoken(s: string, i: nat) returns (tok: char, w: Span, next: nat)
    requires i <= |s| && '\0' !in s
    ensures i <= next <= |s| && (tok == '\0' <==> Lex(s, i) == []) && w.start <= w.end <= |s|
    ensures tok == '\0' ==> Lex(s, next) == []
    ensures tok != '\0' ==> i < next && Lex(s, i) == [TokenOf(tok, Text(s, w))] + Lex(s, next)
    ensures tok == 'a' ==> WordAt(s, w)
  {
    hide Lex, Skip, WordEnd;
    LexStep(s, i);
    var j := SkipWhite(s, i);
    var q := j;
    if j == |s| {
      tok := '\0';
      LexStep(s, j);
    } else if Symbol(s[j]) && s[j] != '>' {
      tok, j := s[j], j + 1;
    } else if s[j] == '>' {
      tok, j := '>', j + 1;
      if j < |s| && s[j] == '>' {
        tok, j := '+', j + 1;
      }
    } else {
      tok := 'a';
      j := FindWordEnd(s, j);
    }
    w := Span(q, j);
    next := SkipWhite(s, j);
    SkipTwice(s, j);
  }

  method FindWordEnd(s: string, i: nat) returns (j: nat)
    requires i <= |s|
    ensures j == WordEnd(s, i) && (i < |s| && WordChar(s[i]) ==> i < j)
  {
    j := i;
    while j < |s| && WordChar(s[j])
      invariant i <= j <= |s| && WordEnd(s, j) == WordEnd(s, i)
    {
      j := j + 1;
    }
  }

  method Peek(s: string, i: nat, toks: string) returns (b: bool, next: nat)
    requires i <= |s|
    ensures i <= next <= |s| && next == Skip(s, i) && Lex(s, next) == Lex(s, i)
    ensures b <==> next < |s| && s[next] in toks
  {
    next := SkipWhite(s, i);
    SkipTwice(s, i);
    b := next < |s| && s[next] in toks;
  }

  // peek for one symbol
  method PeekOne(s: string, i: nat, c: char) returns (b: bool, next: nat)
    requires i <= |s| && Symbol(c) && c != '>'
    ensures i <= next <= |s| && Lex(s, next) == Lex(s, i) && (b <==> StartsWith(Lex(s, i), c))
  {
    b, next := Peek(s, i, [c]);
    PeekSymbol(s, i, c);
  }

  method PeekStop(s: string, i: nat) returns (b: bool, next: nat)
    requires i <= |s|
    ensures i <= next <= |s| && Lex(s, next) == Lex(s, i) && (b <==> Stops(Lex(s, i)))
  {
    b, next := Peek(s, i, "|)&;");
    PeekSymbol(s, i, '|');
    PeekSymbol(s, i, ')');
    PeekSymbol(s, i, '&');
    PeekSymbol(s, i, ';');
  }

  method PeekAngle(s: string, i: nat) returns (b: bool, next: nat)
    requires i <= |s|
    ensures i <= next <= |s| && Lex(s, next) == Lex(s, i) && (b <==> StartsRedir(Lex(s, i)))
  {
    b, next := Peek(s, i, "<>");
    PeekRedir(s, i);
  }

  // ---- the parser ----

  method ParseRedirections(s: string, cmd: Cmd<Span>, i: nat) returns (p: Parsed, next: nat)
    requires i <= |s| && '\0' !in s && SpansOk(s, cmd)
    ensures i <= next <= |s| && Agrees(s, p, next, ParseRedirs(Strings(s, cmd), Lex(s, i)))
  {
    hide Lex;
    ghost var r := ParseRedirs(Strings(s, cmd), Lex(s, i));
    var c := cmd;
    var b;
    b, next := PeekAngle(s, i);
    while b
      invariant i <= next <= |s| && SpansOk(s, c)
      invariant ParseRedirs(Strings(s, c), Lex(s, next)) == r && (b <==> StartsRedir(Lex(s, next)))
      decreases |s| - next
    {
      var tok, tok2;
      var w, w2;
      ghost var ts := Lex(s, next);
      tok, w, next := Gettoken(s, next);
      tok2, w2, next := Gettoken(s, next);
      if tok2 != 'a' {
        return Panic, next;
      }
      assert ts[2..] == Lex(s, next);
      c := RedirOf(c, TokenOf(tok, []), w2);
      b, next := PeekAngle(s, next);
    }
    p := Tree(c);
  }

  method ParseLineAt(s: string, i: nat) returns (p: Parsed, next: nat)
    requires i <= |s| && '\0' !in s
    ensures i <= next <= |s| && Agrees(s, p, next, ParseLine(Lex(s, i)))
    decreases |s| - i, 4
  {
    hide Lex, ParsePipe;
    p, next := ParsePipeAt(s, i);
    if p.Panic? {
      return;
    }
    var cmd := p.cmd;
    ghost var r := ParsePipe(Lex(s, i));
    var b;
    b, next := PeekOne(s, next, '&');
    while b
      invariant i <= next <= |s| && SpansOk(s, cmd) && (b <==> StartsWith(Lex(s, next), '&'))
      invariant ParseBacks(Strings(s, cmd), Lex(s, next)) == ParseBacks(r.cmd, r.rest)
      decreases |s| - next
    {
      ghost var ts := Lex(s, next);
      var tok, w;
      tok, w, next := Gettoken(s, next);
      assert ts[1..] == Lex(s, next);
      cmd := Back(cmd);
      b, next := PeekOne(s, next, '&');
    }
    b, next := PeekOne(s, next, ';');
    if b {
      ghost var ts := Lex(s, next);
      var tok, w;
      tok, w, next := Gettoken(s, next);
      assert ts[1..] == Lex(s, next);
      p, next := ParseLineAt(s, next);
      if p.Tree? {
        p := Tree(List(cmd, p.cmd));
      }
    } else {
      p := Tree(cmd);
    }
  }

  method ParsePipeAt(s: string, i: nat) returns (p: Parsed, next: nat)
    requires i <= |s| && '\0' !in s
    ensures i <= next <= |s| && Agrees(s, p, next, ParsePipe(Lex(s, i)))
    decreases |s| - i, 3
  {
    hide Lex, ParseExec;
    p, next := ParseExecAt(s, i);
    if p.Panic? {
      return;
    }
    var cmd := p.cmd;
    var b;
    b, next := PeekOne(s, next, '|');
    if b {
      ghost var ts := Lex(s, next);
      var tok, w;
      tok, w, next := Gettoken(s, next);
      assert ts[1..] == Lex(s, next);
      p, next := ParsePipeAt(s, next);
      if p.Tree? {
        p := Tree(Pipe(cmd, p.cmd));
      }
    }
  }

  method ParseBlockAt(s: string, i: nat) returns (p: Parsed, next: nat)
    requires i <= |s| && '\0' !in s && StartsWith(Lex(s, i), '(')
    ensures i <= next <= |s| && Agrees(s, p, next, ParseBlock(Lex(s, i)))
    decreases |s| - i, 1
  {
    hide Lex, ParseLine, ParseRedirs;
    ghost var ts := Lex(s, i);
    var tok, w;
    tok, w, next := Gettoken(s, i);
    assert ts[1..] == Lex(s, next);
    p, next := ParseLineAt(s, next);
    if p.Panic? {
      return;
    }
    var cmd := p.cmd;
    var b;
    b, next := PeekOne(s, next, ')');
    if !b {
      return Panic, next;
    }
    ghost var us := Lex(s, next);
    tok, w, next := Gettoken(s, next);
    assert us[1..] == Lex(s, next);
    p, next := ParseRedirections(s, cmd, next);
  }

  method ParseExecAt(s: string, i: nat) returns (p: Parsed, next: nat)
    requires i <= |s| && '\0' !in s
    ensures i <= next <= |s| && Agrees(s, p, next, ParseExec(Lex(s, i)))
    decreases |s| - i, 2
  {
    hide Lex, ParseRedirs, ParseBlock, ParseArgs;
    var b;
    b, next := PeekOne(s, i, '(');
    if b {
      p, next := ParseBlockAt(s, next);
      return;
    }
    assert Strings(s, Exec([])) == Exec([]);
    p, next := ParseRedirections(s, Exec([]), next);
    if p.Tree? {
      p, next := ParseArgsAt(s, p.cmd, next);
    }
  }

  // parseexec's loop over the arguments
  method ParseArgsAt(s: string, cmd: Cmd<Span>, i: nat) returns (p: Parsed, next: nat)
    requires i <= |s| && '\0' !in s && SpansOk(s, cmd)
    ensures i <= next <= |s| && Agrees(s, p, next, ParseArgs(Strings(s, cmd), 0, Lex(s, i)))
  {
    hide Lex, ParseRedirs;
    ghost var r := ParseArgs(Strings(s, cmd), 0, Lex(s, i));
    var c, argc := cmd, 0;
    var b;
    b, next := PeekStop(s, i);
    while !b
      invariant i <= next <= |s| && SpansOk(s, c) && (b <==> Stops(Lex(s, next)))
      invariant ParseArgs(Strings(s, c), argc, Lex(s, next)) == r
      decreases |s| - next
    {
      ghost var ts := Lex(s, next);
      var tok, w;
      tok, w, next := Gettoken(s, next);
      if tok == '\0' {
        break;
      }
      if tok != 'a' {
        return Panic, next;
      }
      assert ts[1..] == Lex(s, next);
      AddArgStrings(s, c, w);
      c := AddArg(c, w);
      argc := argc + 1;
      if argc >= MAXARGS {
        return Panic, next;
      }
      p, next := ParseRedirections(s, c, next);
      if p.Panic? {
        return;
      }
      c := p.cmd;
      b, next := PeekStop(s, next);
    }
    p := Tree(c);
  }

  // ---- nulterminate ----

  // The line's memory: the words of s are all still there.
  predicate Intact(b: seq<char>, s: string) {
    |b| == |s| + 1 && b[|s|] == '\0' && forall k :: 0 <= k < |s| && WordChar(s[k]) ==> b[k] == s[k]
  }

  // Between a and b, some characters have become NUL.
  predicate OnlyNuls(a: seq<char>, b: seq<char>) {
    |b| == |a| && forall k :: 0 <= k < |a| ==> b[k] == a[k] || b[k] == '\0'
  }

  // Every word of the command ends in a NUL.
  predicate Ended(b: seq<char>, c: Cmd<Span>) {
    match c
    case Exec(argv) => forall i :: 0 <= i < |argv| ==> EndedAt(b, argv[i])
    case Redir(d, f, _, _) => Ended(b, d) && EndedAt(b, f)
    case Pipe(l, r) => Ended(b, l) && Ended(b, r)
    case List(l, r) => Ended(b, l) && Ended(b, r)
    case Back(d) => Ended(b, d)
  }

  predicate EndedAt(b: seq<char>, w: Span) {
    w.end < |b| && b[w.end] == '\0'
  }

  lemma {:induction false} EndedStays(a: seq<char>, b: seq<char>, c: Cmd<Span>)
    requires OnlyNuls(a, b) && Ended(a, c)
    ensures Ended(b, c)
  {
    match c
    case Exec(argv) => forall i | 0 <= i < |argv| ensures EndedAt(b, argv[i]) { assert EndedAt(a, argv[i]); }
    case Redir(d, _, _, _) => EndedStays(a, b, d);
    case Pipe(l, r) => EndedStays(a, b, l); EndedStays(a, b, r);
    case List(l, r) => EndedStays(a, b, l); EndedStays(a, b, r);
    case Back(d) => EndedStays(a, b, d);
  }

  // The end of a word is never inside a word, so writing there breaks none.
  method EndWord(buf: array<char>, ghost s: string, w: Span)
    requires Intact(buf[..], s) && WordAt(s, w)
    modifies buf
    ensures Intact(buf[..], s) && OnlyNuls(old(buf[..]), buf[..]) && EndedAt(buf[..], w)
  {
    buf[w.end] := '\0';
  }

  method Nulterminate(buf: array<char>, ghost s: string, c: Cmd<Span>)
    requires Intact(buf[..], s) && SpansOk(s, c)
    modifies buf
    ensures Intact(buf[..], s) && OnlyNuls(old(buf[..]), buf[..]) && Ended(buf[..], c)
    decreases c
  {
    hide Intact;
    match c
    case Exec(argv) =>
      var i := 0;
      while i < |argv|
        invariant 0 <= i <= |argv| && Intact(buf[..], s) && OnlyNuls(old(buf[..]), buf[..])
        invariant forall k :: 0 <= k < i ==> EndedAt(buf[..], argv[k])
      {
        ghost var before := buf[..];
        EndWord(buf, s, argv[i]);
        assert forall k :: 0 <= k < i ==> EndedAt(before, argv[k]);
        i := i + 1;
      }
    case Redir(d, f, _, _) =>
      Nulterminate(buf, s, d);
      ghost var before := buf[..];
      EndWord(buf, s, f);
      EndedStays(before, buf[..], d);
    case Pipe(l, r) =>
      Nulterminate(buf, s, l);
      ghost var before := buf[..];
      Nulterminate(buf, s, r);
      EndedStays(before, buf[..], l);
    case List(l, r) =>
      Nulterminate(buf, s, l);
      ghost var before := buf[..];
      Nulterminate(buf, s, r);
      EndedStays(before, buf[..], l);
    case Back(d) =>
      Nulterminate(buf, s, d);
  }

  // ---- reading the words back ----

  // The C string at i.
  function CString(b: seq<char>, i: nat): string
    decreases |b| - i
  {
    if i < |b| && b[i] != '\0' then [b[i]] + CString(b, i + 1) else []
  }

  lemma {:induction false} ReadBack(b: seq<char>, s: string, w: Span, i: nat)
    requires Intact(b, s) && '\0' !in s && WordAt(s, w) && EndedAt(b, w) && w.start <= i <= w.end
    ensures CString(b, i) == s[i..w.end]
    decreases w.end - i
  {
    if i < w.end {
      assert s[i] in s && b[i] == s[i];
      ReadBack(b, s, w, i + 1);
    }
  }

  // The command as runcmd reads it out of memory.
  function ReadCmd(b: seq<char>, c: Cmd<Span>): Cmd<string> {
    match c
    case Exec(argv) => Exec(seq(|argv|, i requires 0 <= i < |argv| => CString(b, argv[i].start)))
    case Redir(d, f, m, fd) => Redir(ReadCmd(b, d), CString(b, f.start), m, fd)
    case Pipe(l, r) => Pipe(ReadCmd(b, l), ReadCmd(b, r))
    case List(l, r) => List(ReadCmd(b, l), ReadCmd(b, r))
    case Back(d) => Back(ReadCmd(b, d))
  }

  // ... is the command with exactly the words of the line.
  lemma {:induction false} WordsReadBack(b: seq<char>, s: string, c: Cmd<Span>)
    requires Intact(b, s) && '\0' !in s && SpansOk(s, c) && Ended(b, c)
    ensures ReadCmd(b, c) == Strings(s, c)
  {
    match c
    case Exec(argv) =>
      forall i | 0 <= i < |argv| ensures CString(b, argv[i].start) == Text(s, argv[i]) {
        ReadBack(b, s, argv[i], argv[i].start);
      }
    case Redir(d, f, _, _) =>
      WordsReadBack(b, s, d);
      ReadBack(b, s, f, f.start);
    case Pipe(l, r) => WordsReadBack(b, s, l); WordsReadBack(b, s, r);
    case List(l, r) => WordsReadBack(b, s, l); WordsReadBack(b, s, r);
    case Back(d) => WordsReadBack(b, s, d);
  }

  // parsecmd, on a line in memory.
  method Parsecmd(buf: array<char>, ghost s: string) returns (p: Parsed)
    requires '\0' !in s && buf[..] == s + ['\0']
    modifies buf
    ensures p.Panic? <==> ParseAll(Lex(s, 0)).Fail?
    ensures p.Tree? ==> ParseAll(Lex(s, 0)) == Ok(ReadCmd(buf[..], p.cmd), [])
    ensures p.Tree? ==> Means(s, ReadCmd(buf[..], p.cmd))
    ensures p.Panic? <==> forall c :: !Means(s, c)
  {
    hide Lex, Means;
    LineMeans(s);
    var line := buf[..buf.Length - 1];
    assert line == s;
    var next, b;
    p, next := ParseLineAt(line, 0);
    if p.Panic? {
      return;
    }
    b, next := Peek(line, next, "");
    EndOfLine(line, next);
    if next != |line| {
      return Panic;
    }
    Nulterminate(buf, s, p.cmd);
    WordsReadBack(buf[..], s, p.cmd);
  }

  // The line is written with tokens that the grammar takes for the command.
  ghost predicate Means(s: string, c: Cmd<string>) {
    exists ts :: Reads(s, ts) && Line(c, ts)
  }

  lemma LineMeans(s: string)
    ensures forall c :: Means(s, c) <==> ParseAll(Lex(s, 0)) == Ok(c, [])
    ensures ParseAll(Lex(s, 0)).Fail? <==> forall c :: !Means(s, c)
  {
    hide Lex, Reads, Line, ParseAll;
    LexesExactly(s, Lex(s, 0));
    PanicsExactly(Lex(s, 0));
    forall c ensures Means(s, c) <==> ParseAll(Lex(s, 0)) == Ok(c, []) {
      ParsesExactly(c, Lex(s, 0));
      if Means(s, c) {
        var ts :| Reads(s, ts) && Line(c, ts);
        LexesExactly(s, ts);
      }
    }
    if ParseAll(Lex(s, 0)) != Fail {
      var c :| Line(c, Lex(s, 0));
      assert Means(s, c);
    }
  }

  lemma EndOfLine(s: string, i: nat)
    requires i <= |s| && Skip(s, i) == i
    ensures Lex(s, i) == [] <==> i == |s|
  {
  }

  // ---- printing and parsing ----

  predicate LegalCmd(c: Cmd<string>) {
    match c
    case Exec(argv) => |argv| < MAXARGS && forall i :: 0 <= i < |argv| ==> LegalWord(argv[i])
    case Redir(d, f, mode, fd) => LegalCmd(d) && LegalWord(f) && LegalRedir(mode, fd)
    case Pipe(l, r) => LegalCmd(l) && LegalCmd(r)
    case List(l, r) => LegalCmd(l) && LegalCmd(r)
    case Back(d) => LegalCmd(d)
  }

  // One text for a command.
  function Print(c: Cmd<string>): string {
    Render(PrintLine(c))
  }

  predicate AllLegal(ts: seq<Token>) {
    forall i :: 0 <= i < |ts| ==> LegalToken(ts[i])
  }

  lemma {:induction false} RedirsLegal(c: Cmd<string>)
    requires LegalCmd(c)
    ensures AllLegal(PrintRedirs(c)) && LegalCmd(Core(c)) && Legal(c)
  {
    match c
    case Redir(d, _, _, _) => RedirsLegal(d);
    case Pipe(l, r) => RedirsLegal(l); RedirsLegal(r);
    case List(l, r) => RedirsLegal(l); RedirsLegal(r);
    case Back(d) => RedirsLegal(d);
    case Exec(_) =>
  }

  lemma LegalCat(a: seq<Token>, b: seq<Token>)
    requires AllLegal(a) && AllLegal(b)
    ensures AllLegal(a + b)
  {
  }

  lemma {:induction false} PrintedLegal(c: Cmd<string>)
    requires LegalCmd(c)
    ensures AllLegal(PrintLine(c)) && AllLegal(PrintBack(c)) && AllLegal(PrintPipe(c)) && AllLegal(PrintExec(c))
  {
    hide AllLegal, Core, PrintRedirs, LegalToken;
    RedirsLegal(c);
    SymLegal();
    match c
    case Redir(d, _, _, _) =>
      PrintedLegal(d);
      assert PrintLine(c) == PrintPipe(c);
      if Core(c).Exec? { ExecLegal(c); } else { CoreBlockLegal(c); }
    case Exec(_) =>
      ExecLegal(c);
      assert PrintLine(c) == PrintPipe(c);
    case Pipe(l, r) =>
      assert PrintLine(c) == PrintPipe(c);
      PrintedLegal(l);
      PrintedLegal(r);
      LegalCat(PrintExec(l), [Sym('|')]);
      LegalCat(PrintExec(l) + [Sym('|')], PrintPipe(r));
      BlockLegal(c);
    case List(l, r) =>
      PrintedLegal(l);
      PrintedLegal(r);
      LegalCat(PrintBack(l), [Sym(';')]);
      LegalCat(PrintBack(l) + [Sym(';')], PrintLine(r));
      BlockLegal(c);
    case Back(d) =>
      PrintedLegal(d);
      LegalCat(PrintBack(d), [Sym('&')]);
      BlockLegal(c);
  }

  lemma SymLegal()
    ensures AllLegal([Sym('|')]) && AllLegal([Sym(';')]) && AllLegal([Sym('&')])
    ensures AllLegal([Sym('(')]) && AllLegal([Sym(')')])
  {
  }

  lemma ExecLegal(c: Cmd<string>)
    requires Core(c).Exec? && LegalCmd(Core(c)) && AllLegal(PrintRedirs(c))
    ensures AllLegal(PrintExec(c))
  {
    assert AllLegal(Words(Core(c).argv));
  }

  lemma BlockLegal(c: Cmd<string>)
    requires !Core(c).Exec? && AllLegal(PrintLine(Core(c))) && AllLegal(PrintRedirs(c))
    ensures AllLegal(PrintExec(c))
  {
    hide AllLegal, Core, PrintRedirs, LegalToken, PrintLine;
    BlockIs(c);
    SymLegal();
    LegalCat([Sym('(')], PrintLine(Core(c)));
    LegalCat([Sym('(')] + PrintLine(Core(c)), [Sym(')')]);
    LegalCat([Sym('(')] + PrintLine(Core(c)) + [Sym(')')], PrintRedirs(c));
  }

  // Redirections around a block: the block's own text, then theirs.
  lemma CoreBlockLegal(c: Cmd<string>)
    requires c.Redir? && !Core(c).Exec? && LegalCmd(c) && AllLegal(PrintExec(c.cmd))
    ensures AllLegal(PrintExec(c))
  {
    assert PrintBlock(c) == PrintBlock(c.cmd) + [Sym(if c.fd == 0 then '<' else '>'), Word(c.file)];
  }

  // Parsing the printed text of a legal command gives that command.
  lemma ParsePrint(c: Cmd<string>)
    requires LegalCmd(c)
    ensures ParseAll(Lex(Print(c), 0)) == Ok(c, [])
  {
    RedirsLegal(c);
    PrintedLegal(c);
    LexRendered(PrintLine(c));
    ParsePrinted(c);
  }
}
