/**
 The shell's grammar on token lists (user/sh.c), a printer for command trees, and the
 proof that parsing what was printed gives the tree back.
 */
module ShellSyntax {
  const MAXARGS := 10
  const O_RDONLY := 0
  const O_WRONLY_CREATE := 0x201

  datatype Token = Sym(c: char) | Append | Word(text: string)

  // W is how a word is held: a string, or its place in the input.
  datatype Cmd<W> =
    | Exec(argv: seq<W>)
    | Redir(cmd: Cmd<W>, file: W, mode: nat, fd: nat)
    | Pipe(left: Cmd<W>, right: Cmd<W>)
    | List(left: Cmd<W>, right: Cmd<W>)
    | Back(cmd: Cmd<W>)

  // A tree and what is left of the input, or a panic.
  datatype Result = Ok(cmd: Cmd<string>, rest: seq<Token>) | Fail

  // ---- the parser ----

  predicate StartsWith(ts: seq<Token>, c: char) {
    ts != [] && ts[0] == Sym(c)
  }

  predicate StartsRedir(ts: seq<Token>) {
    ts != [] && (ts[0] == Sym('<') || ts[0] == Sym('>') || ts[0] == Append)
  }

  // An exec node ends before one of these.
  predicate Stops(ts: seq<Token>) {
    StartsWith(ts, '|') || StartsWith(ts, ')') || StartsWith(ts, '&') || StartsWith(ts, ';')
  }

  function RedirOf<W>(cmd: Cmd<W>, op: Token, file: W): Cmd<W> {
    if op == Sym('<') then Redir(cmd, file, O_RDONLY, 0) else Redir(cmd, file, O_WRONLY_CREATE, 1)
  }

  // argv of the exec node inside, where redirections have been wrapped around it
  function AddArg<W>(cmd: Cmd<W>, w: W): Cmd<W> {
    match cmd
    case Exec(argv) => Exec(argv + [w])
    case Redir(c, f, m, fd) => Redir(AddArg(c, w), f, m, fd)
    case _ => cmd
  }

  function ParseLine(ts: seq<Token>): (r: Result)
    ensures r.Ok? ==> |r.rest| <= |ts|
    decreases |ts|, 4
  {
    var r := ParsePipe(ts);
    if r.Fail? then Fail
    else
      var b := ParseBacks(r.cmd, r.rest);
      if !StartsWith(b.rest, ';') then b
      else
        var n := ParseLine(b.rest[1..]);
        if n.Fail? then Fail else Ok(List(b.cmd, n.cmd), n.rest)
  }

  function ParseBacks(cmd: Cmd<string>, ts: seq<Token>): (r: Result)
    ensures r.Ok? && |r.rest| <= |ts|
    decreases |ts|
  {
    if StartsWith(ts, '&') then ParseBacks(Back(cmd), ts[1..]) else Ok(cmd, ts)
  }

  function ParsePipe(ts: seq<Token>): (r: Result)
    ensures r.Ok? ==> |r.rest| <= |ts|
    decreases |ts|, 3
  {
    var r := ParseExec(ts);
    if r.Fail? || !StartsWith(r.rest, '|') then r
    else
      var n := ParsePipe(r.rest[1..]);
      if n.Fail? then Fail else Ok(Pipe(r.cmd, n.cmd), n.rest)
  }

  function ParseRedirs(cmd: Cmd<string>, ts: seq<Token>): (r: Result)
    ensures r.Ok? ==> |r.rest| <= |ts|
    decreases |ts|
  {
    if !StartsRedir(ts) then Ok(cmd, ts)
    else if |ts| < 2 || !ts[1].Word? then Fail
    else ParseRedirs(RedirOf(cmd, ts[0], ts[1].text), ts[2..])
  }

  function ParseExec(ts: seq<Token>): (r: Result)
    ensures r.Ok? ==> |r.rest| <= |ts|
    decreases |ts|, 2
  {
    if StartsWith(ts, '(') then ParseBlock(ts)
    else
      var r := ParseRedirs(Exec([]), ts);
      if r.Fail? then Fail else ParseArgs(r.cmd, 0, r.rest)
  }

  function ParseArgs(cmd: Cmd<string>, argc: nat, ts: seq<Token>): (r: Result)
    ensures r.Ok? ==> |r.rest| <= |ts|
    decreases |ts|
  {
    if Stops(ts) || ts == [] then Ok(cmd, ts)
    else if !ts[0].Word? || argc + 1 >= MAXARGS then Fail
    else
      var r := ParseRedirs(AddArg(cmd, ts[0].text), ts[1..]);
      if r.Fail? then Fail else ParseArgs(r.cmd, argc + 1, r.rest)
  }

  function ParseBlock(ts: seq<Token>): (r: Result)
    requires StartsWith(ts, '(')
    ensures r.Ok? ==> |r.rest| <= |ts|
    decreases |ts|, 1
  {
    var r := ParseLine(ts[1..]);
    if r.Fail? || !StartsWith(r.rest, ')') then Fail else ParseRedirs(r.cmd, r.rest[1..])
  }

  // parsecmd: the whole input, with nothing left over
  function ParseAll(ts: seq<Token>): Result {
    var r := ParseLine(ts);
    if r.Ok? && r.rest == [] then r else Fail
  }

  // ---- the printer ----

  // The command without the redirections around it, and these, innermost first.
  function Core<W>(c: Cmd<W>): (r: Cmd<W>)
    ensures !r.Redir? && (c.Redir? ==> r < c) && (!c.Redir? ==> r == c)
  {
    if c.Redir? then Core(c.cmd) else c
  }

  function PrintRedirs(c: Cmd<string>): seq<Token> {
    if c.Redir? then PrintRedirs(c.cmd) + [Sym(if c.fd == 0 then '<' else '>'), Word(c.file)] else []
  }

  function Words(argv: seq<string>): seq<Token> {
    seq(|argv|, i requires 0 <= i < |argv| => Word(argv[i]))
  }

  function PrintLine(c: Cmd<string>): seq<Token>
    decreases c, 4
  {
    if c.List? then PrintBack(c.left) + [Sym(';')] + PrintLine(c.right) else PrintBack(c)
  }

  function PrintBack(c: Cmd<string>): seq<Token>
    decreases c, 3
  {
    if c.Back? then PrintBack(c.cmd) + [Sym('&')] else PrintPipe(c)
  }

  function PrintPipe(c: Cmd<string>): seq<Token>
    decreases c, 2
  {
    if c.Pipe? then PrintExec(c.left) + [Sym('|')] + PrintPipe(c.right) else PrintExec(c)
  }

  // An exec node, or anything else in parentheses, then the redirections.
  function PrintExec(c: Cmd<string>): seq<Token>
    decreases c, 1
  {
    if Core(c).Exec? then Words(Core(c).argv) + PrintRedirs(c) else PrintBlock(c)
  }

  function PrintBlock(c: Cmd<string>): seq<Token>
    requires !Core(c).Exec?
    decreases c, 0
  {
    match c
    case Redir(d, f, m, fd) => PrintBlock(d) + [Sym(if fd == 0 then '<' else '>'), Word(f)]
    case List(l, r) => [Sym('(')] + PrintBack(l) + [Sym(';')] + PrintLine(r) + [Sym(')')]
    case Pipe(l, r) => [Sym('(')] + PrintExec(l) + [Sym('|')] + PrintPipe(r) + [Sym(')')]
    case Back(d) => [Sym('(')] + PrintBack(d) + [Sym('&')] + [Sym(')')]
  }

  // ---- round trip ----

  predicate LegalRedir(mode: nat, fd: nat) {
    (mode == O_RDONLY && fd == 0) || (mode == O_WRONLY_CREATE && fd == 1)
  }

  // What the parser can produce: few enough arguments, its own redirection modes.
  predicate Legal(c: Cmd<string>) {
    match c
    case Exec(argv) => |argv| < MAXARGS
    case Redir(d, _, mode, fd) => LegalRedir(mode, fd) && Legal(d)
    case Pipe(l, r) => Legal(l) && Legal(r)
    case List(l, r) => Legal(l) && Legal(r)
    case Back(d) => Legal(d)
  }

  // What may follow a line, a list element and a pipe element.
  predicate AfterLine(ts: seq<Token>) { ts == [] || StartsWith(ts, ')') }

  predicate AfterPipe(ts: seq<Token>) { ts == [] || StartsWith(ts, ')') || StartsWith(ts, ';') || StartsWith(ts, '&') }

  predicate AfterExec(ts: seq<Token>) { ts == [] || Stops(ts) }

  lemma {:induction false} LegalCore(c: Cmd<string>)
    requires Legal(c)
    ensures Legal(Core(c))
  {
    if c.Redir? { LegalCore(c.cmd); }
  }

  lemma {:induction false} RedirsBack(c: Cmd<string>, rest: seq<Token>)
    requires Legal(c)
    ensures ParseRedirs(Core(c), PrintRedirs(c) + rest) == ParseRedirs(c, rest)
  {
    if c.Redir? {
      var op, f := Sym(if c.fd == 0 then '<' else '>'), Word(c.file);
      assert PrintRedirs(c) + rest == PrintRedirs(c.cmd) + ([op, f] + rest);
      RedirsBack(c.cmd, [op, f] + rest);
      assert ([op, f] + rest)[2..] == rest;
    } else {
      assert PrintRedirs(c) + rest == rest;
    }
  }

  lemma RedirsThen(c: Cmd<string>, rest: seq<Token>)
    requires Legal(c) && AfterExec(rest)
    ensures ParseRedirs(Core(c), PrintRedirs(c) + rest) == Ok(c, rest)
  {
    RedirsBack(c, rest);
  }

  // From argument i on, given that the rest parses.
  lemma {:induction false} ArgsBack(argv: seq<string>, i: nat, c: Cmd<string>, tail: seq<Token>, rest: seq<Token>)
    requires i < |argv| < MAXARGS && ParseRedirs(Exec(argv), tail) == Ok(c, rest) && AfterExec(rest)
    ensures ParseArgs(Exec(argv[..i]), i, Words(argv[i..]) + tail) == Ok(c, rest)
    decreases |argv| - i
  {
    hide ParseRedirs, Words, ParseArgs;
    var ts := Words(argv[i..]) + tail;
    WordsStep(argv, i, tail);
    ArgStep(Exec(argv[..i]), i, ts);
    assert argv[..i] + [argv[i]] == argv[..i + 1];
    if i + 1 < |argv| {
      WordsStep(argv, i + 1, tail);
      NoRedir(Exec(argv[..i + 1]), ts[1..]);
      ArgsBack(argv, i + 1, c, tail, rest);
    } else {
      assert argv[..i + 1] == argv;
      ArgsEnd(c, i + 1, rest);
    }
  }

  lemma ArgStep(cmd: Cmd<string>, argc: nat, ts: seq<Token>)
    requires ts != [] && ts[0].Word? && argc + 1 < MAXARGS
    ensures ParseArgs(cmd, argc, ts) ==
      var r := ParseRedirs(AddArg(cmd, ts[0].text), ts[1..]);
      if r.Fail? then Fail else ParseArgs(r.cmd, argc + 1, r.rest)
  {
  }

  lemma ArgsEnd(cmd: Cmd<string>, argc: nat, ts: seq<Token>)
    requires AfterExec(ts)
    ensures ParseArgs(cmd, argc, ts) == Ok(cmd, ts)
  {
  }

  lemma WordsStep(argv: seq<string>, i: nat, more: seq<Token>)
    requires i < |argv|
    ensures var ts := Words(argv[i..]) + more;
      ts != [] && ts[0] == Word(argv[i]) && ts[1..] == (if i + 1 < |argv| then Words(argv[i + 1..]) + more else more)
  {
  }

  lemma NoRedir(cmd: Cmd<string>, ts: seq<Token>)
    requires !StartsRedir(ts)
    ensures ParseRedirs(cmd, ts) == Ok(cmd, ts)
  {
  }

  lemma ExecBack(c: Cmd<string>, rest: seq<Token>)
    requires Legal(c) && Core(c).Exec? && AfterExec(rest)
    ensures ParseExec(PrintExec(c) + rest) == Ok(c, rest)
  {
    hide ParseRedirs, PrintRedirs, Core, ParseArgs;
    var argv := Core(c).argv;
    LegalCore(c);
    RedirsThen(c, rest);
    if argv == [] {
      assert PrintExec(c) + rest == PrintRedirs(c) + rest;
      NoParen(c, rest);
      ArgsEnd(c, 0, rest);
    } else {
      assert argv[..0] == [] && argv[0..] == argv;
      assert PrintExec(c) + rest == Words(argv) + (PrintRedirs(c) + rest);
      WordsStep(argv, 0, PrintRedirs(c) + rest);
      NoRedir(Exec([]), PrintExec(c) + rest);
      ArgsBack(argv, 0, c, PrintRedirs(c) + rest, rest);
    }
  }

  lemma {:induction false} NoParen(c: Cmd<string>, rest: seq<Token>)
    requires AfterExec(rest)
    ensures !StartsWith(PrintRedirs(c) + rest, '(')
    ensures c.Redir? ==> PrintRedirs(c) != []
  {
    if c.Redir? {
      NoParen(c.cmd, rest);
      if !c.cmd.Redir? { assert PrintRedirs(c.cmd) == []; }
      assert PrintRedirs(c.cmd) != [] ==> (PrintRedirs(c.cmd) + rest)[0] == PrintRedirs(c.cmd)[0];
    } else {
      assert PrintRedirs(c) + rest == rest;
    }
  }

  // A block is its line in parentheses, then its redirections.
  lemma {:induction false} BlockIs(c: Cmd<string>)
    requires !Core(c).Exec?
    ensures PrintBlock(c) == [Sym('(')] + PrintLine(Core(c)) + [Sym(')')] + PrintRedirs(c)
  {
    match c
    case Redir(d, f, m, fd) => BlockIs(d);
    case List(l, r) => assert PrintLine(c) == PrintBack(l) + [Sym(';')] + PrintLine(r);
    case Pipe(l, r) => assert PrintLine(c) == PrintPipe(c) == PrintExec(l) + [Sym('|')] + PrintPipe(r);
    case Back(d) => assert PrintLine(c) == PrintBack(d) + [Sym('&')];
  }

  lemma {:induction false} LineOf(c: Cmd<string>, rest: seq<Token>)
    requires Legal(c) && (c.List? || c.Pipe? || c.Back?) && AfterLine(rest)
    ensures ParseLine(PrintLine(c) + rest) == Ok(c, rest)
    decreases c, 1
  {
    if c.List? {
      var more := [Sym(';')] + PrintLine(c.right) + rest;
      assert PrintLine(c) + rest == PrintBack(c.left) + more;
      BackOf(c.left, more);
      assert more[1..] == PrintLine(c.right) + rest;
      LineBack(c.right, rest);
    } else if c.Pipe? {
      PipeOf(c, rest);
    } else {
      assert PrintLine(c) + rest == PrintBack(c.cmd) + ([Sym('&')] + rest);
      BackOf(c.cmd, [Sym('&')] + rest);
      assert ([Sym('&')] + rest)[1..] == rest;
    }
  }

  lemma {:induction false} PipeOf(c: Cmd<string>, rest: seq<Token>)
    requires Legal(c) && c.Pipe? && AfterPipe(rest)
    ensures ParsePipe(PrintPipe(c) + rest) == Ok(c, rest)
    decreases c, 0
  {
    var more := [Sym('|')] + PrintPipe(c.right) + rest;
    assert PrintPipe(c) + rest == PrintExec(c.left) + more;
    ExecOf(c.left, more);
    assert more[1..] == PrintPipe(c.right) + rest;
    if c.right.Pipe? { PipeOf(c.right, rest); } else { ExecOf(c.right, rest); }
  }

  lemma {:induction false} ExecOf(c: Cmd<string>, rest: seq<Token>)
    requires Legal(c) && AfterExec(rest)
    ensures ParseExec(PrintExec(c) + rest) == Ok(c, rest)
    decreases c, 2
  {
    if Core(c).Exec? {
      ExecBack(c, rest);
    } else {
      LegalCore(c);
      LineOf(Core(c), [Sym(')')] + PrintRedirs(c) + rest);
      BlockBack(c, rest);
    }
  }

  lemma BlockBack(c: Cmd<string>, rest: seq<Token>)
    requires Legal(c) && !Core(c).Exec? && AfterExec(rest)
    requires ParseLine(PrintLine(Core(c)) + ([Sym(')')] + PrintRedirs(c) + rest)) ==
      Ok(Core(c), [Sym(')')] + PrintRedirs(c) + rest)
    ensures ParseExec(PrintExec(c) + rest) == Ok(c, rest)
  {
    hide ParseLine, PrintLine, PrintBlock, ParseRedirs, PrintRedirs, Core, Legal;
    BlockIs(c);
    var more := [Sym(')')] + PrintRedirs(c) + rest;
    var ts := PrintExec(c) + rest;
    assert ts[1..] == PrintLine(Core(c)) + more;
    assert more[1..] == PrintRedirs(c) + rest;
    RedirsThen(c, rest);
  }

  lemma {:induction false} BackOf(c: Cmd<string>, rest: seq<Token>)
    requires Legal(c) && AfterPipe(rest)
    ensures var r := ParsePipe(PrintBack(c) + rest); r.Ok? && ParseBacks(r.cmd, r.rest) == ParseBacks(c, rest)
    decreases c, 3
  {
    if c.Back? {
      assert PrintBack(c) + rest == PrintBack(c.cmd) + ([Sym('&')] + rest);
      BackOf(c.cmd, [Sym('&')] + rest);
      assert ([Sym('&')] + rest)[1..] == rest;
    } else if c.Pipe? {
      PipeOf(c, rest);
    } else {
      ExecOf(c, rest);
    }
  }

  lemma PlainLine(c: Cmd<string>, rest: seq<Token>)
    requires (c.Exec? || c.Redir?) && AfterLine(rest) && ParseExec(PrintExec(c) + rest) == Ok(c, rest)
    ensures ParseLine(PrintLine(c) + rest) == Ok(c, rest)
  {
    hide ParseExec, PrintExec;
    assert PrintLine(c) == PrintPipe(c) == PrintExec(c);
    assert ParsePipe(PrintExec(c) + rest) == Ok(c, rest);
    assert ParseBacks(c, rest) == Ok(c, rest);
  }

  lemma {:induction false} LineBack(c: Cmd<string>, rest: seq<Token>)
    requires Legal(c) && AfterLine(rest)
    ensures ParseLine(PrintLine(c) + rest) == Ok(c, rest)
    decreases c, 4
  {
    if c.List? || c.Pipe? || c.Back? {
      LineOf(c, rest);
    } else {
      ExecOf(c, rest);
      PlainLine(c, rest);
    }
  }

  // Parsing the printed tokens of any tree the parser can produce gives that tree.
  lemma ParsePrinted(c: Cmd<string>)
    requires Legal(c)
    ensures ParseAll(PrintLine(c)) == Ok(c, [])
  {
    LineBack(c, []);
    assert PrintLine(c) + [] == PrintLine(c);
  }
}
