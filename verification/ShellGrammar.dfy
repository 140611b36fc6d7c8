/**
 The language of the shell's commands (user/sh.c) as a grammar: which token lists mean
 which command tree.  The parser accepts exactly these.
 */
module ShellGrammar {
  import opened ShellSyntax

  // ---- the grammar ----

  // What a redirection opens, and on which descriptor.
  predicate Opens(op: Token, mode: nat, fd: nat) {
    || (op == Sym('<') && mode == O_RDONLY && fd == 0)
    || ((op == Sym('>') || op == Append) && mode == O_WRONLY_CREATE && fd == 1)
  }

  // A simple command is written as arguments and redirections in any order.
  datatype Item = Arg(word: string) | To(op: Token, file: string)

  function Spell(items: seq<Item>): seq<Token> {
    if items == [] then []
    else
      var it := items[|items| - 1];
      Spell(items[..|items| - 1]) + if it.Arg? then [Word(it.word)] else [it.op, Word(it.file)]
  }

  function ArgsOf(items: seq<Item>): seq<string> {
    if items == [] then []
    else
      var it := items[|items| - 1];
      ArgsOf(items[..|items| - 1]) + if it.Arg? then [it.word] else []
  }

  // c is d with the redirections among the items around it, the last outermost.
  predicate Wraps(c: Cmd<string>, d: Cmd<string>, items: seq<Item>)
    decreases |items|
  {
    if items == [] then c == d
    else
      var k := |items| - 1;
      match items[k]
      case Arg(_) => Wraps(c, d, items[..k])
      case To(op, file) => c.Redir? && c.file == file && Opens(op, c.mode, c.fd) && Wraps(c.cmd, d, items[..k])
  }

  ghost predicate Simple(c: Cmd<string>, ts: seq<Token>) {
    exists items :: IsSimple(c, ts, items)
  }

  predicate IsSimple(c: Cmd<string>, ts: seq<Token>, items: seq<Item>) {
    ts == Spell(items) && |ArgsOf(items)| < MAXARGS && Wraps(c, Exec(ArgsOf(items)), items)
  }

  // The rest of a block, after its line d: a parenthesis and redirections.
  ghost predicate Closes(c: Cmd<string>, d: Cmd<string>, ts: seq<Token>) {
    exists items :: ts == [Sym(')')] + Spell(items) && ArgsOf(items) == [] && Wraps(c, d, items)
  }

  ghost predicate Command(c: Cmd<string>, ts: seq<Token>)
    decreases |ts|, 0
  {
    || Simple(c, ts)
    || (ts != [] && ts[0] == Sym('(') &&
        exists d, i :: 1 <= i < |ts| && Line(d, ts[1..i]) && Closes(c, d, ts[i..]))
  }

  ghost predicate Pipeline(c: Cmd<string>, ts: seq<Token>)
    decreases |ts|, 1
  {
    || Command(c, ts)
    || (c.Pipe? && exists i ::
          0 <= i < |ts| && ts[i] == Sym('|') && Command(c.left, ts[..i]) && Pipeline(c.right, ts[i + 1..]))
  }

  ghost predicate Job(c: Cmd<string>, ts: seq<Token>)
    decreases |ts|, 2
  {
    || Pipeline(c, ts)
    || (c.Back? && ts != [] && ts[|ts| - 1] == Sym('&') && Job(c.cmd, ts[..|ts| - 1]))
  }

  // A line: jobs with semicolons between them.
  ghost predicate Line(c: Cmd<string>, ts: seq<Token>)
    decreases |ts|, 3
  {
    || Job(c, ts)
    || (c.List? && exists i :: 0 <= i < |ts| && ts[i] == Sym(';') && Job(c.left, ts[..i]) && Line(c.right, ts[i + 1..]))
  }

  // ---- items ----

  lemma Cat<T>(a: seq<T>, b: seq<T>, c: seq<T>)
    ensures a + b + c == a + (b + c)
  {
  }

  // The tokens and the arguments of one item
  function SpellOne(it: Item): seq<Token> {
    if it.Arg? then [Word(it.word)] else [it.op, Word(it.file)]
  }

  function ArgOf(it: Item): seq<string> {
    if it.Arg? then [it.word] else []
  }

  lemma SpellMore(items: seq<Item>, it: Item)
    ensures Spell(items + [it]) == Spell(items) + SpellOne(it)
    ensures ArgsOf(items + [it]) == ArgsOf(items) + ArgOf(it)
  {
    assert (items + [it])[..|items|] == items;
  }

  lemma SpellEmpty()
    ensures Spell([]) == [] && ArgsOf([]) == []
  {
  }

  lemma {:induction false} SpellBoth(a: seq<Item>, b: seq<Item>)
    ensures Spell(a + b) == Spell(a) + Spell(b) && ArgsOf(a + b) == ArgsOf(a) + ArgsOf(b)
  {
    hide Spell, ArgsOf, SpellOne, ArgOf;
    if b == [] {
      assert a + b == a;
      SpellEmpty();
    } else {
      var k := |b| - 1;
      SpellBoth(a, b[..k]);
      SpellMore(a + b[..k], b[k]);
      SpellMore(b[..k], b[k]);
      assert b == b[..k] + [b[k]];
      Cat(a, b[..k], [b[k]]);
      Cat(Spell(a), Spell(b[..k]), SpellOne(b[k]));
      Cat(ArgsOf(a), ArgsOf(b[..k]), ArgOf(b[k]));
    }
  }

  lemma SpellSingle(it: Item)
    ensures Spell([it]) == SpellOne(it) && ArgsOf([it]) == ArgOf(it)
  {
    hide Spell, ArgsOf;
    SpellMore([], it);
    SpellEmpty();
    assert [] + [it] == [it];
  }

  lemma SpellFirst(items: seq<Item>, i: nat)
    requires i < |items|
    ensures Spell(items[i..]) == SpellOne(items[i]) + Spell(items[i + 1..])
    ensures ArgsOf(items[..i + 1]) == ArgsOf(items[..i]) + ArgOf(items[i])
  {
    hide Spell, ArgsOf, SpellOne, ArgOf;
    assert items[i..] == [items[i]] + items[i + 1..];
    SpellBoth([items[i]], items[i + 1..]);
    SpellSingle(items[i]);
    SpellMore(items[..i], items[i]);
    assert items[..i + 1] == items[..i] + [items[i]];
  }

  lemma WrapsMore(c: Cmd<string>, d: Cmd<string>, items: seq<Item>, op: Token, file: string)
    requires Wraps(c, d, items) && (op == Sym('<') || op == Sym('>') || op == Append)
    ensures Wraps(RedirOf(c, op, file), d, items + [To(op, file)])
  {
    assert (items + [To(op, file)])[..|items|] == items;
  }

  lemma {:induction false} WrapsArg(c: Cmd<string>, argv: seq<string>, items: seq<Item>, w: string)
    requires Wraps(c, Exec(argv), items)
    ensures Wraps(AddArg(c, w), Exec(argv + [w]), items)
    decreases |items|
  {
    if items != [] {
      var k := |items| - 1;
      WrapsArg(if items[k].Arg? then c else c.cmd, argv, items[..k], w);
    }
  }

  lemma WrapsAdd(c: Cmd<string>, argv: seq<string>, items: seq<Item>, w: string)
    requires Wraps(c, Exec(argv), items)
    ensures Wraps(AddArg(c, w), Exec(argv + [w]), items + [Arg(w)])
  {
    WrapsArg(c, argv, items, w);
    assert (items + [Arg(w)])[..|items|] == items;
  }

  // The items and the inner command leave no choice.
  lemma {:induction false} WrapsOnce(a: Cmd<string>, b: Cmd<string>, d: Cmd<string>, items: seq<Item>)
    requires Wraps(a, d, items) && Wraps(b, d, items)
    ensures a == b
    decreases |items|
  {
    if items != [] {
      var k := |items| - 1;
      if items[k].Arg? { WrapsOnce(a, b, d, items[..k]); } else { WrapsOnce(a.cmd, b.cmd, d, items[..k]); }
    }
  }

  // ---- what the parser accepts is in the grammar ----

  lemma {:induction false} RedirsSound(items: seq<Item>, d: Cmd<string>, cmd: Cmd<string>, ts: seq<Token>)
    returns (more: seq<Item>)
    requires Wraps(cmd, d, items) && ParseRedirs(cmd, ts).Ok?
    ensures var r := ParseRedirs(cmd, ts);
      && Wraps(r.cmd, d, items + more) && ArgsOf(more) == [] && ts == Spell(more) + r.rest && !StartsRedir(r.rest)
    decreases |ts|
  {
    hide Wraps, Spell, ArgsOf, RedirOf;
    if !StartsRedir(ts) {
      more := [];
      assert items + more == items;
      SpellEmpty();
      assert [] + ts == ts;
    } else {
      var it := To(ts[0], ts[1].text);
      WrapsMore(cmd, d, items, ts[0], ts[1].text);
      var rest := RedirsSound(items + [it], d, RedirOf(cmd, ts[0], ts[1].text), ts[2..]);
      more := [it] + rest;
      Cat(items, [it], rest);
      SpellBoth([it], rest);
      SpellSingle(it);
      var r := ParseRedirs(cmd, ts);
      assert ts == SpellOne(it) + ts[2..];
      Cat(SpellOne(it), Spell(rest), r.rest);
    }
  }

  lemma {:induction false} ArgsSound(items: seq<Item>, cmd: Cmd<string>, argc: nat, ts: seq<Token>)
    returns (more: seq<Item>)
    requires Wraps(cmd, Exec(ArgsOf(items)), items) && |ArgsOf(items)| == argc < MAXARGS && ParseArgs(cmd, argc, ts).Ok?
    ensures var r := ParseArgs(cmd, argc, ts);
      IsSimple(r.cmd, Spell(items + more), items + more) && ts == Spell(more) + r.rest && AfterExec(r.rest)
    decreases |ts|
  {
    hide ParseRedirs, AddArg, Wraps, Spell, ArgsOf;
    if Stops(ts) || ts == [] {
      more := [];
      assert items + more == items;
      SpellEmpty();
      assert [] + ts == ts;
    } else {
      var w := ts[0].text;
      var with := items + [Arg(w)];
      WrapsAdd(cmd, ArgsOf(items), items, w);
      SpellMore(items, Arg(w));
      var tos := RedirsSound(with, Exec(ArgsOf(with)), AddArg(cmd, w), ts[1..]);
      SpellBoth(with, tos);
      assert ArgsOf(with) + [] == ArgsOf(with);
      var r := ParseRedirs(AddArg(cmd, w), ts[1..]);
      var rest := ArgsSound(with + tos, r.cmd, argc + 1, r.rest);
      more := [Arg(w)] + (tos + rest);
      Regroup(items, w, tos, rest);
      var end := ParseArgs(cmd, argc, ts);
      assert end == ParseArgs(r.cmd, argc + 1, r.rest);
      SpellBoth(tos, rest);
      SpellBoth([Arg(w)], tos + rest);
      SpellSingle(Arg(w));
      assert ts == [Word(w)] + ts[1..];
      Cat(Spell(tos), Spell(rest), end.rest);
      Cat([Word(w)], Spell(tos) + Spell(rest), end.rest);
    }
  }

  lemma Regroup(items: seq<Item>, w: string, tos: seq<Item>, rest: seq<Item>)
    ensures items + [Arg(w)] + tos + rest == items + ([Arg(w)] + (tos + rest))
  {
  }

  // What is left is a suffix, at k.
  predicate Leaves(ts: seq<Token>, r: Result, k: nat) {
    r.Ok? && k <= |ts| && r.rest == ts[k..]
  }

  lemma {:induction false} ExecSound(ts: seq<Token>) returns (k: nat)
    requires ParseExec(ts).Ok?
    ensures Leaves(ts, ParseExec(ts), k) && Command(ParseExec(ts).cmd, ts[..k])
    decreases |ts|, 2
  {
    if StartsWith(ts, '(') {
      k := BlockSound(ts);
    } else {
      k := SimpleSound(ts);
    }
  }

  lemma SimpleSound(ts: seq<Token>) returns (k: nat)
    requires ParseExec(ts).Ok? && !StartsWith(ts, '(')
    ensures Leaves(ts, ParseExec(ts), k) && Command(ParseExec(ts).cmd, ts[..k])
  {
    hide ParseRedirs, ParseArgs, Wraps;
    WrapsNone();
    var tos := RedirsSound([], Exec([]), Exec([]), ts);
    assert [] + tos == tos;
    var r := ParseRedirs(Exec([]), ts);
    var more := ArgsSound(tos, r.cmd, 0, r.rest);
    var items := tos + more;
    SpellBoth(tos, more);
    k := |Spell(items)|;
    assert ts == Spell(items) + ParseExec(ts).rest;
    assert ts[..k] == Spell(items);
  }

  lemma WrapsNone()
    ensures Wraps(Exec([]), Exec([]), []) && ArgsOf([]) == [] && Spell([]) == []
  {
  }

  lemma {:induction false} BlockSound(ts: seq<Token>) returns (k: nat)
    requires StartsWith(ts, '(') && ParseBlock(ts).Ok?
    ensures Leaves(ts, ParseBlock(ts), k) && Command(ParseBlock(ts).cmd, ts[..k])
    decreases |ts|, 1
  {
    hide ParseLine, ParseRedirs, Wraps, Line, Simple, Command, Spell, ArgsOf;
    var r := ParseLine(ts[1..]);
    var m := LineSound(ts[1..]);
    var d, i, end := r.cmd, m + 1, ParseBlock(ts);
    assert r.rest == ts[i..] && ts[1..][..m] == ts[1..i];
    WrapsSelf(d);
    var tos := RedirsSound([], d, d, r.rest[1..]);
    assert [] + tos == tos;
    k := i + 1 + |Spell(tos)|;
    assert ts[i + 1..] == Spell(tos) + end.rest;
    var us := ts[..k];
    assert us[1..i] == ts[1..i] == ts[1..][..m];
    assert us[i..] == [Sym(')')] + Spell(tos);
    IsBlock(end.cmd, d, us, i, tos);
  }

  lemma IsBlock(c: Cmd<string>, d: Cmd<string>, ts: seq<Token>, i: nat, items: seq<Item>)
    requires 1 <= i < |ts| && ts[0] == Sym('(') && Line(d, ts[1..i])
    requires ts[i..] == [Sym(')')] + Spell(items) && ArgsOf(items) == [] && Wraps(c, d, items)
    ensures Command(c, ts)
  {
    hide Line, Simple, Wraps, Spell, ArgsOf;
    assert Closes(c, d, ts[i..]);
  }

  lemma WrapsSelf(d: Cmd<string>)
    ensures Wraps(d, d, [])
  {
  }

  lemma {:induction false} PipeSound(ts: seq<Token>) returns (k: nat)
    requires ParsePipe(ts).Ok?
    ensures Leaves(ts, ParsePipe(ts), k) && Pipeline(ParsePipe(ts).cmd, ts[..k])
    decreases |ts|, 3
  {
    hide ParseExec, Command;
    var r := ParseExec(ts);
    var i := ExecSound(ts);
    if !StartsWith(r.rest, '|') {
      k := i;
    } else {
      var m := PipeSound(r.rest[1..]);
      k := i + 1 + m;
      var us := ts[..k];
      assert us[..i] == ts[..i] && us[i + 1..] == r.rest[1..][..m];
      assert us[i] == Sym('|');
    }
  }

  lemma {:induction false} BacksSound(cmd: Cmd<string>, ts: seq<Token>, i: nat) returns (k: nat)
    requires i <= |ts| && Job(cmd, ts[..i])
    ensures Leaves(ts, ParseBacks(cmd, ts[i..]), k) && Job(ParseBacks(cmd, ts[i..]).cmd, ts[..k])
    decreases |ts| - i
  {
    hide Pipeline;
    if StartsWith(ts[i..], '&') {
      assert ts[..i + 1][..i] == ts[..i];
      assert ts[i..][1..] == ts[i + 1..];
      k := BacksSound(Back(cmd), ts, i + 1);
    } else {
      k := i;
    }
  }

  lemma {:induction false} LineSound(ts: seq<Token>) returns (k: nat)
    requires ParseLine(ts).Ok?
    ensures Leaves(ts, ParseLine(ts), k) && Line(ParseLine(ts).cmd, ts[..k])
    decreases |ts|, 4
  {
    hide ParsePipe, ParseBacks, Pipeline;
    var r := ParsePipe(ts);
    var i := PipeSound(ts);
    var b := ParseBacks(r.cmd, r.rest);
    var j := BacksSound(r.cmd, ts, i);
    if !StartsWith(b.rest, ';') {
      k := j;
    } else {
      var m := LineSound(b.rest[1..]);
      k := j + 1 + m;
      var us := ts[..k];
      assert us[..j] == ts[..j] && us[j + 1..] == b.rest[1..][..m];
      assert us[j] == Sym(';');
    }
  }

  // ---- what is in the grammar the parser accepts ----

  // From item i on, with the parser at redirections.
  lemma {:induction false} ItemsComplete(items: seq<Item>, i: nat, cmd: Cmd<string>, c: Cmd<string>, rest: seq<Token>)
    requires i <= |items| && |ArgsOf(items)| < MAXARGS && Wraps(c, Exec(ArgsOf(items)), items) && AfterExec(rest)
    requires Wraps(cmd, Exec(ArgsOf(items[..i])), items[..i]) && Written(items)
    ensures var r := ParseRedirs(cmd, Spell(items[i..]) + rest);
      r.Ok? && ParseArgs(r.cmd, |ArgsOf(items[..i])|, r.rest) == Ok(c, rest)
    decreases |items| - i
  {
    hide AddArg, Wraps, ParseArgs, ParseRedirs, Spell, ArgsOf, RedirOf;
    var ts := Spell(items[i..]) + rest;
    if i == |items| {
      assert items[..i] == items;
      SpellNone(items[i..], rest);
      WrapsOnce(cmd, c, Exec(ArgsOf(items)), items);
      NoRedir(cmd, rest);
      ArgsEnd(cmd, |ArgsOf(items)|, rest);
    } else {
      SpellFirst(items, i);
      assert items[..i + 1] == items[..i] + [items[i]];
      Cat(SpellOne(items[i]), Spell(items[i + 1..]), rest);
      if items[i].Arg? {
        ArgComplete(items, i, cmd, ts);
        ItemsComplete(items, i + 1, AddArg(cmd, items[i].word), c, rest);
      } else {
        var op, file := items[i].op, items[i].file;
        WrapsMore(cmd, Exec(ArgsOf(items[..i])), items[..i], op, file);
        assert ArgsOf(items[..i]) + [] == ArgsOf(items[..i]);
        TwoOff(items[i], Spell(items[i + 1..]) + rest, ts);
        RedirStep(cmd, ts);
        ItemsComplete(items, i + 1, RedirOf(cmd, op, file), c, rest);
      }
    }
  }

  lemma TwoOff(it: Item, more: seq<Token>, ts: seq<Token>)
    requires it.To? && ts == SpellOne(it) + more
    ensures |ts| >= 2 && ts[0] == it.op && ts[1] == Word(it.file) && ts[2..] == more
  {
  }

  lemma RedirStep(cmd: Cmd<string>, ts: seq<Token>)
    requires StartsRedir(ts) && |ts| >= 2 && ts[1].Word?
    ensures ParseRedirs(cmd, ts) == ParseRedirs(RedirOf(cmd, ts[0], ts[1].text), ts[2..])
  {
  }

  // An argument comes next.
  lemma ArgComplete(items: seq<Item>, i: nat, cmd: Cmd<string>, ts: seq<Token>)
    requires i < |items| && items[i].Arg? && |ArgsOf(items)| < MAXARGS && ts != [] && ts[0] == Word(items[i].word)
    requires Wraps(cmd, Exec(ArgsOf(items[..i])), items[..i])
    ensures ParseRedirs(cmd, ts) == Ok(cmd, ts)
    ensures |ArgsOf(items[..i + 1])| == |ArgsOf(items[..i])| + 1
    ensures Wraps(AddArg(cmd, items[i].word), Exec(ArgsOf(items[..i + 1])), items[..i + 1])
    ensures var r := ParseRedirs(AddArg(cmd, items[i].word), ts[1..]);
      ParseArgs(cmd, |ArgsOf(items[..i])|, ts) ==
        if r.Fail? then Fail else ParseArgs(r.cmd, |ArgsOf(items[..i + 1])|, r.rest)
  {
    hide AddArg, Wraps, ParseArgs, Spell, ArgsOf;
    WrapsAdd(cmd, ArgsOf(items[..i]), items[..i], items[i].word);
    SpellFirst(items, i);
    assert items[..i + 1] == items[..i] + [items[i]];
    NoRedir(cmd, ts);
    FewerArgs(items, i + 1);
    ArgStep(cmd, |ArgsOf(items[..i])|, ts);
  }

  // Redirections have one of the three operators.
  predicate Written(items: seq<Item>) {
    forall i :: 0 <= i < |items| && items[i].To? ==>
      (items[i].op == Sym('<') || items[i].op == Sym('>') || items[i].op == Append)
  }

  lemma {:induction false} WrapsWritten(c: Cmd<string>, d: Cmd<string>, items: seq<Item>)
    requires Wraps(c, d, items)
    ensures Written(items)
    decreases |items|
  {
    if items != [] {
      var k := |items| - 1;
      WrapsWritten(if items[k].Arg? then c else c.cmd, d, items[..k]);
      assert forall i :: 0 <= i < k ==> items[i] == items[..k][i];
    }
  }

  lemma SpellNone(items: seq<Item>, rest: seq<Token>)
    requires items == []
    ensures Spell(items) + rest == rest
  {
  }

  lemma FewerArgs(items: seq<Item>, i: nat)
    requires i <= |items|
    ensures |ArgsOf(items[..i])| <= |ArgsOf(items)|
  {
    SpellBoth(items[..i], items[i..]);
    assert items[..i] + items[i..] == items;
  }

  lemma SimpleComplete(c: Cmd<string>, ts: seq<Token>, rest: seq<Token>)
    requires Simple(c, ts) && AfterExec(rest)
    ensures ParseExec(ts + rest) == Ok(c, rest)
  {
    hide ParseRedirs, ParseArgs, Wraps, Spell, ArgsOf;
    var items :| IsSimple(c, ts, items);
    WrapsWritten(c, Exec(ArgsOf(items)), items);
    assert items[..0] == [] && items[0..] == items;
    WrapsNone();
    ItemsComplete(items, 0, Exec([]), c, rest);
    NoParenFirst(items, rest);
  }

  lemma NoParenFirst(items: seq<Item>, rest: seq<Token>)
    requires Written(items) && AfterExec(rest)
    ensures !StartsWith(Spell(items) + rest, '(')
  {
    hide Spell;
    if items == [] {
      SpellNone(items, rest);
    } else {
      SpellFirst(items, 0);
      assert items[0..] == items;
    }
  }

  lemma {:induction false} TosComplete(items: seq<Item>, i: nat, cmd: Cmd<string>, d: Cmd<string>, c: Cmd<string>,
                                       rest: seq<Token>)
    requires i <= |items| && ArgsOf(items) == [] && Wraps(c, d, items) && AfterExec(rest) && Written(items)
    requires Wraps(cmd, d, items[..i])
    ensures ParseRedirs(cmd, Spell(items[i..]) + rest) == Ok(c, rest)
    decreases |items| - i
  {
    hide Wraps, Spell, ArgsOf, ParseRedirs, RedirOf;
    var ts := Spell(items[i..]) + rest;
    if i == |items| {
      assert items[..i] == items;
      SpellNone(items[i..], rest);
      WrapsOnce(cmd, c, d, items);
      NoRedir(cmd, rest);
    } else {
      SpellFirst(items, i);
      FewerArgs(items, i + 1);
      assert items[..i + 1] == items[..i] + [items[i]];
      Cat(SpellOne(items[i]), Spell(items[i + 1..]), rest);
      WrapsMore(cmd, d, items[..i], items[i].op, items[i].file);
      TwoOff(items[i], Spell(items[i + 1..]) + rest, ts);
      RedirStep(cmd, ts);
      TosComplete(items, i + 1, RedirOf(cmd, items[i].op, items[i].file), d, c, rest);
    }
  }

  lemma ClosesComplete(c: Cmd<string>, d: Cmd<string>, ts: seq<Token>, rest: seq<Token>)
    requires Closes(c, d, ts) && AfterExec(rest)
    ensures StartsWith(ts, ')') && ParseRedirs(d, ts[1..] + rest) == Ok(c, rest)
  {
    hide ParseRedirs, Wraps, Spell, ArgsOf;
    var items :| ts == [Sym(')')] + Spell(items) && ArgsOf(items) == [] && Wraps(c, d, items);
    WrapsWritten(c, d, items);
    WrapsSelf(d);
    assert items[..0] == [] && items[0..] == items;
    TosComplete(items, 0, d, d, c, rest);
    assert ts[1..] == Spell(items);
  }

  lemma {:induction false} CommandComplete(c: Cmd<string>, ts: seq<Token>, rest: seq<Token>)
    requires Command(c, ts) && AfterExec(rest)
    ensures ParseExec(ts + rest) == Ok(c, rest)
    decreases |ts|, 0
  {
    hide ParseLine, ParseRedirs, Line, Closes, Simple, ParseArgs, ParseExec;
    if Simple(c, ts) {
      SimpleComplete(c, ts, rest);
    } else {
      var d, i :| 1 <= i < |ts| && Line(d, ts[1..i]) && Closes(c, d, ts[i..]);
      var end := ts[i..];
      ClosesComplete(c, d, end, rest);
      LineComplete(d, ts[1..i], end + rest);
      BlockParts(ts, i, rest);
      WholeBlock(c, d, ts + rest, end + rest, rest);
    }
  }

  lemma BlockParts(ts: seq<Token>, i: nat, rest: seq<Token>)
    requires 1 <= i < |ts|
    ensures (ts + rest)[0] == ts[0] && (ts + rest)[1..] == ts[1..i] + (ts[i..] + rest)
    ensures (ts[i..] + rest)[0] == ts[i] && (ts[i..] + rest)[1..] == ts[i..][1..] + rest
  {
    assert ts == ts[..1] + (ts[1..i] + ts[i..]);
  }

  lemma WholeBlock(c: Cmd<string>, d: Cmd<string>, ts: seq<Token>, end: seq<Token>, rest: seq<Token>)
    requires StartsWith(ts, '(') && ParseLine(ts[1..]) == Ok(d, end) && StartsWith(end, ')')
    requires ParseRedirs(d, end[1..]) == Ok(c, rest)
    ensures ParseExec(ts) == Ok(c, rest)
  {
    hide ParseLine, ParseRedirs;
  }

  lemma {:induction false} PipelineComplete(c: Cmd<string>, ts: seq<Token>, rest: seq<Token>)
    requires Pipeline(c, ts) && AfterPipe(rest)
    ensures ParsePipe(ts + rest) == Ok(c, rest)
    decreases |ts|, 1
  {
    hide ParseExec, Command, Pipeline;
    if Command(c, ts) {
      CommandComplete(c, ts, rest);
    } else {
      var i := FirstCommand(c, ts);
      var more := ts[i..] + rest;
      CommandComplete(c.left, ts[..i], more);
      PipelineComplete(c.right, ts[i + 1..], rest);
      assert ts + rest == ts[..i] + more;
      assert more[1..] == ts[i + 1..] + rest;
    }
  }

  lemma FirstCommand(c: Cmd<string>, ts: seq<Token>) returns (i: nat)
    requires Pipeline(c, ts) && !Command(c, ts)
    ensures c.Pipe? && i < |ts| && ts[i] == Sym('|') && Command(c.left, ts[..i]) && Pipeline(c.right, ts[i + 1..])
  {
    hide Command;
    i :| 0 <= i < |ts| && ts[i] == Sym('|') && Command(c.left, ts[..i]) && Pipeline(c.right, ts[i + 1..]);
  }

  lemma {:induction false} JobComplete(c: Cmd<string>, ts: seq<Token>, rest: seq<Token>)
    requires Job(c, ts) && AfterPipe(rest)
    ensures var r := ParsePipe(ts + rest); r.Ok? && ParseBacks(r.cmd, r.rest) == ParseBacks(c, rest)
    decreases |ts|, 2
  {
    hide ParsePipe, Pipeline;
    if Pipeline(c, ts) {
      PipelineComplete(c, ts, rest);
    } else {
      var k := |ts| - 1;
      JobComplete(c.cmd, ts[..k], [Sym('&')] + rest);
      assert ts + rest == ts[..k] + ([Sym('&')] + rest);
      assert ([Sym('&')] + rest)[1..] == rest;
    }
  }

  lemma {:induction false} LineComplete(c: Cmd<string>, ts: seq<Token>, rest: seq<Token>)
    requires Line(c, ts) && AfterLine(rest)
    ensures ParseLine(ts + rest) == Ok(c, rest)
    decreases |ts|, 3
  {
    hide ParsePipe, Job, ParseLine, Line, ParseBacks, AfterPipe;
    if Job(c, ts) {
      MayFollow(rest);
      JobComplete(c, ts, rest);
      LastJob(c, ts + rest, rest);
    } else {
      var i := FirstJob(c, ts);
      var more := ts[i..] + rest;
      MayFollow(more);
      JobComplete(c.left, ts[..i], more);
      LineComplete(c.right, ts[i + 1..], rest);
      assert ts + rest == ts[..i] + more;
      assert more[1..] == ts[i + 1..] + rest;
      MoreJobs(c.left, c.right, ts + rest, more, rest);
    }
  }

  lemma FirstJob(c: Cmd<string>, ts: seq<Token>) returns (i: nat)
    requires Line(c, ts) && !Job(c, ts)
    ensures c.List? && i < |ts| && ts[i] == Sym(';') && Job(c.left, ts[..i]) && Line(c.right, ts[i + 1..])
  {
    hide Job;
    i :| 0 <= i < |ts| && ts[i] == Sym(';') && Job(c.left, ts[..i]) && Line(c.right, ts[i + 1..]);
  }

  lemma MayFollow(ts: seq<Token>)
    requires AfterLine(ts) || StartsWith(ts, ';')
    ensures AfterPipe(ts)
  {
  }

  lemma LastJob(c: Cmd<string>, ts: seq<Token>, rest: seq<Token>)
    requires AfterLine(rest)
    requires var r := ParsePipe(ts); r.Ok? && ParseBacks(r.cmd, r.rest) == ParseBacks(c, rest)
    ensures ParseLine(ts) == Ok(c, rest)
  {
    hide ParsePipe;
  }

  lemma MoreJobs(c: Cmd<string>, d: Cmd<string>, ts: seq<Token>, more: seq<Token>, rest: seq<Token>)
    requires StartsWith(more, ';') && ParseLine(more[1..]) == Ok(d, rest)
    requires |more| <= |ts|
    requires var r := ParsePipe(ts); r.Ok? && ParseBacks(r.cmd, r.rest) == ParseBacks(c, more)
    ensures ParseLine(ts) == Ok(List(c, d), rest)
  {
    hide ParsePipe;
    assert ParseBacks(c, more) == Ok(c, more);
  }

  // The parser turns a token list into a tree exactly if the grammar does.
  lemma ParsesExactly(c: Cmd<string>, ts: seq<Token>)
    ensures ParseAll(ts) == Ok(c, []) <==> Line(c, ts)
  {
    hide ParseLine, Line;
    if Line(c, ts) {
      LineComplete(c, ts, []);
      assert ts + [] == ts;
    }
    if ParseAll(ts) == Ok(c, []) {
      var k := LineSound(ts);
      assert ts[..k] == ts;
    }
  }

  // So it panics exactly on the lists that mean nothing, and no list means two trees.
  lemma PanicsExactly(ts: seq<Token>)
    ensures ParseAll(ts) == Fail <==> forall c :: !Line(c, ts)
    ensures forall c, d :: Line(c, ts) && Line(d, ts) ==> c == d
  {
    hide ParseLine, Line;
    forall c ensures ParseAll(ts) == Ok(c, []) <==> Line(c, ts) { ParsesExactly(c, ts); }
    if ParseAll(ts).Ok? { assert Line(ParseAll(ts).cmd, ts); }
  }

  // ---- which trees there are ----

  lemma {:induction false} WrapsLegal(c: Cmd<string>, d: Cmd<string>, items: seq<Item>)
    requires Wraps(c, d, items) && Legal(d)
    ensures Legal(c)
    decreases |items|
  {
    if items != [] {
      var k := |items| - 1;
      WrapsLegal(if items[k].Arg? then c else c.cmd, d, items[..k]);
    }
  }

  lemma {:induction false} CommandLegal(c: Cmd<string>, ts: seq<Token>)
    requires Command(c, ts)
    ensures Legal(c)
    decreases |ts|, 0
  {
    hide Wraps, Spell, ArgsOf, Line;
    if Simple(c, ts) {
      var items :| IsSimple(c, ts, items);
      WrapsLegal(c, Exec(ArgsOf(items)), items);
    } else {
      var d, i :| 1 <= i < |ts| && Line(d, ts[1..i]) && Closes(c, d, ts[i..]);
      LineLegal(d, ts[1..i]);
      var items :| ts[i..] == [Sym(')')] + Spell(items) && ArgsOf(items) == [] && Wraps(c, d, items);
      WrapsLegal(c, d, items);
    }
  }

  lemma {:induction false} PipelineLegal(c: Cmd<string>, ts: seq<Token>)
    requires Pipeline(c, ts)
    ensures Legal(c)
    decreases |ts|, 1
  {
    hide Command, Pipeline;
    if Command(c, ts) {
      CommandLegal(c, ts);
    } else {
      var i := FirstCommand(c, ts);
      CommandLegal(c.left, ts[..i]);
      PipelineLegal(c.right, ts[i + 1..]);
    }
  }

  lemma {:induction false} JobLegal(c: Cmd<string>, ts: seq<Token>)
    requires Job(c, ts)
    ensures Legal(c)
    decreases |ts|, 2
  {
    hide Pipeline;
    if Pipeline(c, ts) { PipelineLegal(c, ts); } else { JobLegal(c.cmd, ts[..|ts| - 1]); }
  }

  lemma {:induction false} LineLegal(c: Cmd<string>, ts: seq<Token>)
    requires Line(c, ts)
    ensures Legal(c)
    decreases |ts|, 3
  {
    hide Job, Line;
    if Job(c, ts) {
      JobLegal(c, ts);
    } else {
      var i := FirstJob(c, ts);
      JobLegal(c.left, ts[..i]);
      LineLegal(c.right, ts[i + 1..]);
    }
  }

  // The trees with a meaning are those with at most nine arguments to a command and one of
  // the two kinds of redirection; each of them can be written.
  lemma TreesExactly(c: Cmd<string>)
    ensures Legal(c) <==> exists ts :: Line(c, ts)
  {
    hide Line, ParseAll;
    if Legal(c) {
      ParsePrinted(c);
      ParsesExactly(c, PrintLine(c));
    }
    if ts :| Line(c, ts) { LineLegal(c, ts); }
  }
}
