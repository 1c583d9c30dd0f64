/** The parser of xv6/sh.c against the grammar of ShellSyntax: it accepts exactly the lines that the grammar has and
    returns the trees that they stand for. A printer that writes parentheses only where they are needed comes back
    unchanged, and every line the shell accepts stands for a tree that can be printed. */
module ShellRoundTrip {

  import opened Common
  import opened ShellGrammar
  import opened ShellSyntax

  // ---------------------------------------------------------------- words

  /** The string a span spells. */
  function Spell(t: string, w: Span): string {
    if w.q <= w.eq <= |t| then t[w.q..w.eq] else ""
  }

  function SpellAll(t: string, ws: seq<Span>): (r: seq<string>)
    ensures |r| == |ws|
  {
    seq(|ws|, k requires 0 <= k < |ws| => Spell(t, ws[k]))
  }

  function Spelled(t: string, c: Cmd<Span>): Cmd<string> {
    match c
    case Exec(argv) => Exec(SpellAll(t, argv))
    case Redir(d, f, mode, fd) => Redir(Spelled(t, d), Spell(t, f), mode, fd)
    case Pipe(l, r) => Pipe(Spelled(t, l), Spelled(t, r))
    case List(l, r) => List(Spelled(t, l), Spelled(t, r))
    case Back(d) => Back(Spelled(t, d))
  }

  ghost predicate GoodMode(mode: int, fd: int) {
    (mode == O_RDONLY && fd == 0) || (mode == O_WRONLY + O_CREATE && fd == 1)
  }

  /** The trees that can be written down. */
  ghost predicate Good(c: Cmd<string>) {
    match c
    case Exec(argv) => |argv| < MAXARGS && forall k :: 0 <= k < |argv| ==> GoodWord(argv[k])
    case Redir(d, f, mode, fd) => Good(d) && GoodWord(f) && GoodMode(mode, fd)
    case Pipe(l, r) => Good(l) && Good(r)
    case List(l, r) => Good(l) && Good(r)
    case Back(d) => Good(d)
  }

  /** The command tree as strings, of a line the shell accepts. */
  function Meaning(t: string): (r: Cmd<string>)
    requires NoNul(t) && ParseCmd(t).Ok?
  {
    Spelled(t, ParseCmd(t).cmd)
  }

  // ---------------------------------------------------------------- redirections

  lemma {:induction false} WrapJoin(c: Cmd<string>, a: seq<Redirection>, b: seq<Redirection>)
    ensures Wrap(Wrap(c, a), b) == Wrap(c, a + b)
    decreases |b|
  {
    if b == [] {
      assert a + b == a;
    } else {
      WrapJoin(c, a, b[..|b| - 1]);
      assert (a + b)[..|a + b| - 1] == a + b[..|b| - 1];
    }
  }

  /** The next token is a redirection. */
  lemma RedirTok(t: string, i: nat) returns (op: RedirOp)
    requires i <= |t| && NoNul(t) && Peek(t, i, {'<', '>'})
    ensures var k := GetToken(t, Skip(t, i));
      Lex(t, i) == [OpTok(op)] + Lex(t, k.next) && (k.ret == '<' <==> op == In)
  {
    hide Lex;
    SkipTwice(t, i);
    NextTok(t, i);
    var k := GetToken(t, i);
    op := if k.ret == '<' then In else if k.ret == '>' then Out else OutAppend;
  }

  /** The next token is a word. */
  lemma WordTok(t: string, i: nat)
    requires i <= |t| && NoNul(t)
    ensures var k := GetToken(t, i); k.ret == 'a' <==> Lex(t, i) != [] && Lex(t, i)[0].Word?
    ensures var k := GetToken(t, i); k.ret == 'a' ==>
      var w := Spell(t, Span(k.q, k.eq)); GoodWord(w) && Lex(t, i) == [Word(w)] + Lex(t, k.next)
  {
    hide Lex, Skip;
    NextTok(t, i);
    if GetToken(t, i).ret != NUL { TokenText(t, i); }
  }

  lemma RedirectMeans(t: string, c: Cmd<Span>, tok: char, f: Span, op: RedirOp)
    requires tok == '<' <==> op == In
    ensures Spelled(t, Redirect(c, tok, f)) == Wrap(Spelled(t, c), [Redirection(op, Spell(t, f))])
  {
    assert [Redirection(op, Spell(t, f))][..0] == [];
  }

  lemma FirstRed(rs: seq<Redirection>, rest: seq<Tok>)
    requires rs != []
    ensures RedsToks(rs) + rest == [OpTok(rs[0].op)] + ([Word(rs[0].file)] + (RedsToks(rs[1..]) + rest))
    ensures [rs[0]] + rs[1..] == rs
  {
  }

  lemma NoReds(c: Cmd<string>)
    ensures RedsToks([]) == [] && Wrap(c, []) == c
  {
  }

  lemma {:induction false} RedsSound(t: string, i: nat, c: Cmd<Span>) returns (rs: seq<Redirection>)
    requires i <= |t| && NoNul(t) && Redirs(t, i, c).Ok?
    ensures var r := Redirs(t, i, c);
      RedsOk(rs) && Lex(t, i) == RedsToks(rs) + Lex(t, r.pos) && Spelled(t, r.cmd) == Wrap(Spelled(t, c), rs)
    decreases |t| - i
  {
    hide Lex, GetToken, Skip, Spelled, Redirect, Spell, RedsToks, Wrap, Peek;
    if !Peek(t, i, {'<', '>'}) {
      rs := [];
      SkipTwice(t, i);
      NoReds(Spelled(t, c));
    } else {
      var op := RedirTok(t, i);
      var k := GetToken(t, Skip(t, i));
      var f := GetToken(t, k.next);
      WordTok(t, k.next);
      var w := Span(f.q, f.eq);
      RedirectMeans(t, c, k.ret, w, op);
      var more := RedsSound(t, f.next, Redirect(c, k.ret, w));
      var one := Redirection(op, Spell(t, w));
      rs := [one] + more;
      WrapJoin(Spelled(t, c), [one], more);
      assert rs[1..] == more;
      FirstRed(rs, Lex(t, Redirs(t, i, c).pos));
    }
  }

  lemma SameCons(a: Tok, x: seq<Tok>, b: Tok, y: seq<Tok>)
    requires [a] + x == [b] + y
    ensures a == b && x == y
  {
    assert ([a] + x)[0] == ([b] + y)[0] && ([a] + x)[1..] == ([b] + y)[1..];
  }

  /** A redirection of the grammar at the cursor is read. */
  lemma RedirRead(t: string, i: nat, c: Cmd<Span>, one: Redirection, rest: seq<Tok>)
    requires i <= |t| && NoNul(t) && Lex(t, i) == [OpTok(one.op)] + ([Word(one.file)] + rest)
    ensures Peek(t, i, {'<', '>'})
    ensures var k := GetToken(t, Skip(t, i));
      var f := GetToken(t, k.next);
      && f.ret == 'a' && Lex(t, f.next) == rest
      && Spelled(t, Redirect(c, k.ret, Span(f.q, f.eq))) == Wrap(Spelled(t, c), [one])
  {
    hide Lex, GetToken, Skip, Spelled, Redirect, Spell, Peek;
    PeekToks(t, i, {'<', '>'});
    var op := RedirTok(t, i);
    var k := GetToken(t, Skip(t, i));
    var f := GetToken(t, k.next);
    SameCons(OpTok(op), Lex(t, k.next), OpTok(one.op), [Word(one.file)] + rest);
    WordTok(t, k.next);
    var w := Span(f.q, f.eq);
    SameCons(Word(Spell(t, w)), Lex(t, f.next), Word(one.file), rest);
    RedirectMeans(t, c, k.ret, w, op);
  }

  lemma {:induction false} RedsComplete(t: string, i: nat, c: Cmd<Span>, rs: seq<Redirection>, rest: seq<Tok>)
    requires i <= |t| && NoNul(t) && Lex(t, i) == RedsToks(rs) + rest && !Starts(rest, {'<', '>'})
    ensures var r := Redirs(t, i, c);
      r.Ok? && Lex(t, r.pos) == rest && Spelled(t, r.cmd) == Wrap(Spelled(t, c), rs)
    decreases |rs|
  {
    hide Lex, GetToken, Skip, Spelled, Redirect, Spell, Peek;
    if rs == [] {
      assert RedsToks(rs) + rest == rest;
      PeekToks(t, i, {'<', '>'});
      SkipTwice(t, i);
    } else {
      FirstRed(rs, rest);
      RedirRead(t, i, c, rs[0], RedsToks(rs[1..]) + rest);
      var k := GetToken(t, Skip(t, i));
      var f := GetToken(t, k.next);
      RedsComplete(t, f.next, Redirect(c, k.ret, Span(f.q, f.eq)), rs[1..], rest);
      WrapJoin(Spelled(t, c), [rs[0]], rs[1..]);
    }
  }

  // ---------------------------------------------------------------- simple commands

  /** A word goes to the simple command under the redirections read so far. */
  lemma {:induction false} AddWordMeans(t: string, c: Cmd<Span>, w: Span, ws: seq<string>, rs: seq<Redirection>)
    requires Spelled(t, c) == Wrap(Exec(ws), rs)
    ensures Spelled(t, AddWord(c, w)) == Wrap(Exec(ws + [Spell(t, w)]), rs)
    decreases |rs|
  {
    if rs == [] {
      assert SpellAll(t, c.argv + [w]) == ws + [Spell(t, w)];
    } else {
      AddWordMeans(t, c.cmd, w, ws, rs[..|rs| - 1]);
    }
  }

  /** What the argument loop has read: words, and redirections around them. */
  ghost predicate Reading(t: string, c: Cmd<Span>, ws: seq<string>, rs: seq<Redirection>) {
    Spelled(t, c) == Wrap(Exec(ws), rs)
  }

  /** One word and its redirections. */
  lemma ReadingMore(t: string, c: Cmd<Span>, ws: seq<string>, rs: seq<Redirection>, w: Span, d: Cmd<Span>,
                    more: seq<Redirection>)
    requires Reading(t, c, ws, rs) && Spelled(t, d) == Wrap(Spelled(t, AddWord(c, w)), more)
    ensures Reading(t, d, ws + [Spell(t, w)], rs + more)
  {
    AddWordMeans(t, c, w, ws, rs);
    WrapJoin(Exec(ws + [Spell(t, w)]), rs, more);
  }

  /** Words and redirections of a first argument and the others. */
  lemma FirstArg(a: Arg, args: seq<Arg>, ws: seq<string>, rs: seq<Redirection>)
    ensures ws + Words([a] + args) == (ws + [a.word]) + Words(args)
    ensures rs + AllReds([a] + args) == (rs + a.reds) + AllReds(args)
  {
    assert ([a] + args)[1..] == args;
  }

  lemma FirstArgToks(a: Arg, args: seq<Arg>, rest: seq<Tok>)
    ensures ArgsToks([a] + args) + rest == [Word(a.word)] + (RedsToks(a.reds) + (ArgsToks(args) + rest))
  {
    assert ([a] + args)[1..] == args;
  }

  lemma NoArgs(ws: seq<string>, rs: seq<Redirection>)
    ensures ArgsToks([]) == [] && ws + Words([]) == ws && rs + AllReds([]) == rs
  {
  }

  /** A simple command ends before these. */
  const ENDS: set<char> := {'|', ')', '&', ';'}

  lemma SkipNone(t: string, i: nat)
    requires i <= |t|
    ensures GetToken(t, i).ret == NUL ==> Lex(t, GetToken(t, i).next) == []
  {
    SkipTwice(t, i);
  }

  lemma {:induction false} ArgsSound(t: string, i: nat, c: Cmd<Span>, ws: seq<string>, rs: seq<Redirection>)
    returns (args: seq<Arg>)
    requires i <= |t| && NoNul(t) && Reading(t, c, ws, rs) && Args(t, i, c, |ws|).Ok?
    ensures var r := Args(t, i, c, |ws|);
      && ArgsOk(args) && (args == [] || |ws| + |args| < MAXARGS) && Lex(t, i) == ArgsToks(args) + Lex(t, r.pos)
      && Reading(t, r.cmd, ws + Words(args), rs + AllReds(args))
    decreases |t| - i
  {
    hide Lex, GetToken, Skip, Peek, Redirs, Reading, Spell, Spelled, ArgsToks, AllReds, RedsToks, AddWord;
    SkipTwice(t, i);
    WordTok(t, i);
    NextTok(t, i);
    var k := GetToken(t, i);
    if Peek(t, i, ENDS) || k.ret == NUL {
      args := [];
      SkipNone(t, i);
      NoArgs(ws, rs);
    } else {
      var w := Span(k.q, k.eq);
      var r := Redirs(t, k.next, AddWord(c, w));
      var more := RedsSound(t, k.next, AddWord(c, w));
      ReadingMore(t, c, ws, rs, w, r.cmd, more);
      var a := Arg(Spell(t, w), more);
      var others := ArgsSound(t, r.pos, r.cmd, ws + [a.word], rs + more);
      FirstArg(a, others, ws, rs);
      args := [a] + others;
      FirstArgToks(a, others, Lex(t, Args(t, i, c, |ws|).pos));
    }
  }

  lemma LetterFirst(t: string, i: nat)
    requires i <= |t| && NoNul(t) && Lex(t, i) != [] && Lex(t, i)[0].Word?
    ensures !Starts(Lex(t, i), ENDS) && !Starts(Lex(t, i), {'<', '>'}) && !Starts(Lex(t, i), {'('})
  {
    hide Lex, Skip;
    WordTok(t, i);
  }

  /** The loop goes on with a word, and stops at the end of a simple command. */
  lemma ArgsStep(t: string, i: nat, c: Cmd<Span>, argc: nat)
    requires i <= |t| && NoNul(t)
    ensures Lex(t, i) == [] || Starts(Lex(t, i), ENDS) ==>
      var r := Args(t, i, c, argc); r.Ok? && r.cmd == c && Lex(t, r.pos) == Lex(t, i)
    ensures Lex(t, i) != [] && Lex(t, i)[0].Word? && argc + 1 < MAXARGS ==>
      var k := GetToken(t, i);
      var w := Span(k.q, k.eq);
      var r := Redirs(t, k.next, AddWord(c, w));
      && Lex(t, i) == [Word(Spell(t, w))] + Lex(t, k.next)
      && (r.Ok? ==> Args(t, i, c, argc) == Args(t, r.pos, r.cmd, argc + 1))
  {
    hide Lex, GetToken, Skip, Redirs, Peek, Spell;
    PeekToks(t, i, ENDS);
    SkipTwice(t, i);
    SkipNone(t, i);
    WordTok(t, i);
    NextTok(t, i);
    if Lex(t, i) != [] && Lex(t, i)[0].Word? { LetterFirst(t, i); }
  }

  /** A word of the grammar and its redirections are read. */
  lemma ArgRead(t: string, i: nat, c: Cmd<Span>, ws: seq<string>, rs: seq<Redirection>, a: Arg, rest: seq<Tok>)
    returns (d: Cmd<Span>, j: nat)
    requires i <= |t| && NoNul(t) && Reading(t, c, ws, rs) && |ws| + 1 < MAXARGS
    requires Lex(t, i) == [Word(a.word)] + (RedsToks(a.reds) + rest) && !Starts(rest, {'<', '>'})
    ensures j <= |t| && Lex(t, j) == rest && Reading(t, d, ws + [a.word], rs + a.reds)
    ensures Args(t, i, c, |ws|) == Args(t, j, d, |ws| + 1)
  {
    hide Lex, GetToken, Skip, Redirs, Args, Reading, Spell, Spelled;
    ArgsStep(t, i, c, |ws|);
    var k := GetToken(t, i);
    var w := Span(k.q, k.eq);
    SameCons(Word(Spell(t, w)), Lex(t, k.next), Word(a.word), RedsToks(a.reds) + rest);
    RedsComplete(t, k.next, AddWord(c, w), a.reds, rest);
    var r := Redirs(t, k.next, AddWord(c, w));
    ReadingMore(t, c, ws, rs, w, r.cmd, a.reds);
    d, j := r.cmd, r.pos;
  }

  lemma ArgsNext(args: seq<Arg>, rest: seq<Tok>)
    requires (rest == [] || Starts(rest, ENDS)) && ArgsOk(args)
    ensures !Starts(ArgsToks(args) + rest, {'<', '>'})
  {
  }

  lemma {:induction false} ArgsComplete(t: string, i: nat, c: Cmd<Span>, ws: seq<string>, rs: seq<Redirection>,
                                        args: seq<Arg>, rest: seq<Tok>)
    requires i <= |t| && NoNul(t) && Reading(t, c, ws, rs) && ArgsOk(args) && |ws| + |args| < MAXARGS
    requires Lex(t, i) == ArgsToks(args) + rest && (rest == [] || Starts(rest, ENDS))
    ensures var r := Args(t, i, c, |ws|);
      r.Ok? && Lex(t, r.pos) == rest && Reading(t, r.cmd, ws + Words(args), rs + AllReds(args))
    decreases |args|
  {
    hide Lex, Args, Reading, ArgsToks, Starts;
    if args == [] {
      ArgsStep(t, i, c, |ws|);
      NoArgs(ws, rs);
      assert [] + rest == rest;
    } else {
      var (a, others) := (args[0], args[1..]);
      assert [a] + others == args;
      FirstArg(a, others, ws, rs);
      var after := ArgsToks(others) + rest;
      FirstArgToks(a, others, rest);
      ArgsNext(others, rest);
      var d, j := ArgRead(t, i, c, ws, rs, a, after);
      ArgsComplete(t, j, d, ws + [a.word], rs + a.reds, others, rest);
    }
  }

  // ---------------------------------------------------------------- what the parser accepts is in the grammar

  /** A symbol at the cursor, seen as text and as a token. */
  lemma SymTok(t: string, i: nat, c: char)
    requires i <= |t| && NoNul(t) && IsSymbol(c) && c != '>'
    ensures Peek(t, i, {c}) <==> Lex(t, i) != [] && Lex(t, i)[0] == Sym(c)
    ensures Peek(t, i, {c}) ==> Lex(t, i) == [Sym(c)] + Lex(t, GetToken(t, Skip(t, i)).next)
  {
    hide Lex, Skip;
    SkipTwice(t, i);
    NextTok(t, i);
  }

  lemma InBackOnce(c: Cmd<string>, n: nat)
    ensures InBack(Back(c), n) == InBack(c, n + 1)
  {
    if n > 0 { InBackOnce(c, n - 1); }
  }

  lemma {:induction false} BacksSound(t: string, i: nat, c: Cmd<Span>) returns (n: nat)
    requires i <= |t| && NoNul(t)
    ensures var (d, j) := Backs(t, i, c); Lex(t, i) == Ands(n) + Lex(t, j) && Spelled(t, d) == InBack(Spelled(t, c), n)
    decreases |t| - i
  {
    hide Lex, Skip, GetToken, Peek;
    SkipTwice(t, i);
    SymTok(t, i, '&');
    if !Peek(t, i, {'&'}) {
      n := 0;
    } else {
      var m := BacksSound(t, GetToken(t, Skip(t, i)).next, Back(c));
      InBackOnce(Spelled(t, c), m);
      n := m + 1;
    }
  }

  lemma SimpleSound(t: string, i: nat) returns (e: ExecS)
    requires i <= |t| && NoNul(t)
    requires var r := Redirs(t, i, Exec([])); r.Ok? && Args(t, r.pos, r.cmd, 0).Ok?
    ensures var r := Args(t, Redirs(t, i, Exec([])).pos, Redirs(t, i, Exec([])).cmd, 0);
      ExecOk(e) && Lex(t, i) == ExecToks(e) + Lex(t, r.pos) && Spelled(t, r.cmd) == ExecMeans(e)
  {
    hide Lex, Redirs, Args, RedsToks, ArgsToks, Wrap, AllReds;
    var r := Redirs(t, i, Exec([]));
    var rs := RedsSound(t, i, Exec([]));
    assert Reading(t, r.cmd, [], rs);
    var args := ArgsSound(t, r.pos, r.cmd, [], rs);
    assert [] + Words(args) == Words(args);
    e := Simple(rs, args);
  }

  lemma {:induction false} ExecSound(t: string, i: nat) returns (e: ExecS)
    requires i <= |t| && NoNul(t) && ParseExec(t, i).Ok?
    ensures var r := ParseExec(t, i);
      ExecOk(e) && Lex(t, i) == ExecToks(e) + Lex(t, r.pos) && Spelled(t, r.cmd) == ExecMeans(e)
    decreases |t| - i, 1
  {
    hide Lex, Skip, GetToken, Peek, Redirs, Args, ParseBlock, ExecToks, ExecMeans, ExecOk, Spelled;
    SkipTwice(t, i);
    if Peek(t, i, {'('}) {
      e := BlockSound(t, Skip(t, i));
    } else {
      e := SimpleSound(t, Skip(t, i));
    }
  }

  lemma {:induction false} BlockSound(t: string, i: nat) returns (e: ExecS)
    requires i <= |t| && NoNul(t) && ParseBlock(t, i).Ok?
    ensures var r := ParseBlock(t, i);
      ExecOk(e) && Lex(t, i) == ExecToks(e) + Lex(t, r.pos) && Spelled(t, r.cmd) == ExecMeans(e)
    decreases |t| - i, 0
  {
    hide Lex, Skip, GetToken, Peek, Redirs, ParseLine;
    SymTok(t, i, '(');
    var k := GetToken(t, Skip(t, i)).next;
    var l := LineSound(t, k);
    var r := ParseLine(t, k);
    SymTok(t, r.pos, ')');
    var m := GetToken(t, Skip(t, r.pos)).next;
    var rs := RedsSound(t, m, r.cmd);
    e := Block(l, rs);
  }

  lemma {:induction false} PipeSound(t: string, i: nat) returns (p: PipeS)
    requires i <= |t| && NoNul(t) && ParsePipe(t, i).Ok?
    ensures var r := ParsePipe(t, i);
      PipeOk(p) && Lex(t, i) == PipeToks(p) + Lex(t, r.pos) && Spelled(t, r.cmd) == PipeMeans(p)
    decreases |t| - i, 2
  {
    hide Lex, Skip, GetToken, Peek, ParseExec;
    var e := ExecSound(t, i);
    var l := ParseExec(t, i);
    SkipTwice(t, l.pos);
    SymTok(t, l.pos, '|');
    if !Peek(t, l.pos, {'|'}) {
      p := Last(e);
    } else {
      var rest := PipeSound(t, GetToken(t, Skip(t, l.pos)).next);
      p := Bar(e, rest);
    }
  }

  lemma Regroup(a: seq<Tok>, b: seq<Tok>, c: seq<Tok>)
    ensures a + b + c == a + (b + c)
  {
  }

  lemma LineToksThen(l: LineS, rest: seq<Tok>)
    ensures l.End? ==> LineToks(l) + rest == PipeToks(l.p) + (Ands(l.ands) + rest)
    ensures l.Semi? ==> LineToks(l) + rest == PipeToks(l.p) + (Ands(l.ands) + ([Sym(';')] + (LineToks(l.rest) + rest)))
  {
    hide PipeToks, Ands;
    var (a, b) := (PipeToks(l.p), Ands(l.ands));
    if l.End? {
      Regroup(a, b, rest);
    } else {
      var (c, d) := ([Sym(';')], LineToks(l.rest));
      Regroup(a, b, c + (d + rest));
      Regroup(a + b, c, d + rest);
      Regroup(a + b + c, d, rest);
    }
  }

  lemma ListMeans(t: string, a: Cmd<Span>, b: Cmd<Span>)
    ensures Spelled(t, List(a, b)) == List(Spelled(t, a), Spelled(t, b))
  {
  }

  lemma {:induction false} LineSound(t: string, i: nat) returns (l: LineS)
    requires i <= |t| && NoNul(t) && ParseLine(t, i).Ok?
    ensures var r := ParseLine(t, i);
      LineOk(l) && Lex(t, i) == LineToks(l) + Lex(t, r.pos) && Spelled(t, r.cmd) == LineMeans(l)
    decreases |t| - i, 3
  {
    hide Lex, Skip, GetToken, Peek, ParsePipe, Backs, LineToks, PipeToks, Ands, Spelled;
    var p := PipeSound(t, i);
    var a := ParsePipe(t, i);
    var n := BacksSound(t, a.pos, a.cmd);
    var j := Backs(t, a.pos, a.cmd).1;
    SkipTwice(t, j);
    SymTok(t, j, ';');
    if !Peek(t, j, {';'}) {
      l := End(p, n);
      LineToksThen(l, Lex(t, j));
    } else {
      var k := GetToken(t, Skip(t, j)).next;
      var rest := LineSound(t, k);
      l := Semi(p, n, rest);
      LineToksThen(l, Lex(t, ParseLine(t, k).pos));
      ListMeans(t, Backs(t, a.pos, a.cmd).0, ParseLine(t, k).cmd);
    }
  }

  // ---------------------------------------------------------------- what is in the grammar is accepted

  lemma {:induction false} BacksComplete(t: string, i: nat, c: Cmd<Span>, n: nat, rest: seq<Tok>)
    requires i <= |t| && NoNul(t) && Lex(t, i) == Ands(n) + rest && !Starts(rest, {'&'})
    ensures var (d, j) := Backs(t, i, c); Lex(t, j) == rest && Spelled(t, d) == InBack(Spelled(t, c), n)
    decreases n
  {
    hide Lex, Skip, GetToken, Peek;
    SkipTwice(t, i);
    SymTok(t, i, '&');
    if n == 0 {
      assert Ands(n) + rest == rest;
    } else {
      var j := GetToken(t, Skip(t, i)).next;
      assert Ands(n) + rest == [Sym('&')] + (Ands(n - 1) + rest);
      SameCons(Sym('&'), Lex(t, j), Sym('&'), Ands(n - 1) + rest);
      BacksComplete(t, j, Back(c), n - 1, rest);
      InBackOnce(Spelled(t, c), n - 1);
    }
  }

  /** A simple command does not start with a parenthesis. */
  lemma SimpleStarts(rs: seq<Redirection>, args: seq<Arg>, rest: seq<Tok>)
    requires ArgsOk(args) && (rest == [] || Starts(rest, ENDS))
    ensures !Starts(RedsToks(rs) + (ArgsToks(args) + rest), {'('})
  {
    if rs == [] {
      assert RedsToks(rs) + (ArgsToks(args) + rest) == ArgsToks(args) + rest;
      if args == [] { assert ArgsToks(args) + rest == rest; }
    }
  }

  lemma {:induction false} SimpleComplete(t: string, i: nat, rs: seq<Redirection>, args: seq<Arg>, rest: seq<Tok>)
    requires i <= |t| && NoNul(t) && ExecOk(Simple(rs, args)) && Lex(t, i) == ExecToks(Simple(rs, args)) + rest
    requires rest == [] || Starts(rest, ENDS)
    ensures var r := ParseExec(t, i);
      r.Ok? && Lex(t, r.pos) == rest && Spelled(t, r.cmd) == ExecMeans(Simple(rs, args))
  {
    hide Lex, Skip, GetToken, Peek, Redirs, Args, ParseBlock, Starts;
    SkipTwice(t, i);
    assert ExecToks(Simple(rs, args)) + rest == RedsToks(rs) + (ArgsToks(args) + rest);
    SimpleStarts(rs, args, rest);
    PeekToks(t, i, {'('});
    ArgsNext(args, rest);
    RedsComplete(t, Skip(t, i), Exec([]), rs, ArgsToks(args) + rest);
    var r := Redirs(t, Skip(t, i), Exec([]));
    assert Reading(t, r.cmd, [], rs);
    ArgsComplete(t, r.pos, r.cmd, [], rs, args, rest);
    assert [] + Words(args) == Words(args);
  }

  lemma StartsSym(c: char, rest: seq<Tok>)
    ensures forall cs: set<char> :: Starts([Sym(c)] + rest, cs) <==> c in cs
  {
  }

  /** The closing parenthesis and the redirections after it. */
  lemma BlockEnds(t: string, i: nat, l: LineS, rs: seq<Redirection>, rest: seq<Tok>)
    requires i <= |t| && NoNul(t) && Peek(t, i, {'('}) && (rest == [] || Starts(rest, ENDS))
    requires var r := ParseLine(t, GetToken(t, Skip(t, i)).next);
      r.Ok? && Lex(t, r.pos) == [Sym(')')] + (RedsToks(rs) + rest) && Spelled(t, r.cmd) == LineMeans(l)
    ensures var r := ParseBlock(t, Skip(t, i));
      r.Ok? && Lex(t, r.pos) == rest && Spelled(t, r.cmd) == ExecMeans(Block(l, rs))
  {
    hide Lex, Skip, GetToken, Redirs, ParseLine;
    SkipTwice(t, i);
    var r := ParseLine(t, GetToken(t, Skip(t, i)).next);
    SymTok(t, r.pos, ')');
    var m := GetToken(t, Skip(t, r.pos)).next;
    SameCons(Sym(')'), Lex(t, m), Sym(')'), RedsToks(rs) + rest);
    RedsComplete(t, m, r.cmd, rs, rest);
  }

  lemma {:induction false} ExecComplete(t: string, i: nat, e: ExecS, rest: seq<Tok>)
    requires i <= |t| && NoNul(t) && ExecOk(e) && Lex(t, i) == ExecToks(e) + rest && (rest == [] || Starts(rest, ENDS))
    ensures var r := ParseExec(t, i); r.Ok? && Lex(t, r.pos) == rest && Spelled(t, r.cmd) == ExecMeans(e)
    decreases e, 0
  {
    hide Lex, Skip, GetToken, Peek, Redirs, ParseLine, ParseBlock, Starts;
    match e
    case Simple(rs, args) => SimpleComplete(t, i, rs, args, rest);
    case Block(l, rs) =>
      var (inside, after) := (LineToks(l) + ([Sym(')')] + (RedsToks(rs) + rest)), [Sym(')')] + (RedsToks(rs) + rest));
      assert ExecToks(e) + rest == [Sym('(')] + inside;
      SkipTwice(t, i);
      SymTok(t, i, '(');
      var k := GetToken(t, Skip(t, i)).next;
      SameCons(Sym('('), Lex(t, k), Sym('('), inside);
      assert Starts(after, {')'}) by { StartsSym(')', RedsToks(rs) + rest); }
      LineComplete(t, k, l, after);
      BlockEnds(t, i, l, rs, rest);
      assert ParseExec(t, i) == ParseBlock(t, Skip(t, i));
  }

  lemma {:induction false} PipeComplete(t: string, i: nat, p: PipeS, rest: seq<Tok>)
    requires i <= |t| && NoNul(t) && PipeOk(p) && Lex(t, i) == PipeToks(p) + rest
    requires rest == [] || Starts(rest, {')', '&', ';'})
    ensures var r := ParsePipe(t, i); r.Ok? && Lex(t, r.pos) == rest && Spelled(t, r.cmd) == PipeMeans(p)
    decreases p, 0
  {
    hide Lex, Skip, GetToken, Peek, ParseExec;
    match p
    case Last(e) =>
      ExecComplete(t, i, e, rest);
      var l := ParseExec(t, i);
      SkipTwice(t, l.pos);
      SymTok(t, l.pos, '|');
    case Bar(e, more) =>
      var after := PipeToks(more) + rest;
      assert PipeToks(p) + rest == ExecToks(e) + ([Sym('|')] + after);
      StartsSym('|', after);
      ExecComplete(t, i, e, [Sym('|')] + after);
      var l := ParseExec(t, i);
      SymTok(t, l.pos, '|');
      var k := GetToken(t, Skip(t, l.pos)).next;
      SameCons(Sym('|'), Lex(t, k), Sym('|'), after);
      PipeComplete(t, k, more, rest);
  }

  lemma AndsStart(n: nat, rest: seq<Tok>)
    requires rest == [] || Starts(rest, {')', ';'})
    ensures (Ands(n) + rest == [] || Starts(Ands(n) + rest, {')', '&', ';'})) && !Starts(rest, {'&'})
  {
    if n == 0 { assert Ands(n) + rest == rest; }
  }

  /** A pipeline and its "&". */
  lemma {:induction false} BackComplete(t: string, i: nat, p: PipeS, n: nat, rest: seq<Tok>)
    returns (c: Cmd<Span>, j: nat)
    requires i <= |t| && NoNul(t) && PipeOk(p) && Lex(t, i) == PipeToks(p) + (Ands(n) + rest)
    requires rest == [] || Starts(rest, {')', ';'})
    ensures var a := ParsePipe(t, i); a.Ok? && Backs(t, a.pos, a.cmd) == (c, j)
    ensures j <= |t| && Lex(t, j) == rest && Spelled(t, c) == InBack(PipeMeans(p), n)
    decreases p, 1
  {
    hide Lex, ParsePipe, Backs, Starts;
    AndsStart(n, rest);
    PipeComplete(t, i, p, Ands(n) + rest);
    var a := ParsePipe(t, i);
    BacksComplete(t, a.pos, a.cmd, n, rest);
    c, j := Backs(t, a.pos, a.cmd).0, Backs(t, a.pos, a.cmd).1;
  }

  lemma {:induction false} LineComplete(t: string, i: nat, l: LineS, rest: seq<Tok>)
    requires i <= |t| && NoNul(t) && LineOk(l) && Lex(t, i) == LineToks(l) + rest && (rest == [] || Starts(rest, {')'}))
    ensures var r := ParseLine(t, i); r.Ok? && Lex(t, r.pos) == rest && Spelled(t, r.cmd) == LineMeans(l)
    decreases l, 0
  {
    hide Lex, Skip, GetToken, Peek, ParsePipe, Backs, LineToks, PipeToks, Ands, NoNul;
    LineToksThen(l, rest);
    match l
    case End(p, n) =>
      var c, j := BackComplete(t, i, p, n, rest);
      SkipTwice(t, j);
      SymTok(t, j, ';');
    case Semi(p, n, more) =>
      var after := LineToks(more) + rest;
      StartsSym(';', after);
      var c, j := BackComplete(t, i, p, n, [Sym(';')] + after);
      SymTok(t, j, ';');
      var k := GetToken(t, Skip(t, j)).next;
      SameCons(Sym(';'), Lex(t, k), Sym(';'), after);
      LineComplete(t, k, more, rest);
  }

  // ---------------------------------------------------------------- the parser is the grammar

  /** Nothing is left but white space. */
  lemma AtEnd(t: string, i: nat)
    requires i <= |t| && NoNul(t)
    ensures Lex(t, i) == [] <==> Skip(t, i) == |t|
  {
    hide Lex, Skip;
    NextTok(t, i);
  }

  /** A line is accepted if and only if its tokens are a line of the grammar, and it means what that line does. */
  lemma ParsesExactly(t: string)
    requires NoNul(t)
    ensures ParseCmd(t).Ok? <==> exists l :: LineOk(l) && LineToks(l) == Lex(t, 0)
    ensures forall l :: LineOk(l) && LineToks(l) == Lex(t, 0) ==> ParseCmd(t).Ok? && Meaning(t) == LineMeans(l)
  {
    hide Lex, Skip, ParseLine;
    var r := ParseLine(t, 0);
    if r.Ok? {
      AtEnd(t, r.pos);
      var l := LineSound(t, 0);
      assert Lex(t, r.pos) == [] ==> LineToks(l) + Lex(t, r.pos) == LineToks(l);
    }
    forall l | LineOk(l) && LineToks(l) == Lex(t, 0)
      ensures ParseCmd(t).Ok? && Meaning(t) == LineMeans(l)
    {
      assert LineToks(l) + [] == LineToks(l);
      LineComplete(t, 0, l, []);
    }
  }

  lemma {:induction false} RenderNoNul(gaps: seq<string>, ks: seq<Tok>)
    requires GapsOk(gaps, ks)
    ensures NoNul(Render(gaps, ks))
    decreases |ks|
  {
    GapsBlank(gaps, ks);
    if ks != [] {
      GapsTail(gaps, ks);
      RenderNoNul(gaps[1..], ks[1..]);
    }
  }

  /** However a line of the grammar is spaced, it is accepted and means what it should. */
  lemma LineMeansIt(l: LineS, gaps: seq<string>)
    requires LineOk(l) && GapsOk(gaps, LineToks(l))
    ensures var t := Render(gaps, LineToks(l)); NoNul(t) && ParseCmd(t).Ok? && Meaning(t) == LineMeans(l)
  {
    hide Lex, ParseCmd, Meaning;
    var t := Render(gaps, LineToks(l));
    RenderNoNul(gaps, LineToks(l));
    LexExact(t, LineToks(l));
    ParsesExactly(t);
  }

  // ---------------------------------------------------------------- what the parser returns

  /** A whole word of the line: letters only, and no letter after it. */
  ghost predicate IsWord(t: string, w: Span) {
    w.q < w.eq <= |t| && (forall k :: w.q <= k < w.eq ==> IsLetter(t[k])) && !IsLetter(At(t, w.eq))
  }

  ghost predicate GoodTree(t: string, c: Cmd<Span>) {
    match c
    case Exec(argv) => |argv| < MAXARGS && forall k :: 0 <= k < |argv| ==> IsWord(t, argv[k])
    case Redir(d, f, mode, fd) => GoodTree(t, d) && IsWord(t, f) && GoodMode(mode, fd)
    case Pipe(l, r) => GoodTree(t, l) && GoodTree(t, r)
    case List(l, r) => GoodTree(t, l) && GoodTree(t, r)
    case Back(d) => GoodTree(t, d)
  }

  lemma TokenIsWord(t: string, i: nat)
    requires i <= |t| && NoNul(t) && GetToken(t, i).ret == 'a'
    ensures IsWord(t, Span(GetToken(t, i).q, GetToken(t, i).eq))
  {
    WordEndExact(t, Skip(t, i), WordEnd(t, Skip(t, i)));
  }

  lemma {:induction false} RedirsGood(t: string, i: nat, c: Cmd<Span>)
    requires i <= |t| && NoNul(t) && GoodTree(t, c) && Redirs(t, i, c).Ok?
    ensures GoodTree(t, Redirs(t, i, c).cmd)
    decreases |t| - i
  {
    if Peek(t, i, {'<', '>'}) {
      var op := GetToken(t, Skip(t, i));
      var f := GetToken(t, op.next);
      TokenIsWord(t, op.next);
      RedirsGood(t, f.next, Redirect(c, op.ret, Span(f.q, f.eq)));
    }
  }

  /** A simple command under redirections, and its number of words. */
  function Argc(c: Cmd<Span>): (n: int) {
    match c
    case Exec(argv) => |argv|
    case Redir(d, _, _, _) => Argc(d)
    case _ => -1
  }

  lemma {:induction false} RedirsArgc(t: string, i: nat, c: Cmd<Span>)
    requires i <= |t| && NoNul(t) && Redirs(t, i, c).Ok?
    ensures Argc(Redirs(t, i, c).cmd) == Argc(c)
    decreases |t| - i
  {
    if Peek(t, i, {'<', '>'}) {
      var op := GetToken(t, Skip(t, i));
      var f := GetToken(t, op.next);
      RedirsArgc(t, f.next, Redirect(c, op.ret, Span(f.q, f.eq)));
    }
  }

  lemma {:induction false} AddWordGood(t: string, c: Cmd<Span>, w: Span)
    requires GoodTree(t, c) && IsWord(t, w) && 0 <= Argc(c) && Argc(c) + 1 < MAXARGS
    ensures GoodTree(t, AddWord(c, w)) && Argc(AddWord(c, w)) == Argc(c) + 1
  {
    if c.Redir? {
      AddWordGood(t, c.cmd, w);
    }
  }

  lemma {:induction false} ArgsGood(t: string, i: nat, ret: Cmd<Span>, argc: nat)
    requires i <= |t| && NoNul(t) && GoodTree(t, ret) && Argc(ret) == argc && Args(t, i, ret, argc).Ok?
    ensures GoodTree(t, Args(t, i, ret, argc).cmd)
    decreases |t| - i
  {
    hide Redirs;
    if !Peek(t, i, {'|', ')', '&', ';'}) {
      var k := GetToken(t, Skip(t, i));
      if k.ret != NUL {
        TokenIsWord(t, Skip(t, i));
        var c := AddWord(ret, Span(k.q, k.eq));
        AddWordGood(t, ret, Span(k.q, k.eq));
        RedirsGood(t, k.next, c);
        RedirsArgc(t, k.next, c);
        var r := Redirs(t, k.next, c);
        ArgsGood(t, r.pos, r.cmd, argc + 1);
      }
    }
  }

  lemma {:induction false} ExecGood(t: string, i: nat)
    requires i <= |t| && NoNul(t) && ParseExec(t, i).Ok?
    ensures GoodTree(t, ParseExec(t, i).cmd)
    decreases |t| - i, 1
  {
    hide Redirs, Args, ParseBlock;
    if Peek(t, i, {'('}) {
      BlockGood(t, Skip(t, i));
    } else {
      RedirsGood(t, Skip(t, i), Exec([]));
      RedirsArgc(t, Skip(t, i), Exec([]));
      var r := Redirs(t, Skip(t, i), Exec([]));
      ArgsGood(t, r.pos, r.cmd, 0);
    }
  }

  lemma {:induction false} BlockGood(t: string, i: nat)
    requires i <= |t| && NoNul(t) && ParseBlock(t, i).Ok?
    ensures GoodTree(t, ParseBlock(t, i).cmd)
    decreases |t| - i, 0
  {
    hide Redirs, ParseLine;
    var k := GetToken(t, Skip(t, i)).next;
    LineGood(t, k);
    var r := ParseLine(t, k);
    RedirsGood(t, GetToken(t, Skip(t, r.pos)).next, r.cmd);
  }

  lemma {:induction false} PipeGood(t: string, i: nat)
    requires i <= |t| && NoNul(t) && ParsePipe(t, i).Ok?
    ensures GoodTree(t, ParsePipe(t, i).cmd)
    decreases |t| - i, 2
  {
    hide ParseExec;
    ExecGood(t, i);
    var l := ParseExec(t, i);
    if Peek(t, l.pos, {'|'}) {
      PipeGood(t, GetToken(t, Skip(t, l.pos)).next);
    }
  }

  lemma {:induction false} BacksGood(t: string, i: nat, c: Cmd<Span>)
    requires i <= |t| && NoNul(t) && GoodTree(t, c)
    ensures GoodTree(t, Backs(t, i, c).0)
    decreases |t| - i
  {
    if Peek(t, i, {'&'}) {
      BacksGood(t, GetToken(t, Skip(t, i)).next, Back(c));
    }
  }

  lemma {:induction false} LineGood(t: string, i: nat)
    requires i <= |t| && NoNul(t) && ParseLine(t, i).Ok?
    ensures GoodTree(t, ParseLine(t, i).cmd)
    decreases |t| - i, 3
  {
    hide ParsePipe, Backs;
    PipeGood(t, i);
    var l := ParsePipe(t, i);
    BacksGood(t, l.pos, l.cmd);
    var j := Backs(t, l.pos, l.cmd).1;
    if Peek(t, j, {';'}) {
      LineGood(t, GetToken(t, Skip(t, j)).next);
    }
  }

  lemma {:induction false} GoodTreeSpells(t: string, c: Cmd<Span>)
    requires GoodTree(t, c)
    ensures Good(Spelled(t, c))
  {
    match c
    case Exec(argv) =>
      forall k | 0 <= k < |argv|
        ensures GoodWord(SpellAll(t, argv)[k])
      {
        assert IsWord(t, argv[k]);
      }
    case Redir(d, f, _, _) => GoodTreeSpells(t, d);
    case Pipe(l, r) => GoodTreeSpells(t, l); GoodTreeSpells(t, r);
    case List(l, r) => GoodTreeSpells(t, l); GoodTreeSpells(t, r);
    case Back(d) => GoodTreeSpells(t, d);
  }

  // ---------------------------------------------------------------- printing

  /** Nodes of a command. */
  function Size(c: Cmd<string>): nat {
    match c
    case Exec(_) => 1
    case Redir(d, _, _, _) => 1 + Size(d)
    case Pipe(l, r) => 1 + Size(l) + Size(r)
    case List(l, r) => 1 + Size(l) + Size(r)
    case Back(d) => 1 + Size(d)
  }

  /** What is under the redirections of a command. */
  function Core(c: Cmd<string>): (d: Cmd<string>)
    ensures !d.Redir? && Size(d) <= Size(c) && (c.Redir? ==> Size(d) < Size(c))
  {
    if c.Redir? then Core(c.cmd) else c
  }

  /** The redirections of a command, the innermost first. */
  function Reds(c: Cmd<string>): seq<Redirection> {
    if c.Redir? then Reds(c.cmd) + [Redirection(if c.mode == O_RDONLY then In else Out, c.file)] else []
  }

  /** What is to go to the background, and how many times over. */
  function Front(c: Cmd<string>): (d: Cmd<string>)
    ensures !d.Back? && Size(d) <= Size(c) && (c.Back? ==> Size(d) < Size(c))
  {
    if c.Back? then Front(c.cmd) else c
  }

  function Depth(c: Cmd<string>): nat {
    if c.Back? then Depth(c.cmd) + 1 else 0
  }

  function PlainArgs(ws: seq<string>): (args: seq<Arg>)
    ensures |args| == |ws|
  {
    seq(|ws|, k requires 0 <= k < |ws| => Arg(ws[k], []))
  }

  /** How many of the forms below hand a command on before one takes it apart. */
  function Turns(c: Cmd<string>, form: nat): nat {
    (form + if c.Exec? || c.Redir? then 0 else if c.Pipe? then 2 else 1) % 3
  }

  /** Concrete syntax for a command, with parentheses only where a simple command, a pipeline or a line does not do. */
  function ExecForm(c: Cmd<string>): ExecS
    decreases Size(c), Turns(c, 0)
  {
    if Core(c).Exec? then Simple(Reds(c), PlainArgs(Core(c).argv)) else Block(LineForm(Core(c)), Reds(c))
  }

  function PipeForm(c: Cmd<string>): PipeS
    decreases Size(c), Turns(c, 1)
  {
    if c.Pipe? then Bar(ExecForm(c.left), PipeForm(c.right)) else Last(ExecForm(c))
  }

  function LineForm(c: Cmd<string>): LineS
    decreases Size(c), Turns(c, 2)
  {
    if c.List? then Semi(PipeForm(Front(c.left)), Depth(c.left), LineForm(c.right))
    else End(PipeForm(Front(c)), Depth(c))
  }

  /** A space between any two tokens. */
  function Spaces(n: nat): (gaps: seq<string>)
    ensures |gaps| == n + 1
  {
    seq(n + 1, i => if 0 < i < n then " " else "")
  }

  function Print(c: Cmd<string>): string {
    var ks := LineToks(LineForm(c));
    Render(Spaces(|ks|), ks)
  }

  lemma {:induction false} CoreMeans(c: Cmd<string>)
    requires Good(c)
    ensures Wrap(Core(c), Reds(c)) == c && Good(Core(c)) && RedsOk(Reds(c))
  {
    if c.Redir? {
      CoreMeans(c.cmd);
      assert Reds(c)[..|Reds(c)| - 1] == Reds(c.cmd);
    }
  }

  lemma {:induction false} FrontMeans(c: Cmd<string>)
    requires Good(c)
    ensures InBack(Front(c), Depth(c)) == c && Good(Front(c))
  {
    if c.Back? { FrontMeans(c.cmd); }
  }

  lemma {:induction false} PlainReds(ws: seq<string>)
    ensures AllReds(PlainArgs(ws)) == [] && Words(PlainArgs(ws)) == ws
  {
    if ws != [] {
      PlainReds(ws[1..]);
      assert PlainArgs(ws)[1..] == PlainArgs(ws[1..]);
    }
  }

  lemma {:induction false} ExecFormMeans(c: Cmd<string>)
    requires Good(c)
    ensures ExecOk(ExecForm(c)) && ExecMeans(ExecForm(c)) == c
    decreases Size(c), Turns(c, 0)
  {
    CoreMeans(c);
    if Core(c).Exec? {
      PlainReds(Core(c).argv);
      assert Reds(c) + [] == Reds(c);
    } else {
      LineFormMeans(Core(c));
    }
  }

  lemma {:induction false} PipeFormMeans(c: Cmd<string>)
    requires Good(c)
    ensures PipeOk(PipeForm(c)) && PipeMeans(PipeForm(c)) == c
    decreases Size(c), Turns(c, 1)
  {
    if c.Pipe? {
      ExecFormMeans(c.left);
      PipeFormMeans(c.right);
    } else {
      ExecFormMeans(c);
    }
  }

  lemma {:induction false} LineFormMeans(c: Cmd<string>)
    requires Good(c)
    ensures LineOk(LineForm(c)) && LineMeans(LineForm(c)) == c
    decreases Size(c), Turns(c, 2)
  {
    if c.List? {
      FrontMeans(c.left);
      PipeFormMeans(Front(c.left));
      LineFormMeans(c.right);
    } else {
      FrontMeans(c);
      PipeFormMeans(Front(c));
    }
  }

  // ---------------------------------------------------------------- no parentheses that could be left out

  /** Pairs of parentheses. */
  function ExecParens(e: ExecS): nat {
    if e.Simple? then 0 else 1 + LineParens(e.line)
  }

  function PipeParens(p: PipeS): nat {
    ExecParens(p.e) + if p.Bar? then PipeParens(p.rest) else 0
  }

  function LineParens(l: LineS): nat {
    PipeParens(l.p) + if l.Semi? then LineParens(l.rest) else 0
  }

  /** A form that allows more takes no more parentheses. */
  lemma FormsParens(c: Cmd<string>)
    ensures LineParens(LineForm(c)) <= PipeParens(PipeForm(c)) <= ExecParens(ExecForm(c))
    ensures PipeParens(PipeForm(Front(c))) <= PipeParens(PipeForm(c))
    ensures !Core(c).Exec? ==> LineParens(LineForm(Core(c))) <= LineParens(LineForm(c))
  {
  }

  lemma {:induction false} WrapCore(c: Cmd<string>, rs: seq<Redirection>)
    ensures Core(Wrap(c, rs)) == Core(c)
    decreases |rs|
  {
    if rs != [] { WrapCore(c, rs[..|rs| - 1]); }
  }

  lemma {:induction false} InBackFront(c: Cmd<string>, n: nat)
    ensures Front(InBack(c, n)) == Front(c)
  {
    if n > 0 { InBackFront(c, n - 1); }
  }

  lemma {:induction false} ExecFewest(e: ExecS)
    ensures ExecParens(ExecForm(ExecMeans(e))) <= ExecParens(e)
    decreases e, 0
  {
    match e
    case Simple(rs, args) => WrapCore(Exec(Words(args)), rs + AllReds(args));
    case Block(l, rs) =>
      var c := LineMeans(l);
      WrapCore(c, rs);
      LineFewest(l);
      FormsParens(c);
  }

  lemma {:induction false} PipeFewest(p: PipeS)
    ensures PipeParens(PipeForm(PipeMeans(p))) <= PipeParens(p)
    decreases p, 0
  {
    ExecFewest(p.e);
    FormsParens(ExecMeans(p.e));
    if p.Bar? { PipeFewest(p.rest); }
  }

  /** No line of the grammar that stands for the same tree has fewer parentheses than the printed one. */
  lemma {:induction false} LineFewest(l: LineS)
    ensures LineParens(LineForm(LineMeans(l))) <= LineParens(l)
    decreases l, 0
  {
    var c := PipeMeans(l.p);
    PipeFewest(l.p);
    FormsParens(c);
    InBackFront(c, l.ands);
    if l.Semi? { LineFewest(l.rest); }
  }

  // ---------------------------------------------------------------- tokens of good syntax are good

  ghost predicate GoodToks(ks: seq<Tok>) {
    forall i :: 0 <= i < |ks| ==> GoodTok(ks[i])
  }

  lemma {:induction false} RedsGoodToks(rs: seq<Redirection>)
    requires RedsOk(rs)
    ensures GoodToks(RedsToks(rs))
  {
    if rs != [] { RedsGoodToks(rs[1..]); }
  }

  lemma {:induction false} ArgsGoodToks(args: seq<Arg>)
    requires ArgsOk(args)
    ensures GoodToks(ArgsToks(args))
  {
    if args != [] {
      RedsGoodToks(args[0].reds);
      ArgsGoodToks(args[1..]);
    }
  }

  lemma {:induction false} AndsGoodToks(n: nat)
    ensures GoodToks(Ands(n))
  {
    if n > 0 { AndsGoodToks(n - 1); }
  }

  lemma {:induction false} ExecGoodToks(e: ExecS)
    requires ExecOk(e)
    ensures GoodToks(ExecToks(e))
  {
    match e
    case Simple(rs, args) => RedsGoodToks(rs); ArgsGoodToks(args);
    case Block(l, rs) => LineGoodToks(l); RedsGoodToks(rs);
  }

  lemma {:induction false} PipeGoodToks(p: PipeS)
    requires PipeOk(p)
    ensures GoodToks(PipeToks(p))
  {
    ExecGoodToks(p.e);
    if p.Bar? { PipeGoodToks(p.rest); }
  }

  lemma {:induction false} LineGoodToks(l: LineS)
    requires LineOk(l)
    ensures GoodToks(LineToks(l))
  {
    PipeGoodToks(l.p);
    AndsGoodToks(l.ands);
    if l.Semi? { LineGoodToks(l.rest); }
  }

  /** Printing and parsing: every tree that can be written comes back, with no input left over. */
  lemma RoundTrip(c: Cmd<string>)
    requires Good(c)
    ensures NoNul(Print(c)) && ParseCmd(Print(c)).Ok? && Meaning(Print(c)) == c
  {
    hide ParseCmd, Meaning, LineToks, LineForm;
    var l := LineForm(c);
    LineFormMeans(c);
    LineGoodToks(l);
    LineMeansIt(l, Spaces(|LineToks(l)|));
  }

  /** Every accepted line means what its printed form means: the writable trees are exactly the parser's results. */
  lemma Reprint(t: string)
    requires NoNul(t) && ParseCmd(t).Ok?
    ensures Good(Meaning(t)) && NoNul(Print(Meaning(t))) && ParseCmd(Print(Meaning(t))).Ok?
    ensures Meaning(Print(Meaning(t))) == Meaning(t)
  {
    hide ParseLine, Print;
    LineGood(t, 0);
    GoodTreeSpells(t, ParseLine(t, 0).cmd);
    RoundTrip(Meaning(t));
  }

  lemma WritableExactly(c: Cmd<string>)
    ensures Good(c) <==> exists t :: NoNul(t) && ParseCmd(t).Ok? && Meaning(t) == c
  {
    hide ParseCmd;
    if Good(c) {
      RoundTrip(c);
    }
    if t :| NoNul(t) && ParseCmd(t).Ok? && Meaning(t) == c {
      Reprint(t);
    }
  }

  // ---------------------------------------------------------------- parseblock's own panic

  lemma {:induction false} RedirsFail(t: string, i: nat, c: Cmd<Span>)
    requires i <= |t| && NoNul(t)
    ensures Redirs(t, i, c) != Fail(NoBlock)
    decreases |t| - i
  {
    if Peek(t, i, {'<', '>'}) {
      var op := GetToken(t, Skip(t, i));
      var f := GetToken(t, op.next);
      if f.ret == 'a' {
        RedirsFail(t, f.next, Redirect(c, op.ret, Span(f.q, f.eq)));
      }
    }
  }

  lemma {:induction false} ArgsFail(t: string, i: nat, ret: Cmd<Span>, argc: nat)
    requires i <= |t| && NoNul(t)
    ensures Args(t, i, ret, argc) != Fail(NoBlock)
    decreases |t| - i
  {
    hide Redirs;
    if !Peek(t, i, {'|', ')', '&', ';'}) {
      var k := GetToken(t, Skip(t, i));
      if k.ret == 'a' {
        var c := AddWord(ret, Span(k.q, k.eq));
        RedirsFail(t, k.next, c);
        var r := Redirs(t, k.next, c);
        if r.Ok? {
          ArgsFail(t, r.pos, r.cmd, argc + 1);
        }
      }
    }
  }

  /** parseblock is entered only on a parenthesis, so its first panic never fires. */
  lemma {:induction false} BlockIsGuarded(t: string, i: nat, rank: nat)
    requires i <= |t| && NoNul(t)
    ensures rank == 1 ==> ParseExec(t, i) != Fail(NoBlock)
    ensures rank == 2 ==> ParsePipe(t, i) != Fail(NoBlock)
    ensures rank == 3 ==> ParseLine(t, i) != Fail(NoBlock)
    decreases |t| - i, rank
  {
    hide Redirs, Args, Backs;
    if rank == 1 {
      if Peek(t, i, {'('}) {
        BlockIsGuarded(t, GetToken(t, Skip(t, i)).next, 3);
        var r := ParseLine(t, GetToken(t, Skip(t, i)).next);
        if r.Ok? {
          RedirsFail(t, GetToken(t, Skip(t, r.pos)).next, r.cmd);
        }
      } else {
        RedirsFail(t, Skip(t, i), Exec([]));
        var r := Redirs(t, Skip(t, i), Exec([]));
        if r.Ok? {
          ArgsFail(t, r.pos, r.cmd, 0);
        }
      }
    } else if rank == 2 {
      BlockIsGuarded(t, i, 1);
      var l := ParseExec(t, i);
      if l.Ok? && Peek(t, l.pos, {'|'}) {
        BlockIsGuarded(t, GetToken(t, Skip(t, l.pos)).next, 2);
      }
    } else if rank == 3 {
      BlockIsGuarded(t, i, 2);
      var l := ParsePipe(t, i);
      if l.Ok? && Peek(t, Backs(t, l.pos, l.cmd).1, {';'}) {
        BlockIsGuarded(t, GetToken(t, Skip(t, Backs(t, l.pos, l.cmd).1)).next, 3);
      }
    }
  }
}
