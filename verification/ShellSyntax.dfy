/** The command language of xv6/sh.c as a grammar, apart from the parser: tokens and the ways to write them in a
    line, concrete syntax and its tokens, and the command tree that a piece of syntax stands for. */
module ShellSyntax {

  import opened Common
  import opened ShellGrammar

  // ---------------------------------------------------------------- tokens

  datatype Tok = Word(w: string) | Sym(c: char) | Append

  ghost predicate GoodWord(w: string) {
    |w| > 0 && forall k :: 0 <= k < |w| ==> IsLetter(w[k])
  }

  ghost predicate GoodTok(k: Tok) {
    match k
    case Word(w) => GoodWord(w)
    case Sym(c) => IsSymbol(c)
    case Append => true
  }

  function TokText(k: Tok): string {
    match k
    case Word(w) => w
    case Sym(c) => [c]
    case Append => ">>"
  }

  /** The first character. */
  function First(k: Tok): char {
    if TokText(k) == "" then NUL else TokText(k)[0]
  }

  /** The next token starts with one of these characters. */
  predicate Starts(ks: seq<Tok>, cs: set<char>) {
    ks != [] && First(ks[0]) in cs
  }

  /** Without a space between them the two would read as something else. */
  predicate Merge(a: Tok, b: Tok) {
    (a.Word? && b.Word?) || (a == Sym('>') && First(b) == '>')
  }

  ghost predicate Blank(g: string) {
    forall k :: 0 <= k < |g| ==> IsSpace(g[k])
  }

  /** White space before, between and after the tokens, some of it where two would merge. */
  ghost predicate GapsOk(gaps: seq<string>, ks: seq<Tok>) {
    && |gaps| == |ks| + 1
    && (forall i :: 0 <= i < |gaps| ==> Blank(gaps[i]))
    && (forall i :: 0 <= i < |ks| ==> GoodTok(ks[i]))
    && (forall i :: 0 < i < |ks| && Merge(ks[i - 1], ks[i]) ==> gaps[i] != "")
  }

  /** Tokens with white space around them. */
  function Render(gaps: seq<string>, ks: seq<Tok>): string
    requires |gaps| == |ks| + 1
    decreases |ks|
  {
    if ks == [] then gaps[0] else gaps[0] + (TokText(ks[0]) + Render(gaps[1..], ks[1..]))
  }

  // ---------------------------------------------------------------- concrete syntax

  datatype RedirOp = In | Out | OutAppend

  datatype Redirection = Redirection(op: RedirOp, file: string)

  /** A word and the redirections after it. */
  datatype Arg = Arg(word: string, reds: seq<Redirection>)

  /** A simple command, or a line in parentheses. */
  datatype ExecS = Simple(reds: seq<Redirection>, args: seq<Arg>) | Block(line: LineS, reds: seq<Redirection>)

  datatype PipeS = Last(e: ExecS) | Bar(e: ExecS, rest: PipeS)

  /** A pipeline and its number of "&", alone or before ";" and more. */
  datatype LineS = End(p: PipeS, ands: nat) | Semi(p: PipeS, ands: nat, rest: LineS)

  function OpTok(op: RedirOp): Tok {
    match op
    case In => Sym('<')
    case Out => Sym('>')
    case OutAppend => Append
  }

  function RedsToks(rs: seq<Redirection>): seq<Tok> {
    if rs == [] then [] else [OpTok(rs[0].op), Word(rs[0].file)] + RedsToks(rs[1..])
  }

  function ArgsToks(args: seq<Arg>): seq<Tok> {
    if args == [] then [] else [Word(args[0].word)] + RedsToks(args[0].reds) + ArgsToks(args[1..])
  }

  function Ands(n: nat): seq<Tok> {
    if n == 0 then [] else [Sym('&')] + Ands(n - 1)
  }

  function ExecToks(e: ExecS): seq<Tok> {
    match e
    case Simple(rs, args) => RedsToks(rs) + ArgsToks(args)
    case Block(l, rs) => [Sym('(')] + LineToks(l) + [Sym(')')] + RedsToks(rs)
  }

  function PipeToks(p: PipeS): seq<Tok> {
    match p
    case Last(e) => ExecToks(e)
    case Bar(e, rest) => ExecToks(e) + [Sym('|')] + PipeToks(rest)
  }

  function LineToks(l: LineS): seq<Tok> {
    match l
    case End(p, n) => PipeToks(p) + Ands(n)
    case Semi(p, n, rest) => PipeToks(p) + Ands(n) + [Sym(';')] + LineToks(rest)
  }

  // ---------------------------------------------------------------- what it stands for

  function Words(args: seq<Arg>): (ws: seq<string>)
    ensures |ws| == |args|
  {
    seq(|args|, k requires 0 <= k < |args| => args[k].word)
  }

  function AllReds(args: seq<Arg>): seq<Redirection> {
    if args == [] then [] else args[0].reds + AllReds(args[1..])
  }

  /** Redirections around a command, the last one outermost. */
  function Wrap(c: Cmd<string>, rs: seq<Redirection>): Cmd<string>
    decreases |rs|
  {
    if rs == [] then c
    else
      var (d, r) := (Wrap(c, rs[..|rs| - 1]), rs[|rs| - 1]);
      if r.op == In then Redir(d, r.file, O_RDONLY, 0) else Redir(d, r.file, O_WRONLY + O_CREATE, 1)
  }

  function InBack(c: Cmd<string>, n: nat): Cmd<string> {
    if n == 0 then c else Back(InBack(c, n - 1))
  }

  function ExecMeans(e: ExecS): Cmd<string> {
    match e
    case Simple(rs, args) => Wrap(Exec(Words(args)), rs + AllReds(args))
    case Block(l, rs) => Wrap(LineMeans(l), rs)
  }

  function PipeMeans(p: PipeS): Cmd<string> {
    match p
    case Last(e) => ExecMeans(e)
    case Bar(e, rest) => Cmd.Pipe(ExecMeans(e), PipeMeans(rest))
  }

  function LineMeans(l: LineS): Cmd<string> {
    match l
    case End(p, n) => InBack(PipeMeans(p), n)
    case Semi(p, n, rest) => List(InBack(PipeMeans(p), n), LineMeans(rest))
  }

  // ---------------------------------------------------------------- limits

  ghost predicate RedsOk(rs: seq<Redirection>) {
    forall k :: 0 <= k < |rs| ==> GoodWord(rs[k].file)
  }

  ghost predicate ArgsOk(args: seq<Arg>) {
    forall k :: 0 <= k < |args| ==> GoodWord(args[k].word) && RedsOk(args[k].reds)
  }

  ghost predicate ExecOk(e: ExecS) {
    match e
    case Simple(rs, args) => RedsOk(rs) && ArgsOk(args) && |args| < MAXARGS
    case Block(l, rs) => LineOk(l) && RedsOk(rs)
  }

  ghost predicate PipeOk(p: PipeS) {
    match p
    case Last(e) => ExecOk(e)
    case Bar(e, rest) => ExecOk(e) && PipeOk(rest)
  }

  /** Words of letters, and fewer than MAXARGS in a simple command. */
  ghost predicate LineOk(l: LineS) {
    match l
    case End(p, _) => PipeOk(p)
    case Semi(p, _, rest) => PipeOk(p) && LineOk(rest)
  }

  // ---------------------------------------------------------------- the scanner

  /** The cursor skips white space, all of it and nothing else. */
  lemma {:induction false} SkipExact(t: string, i: nat, j: nat)
    requires i <= j <= |t|
    ensures j == Skip(t, i) <==> (forall k :: i <= k < j ==> IsSpace(t[k])) && (j < |t| ==> !IsSpace(t[j]))
    decreases |t| - i
  {
    if i < j && IsSpace(t[i]) {
      SkipExact(t, i + 1, j);
    }
  }

  /** A word runs to the first white space, symbol or end. */
  lemma {:induction false} WordEndExact(t: string, i: nat, e: nat)
    requires i <= e <= |t| && NoNul(t)
    ensures e == WordEnd(t, i) <==> (forall k :: i <= k < e ==> IsLetter(t[k])) && !IsLetter(At(t, e))
    decreases |t| - i
  {
    if i < e && IsLetter(t[i]) {
      WordEndExact(t, i + 1, e);
    }
  }

  function ToTok(t: string, k: Token): Tok
    requires k.q <= k.eq <= |t|
  {
    if k.ret == 'a' then Word(t[k.q..k.eq]) else if k.ret == '+' then Append else Sym(k.ret)
  }

  /** The tokens from a place of the line on. */
  function Lex(t: string, i: nat): seq<Tok>
    requires i <= |t|
    decreases |t| - i
  {
    var k := GetToken(t, i);
    if k.ret == NUL then [] else [ToTok(t, k)] + Lex(t, k.next)
  }

  lemma SkipTwice(t: string, i: nat)
    requires i <= |t|
    ensures Skip(t, Skip(t, i)) == Skip(t, i) && GetToken(t, Skip(t, i)) == GetToken(t, i)
    ensures Lex(t, Skip(t, i)) == Lex(t, i)
  {
    var j := Skip(t, i);
    assert Skip(t, j) == j;
  }

  /** A place between a token and the next. */
  lemma SkipGap(t: string, i: nat, j: nat)
    requires i <= j <= |t| && forall k :: i <= k < j ==> IsSpace(t[k])
    ensures Skip(t, i) == Skip(t, j)
  {
    SkipExact(t, j, Skip(t, j));
    SkipExact(t, i, Skip(t, j));
  }

  lemma TokenText(t: string, i: nat)
    requires i <= |t| && NoNul(t) && GetToken(t, i).ret != NUL
    ensures var k := GetToken(t, i);
      && k.q == Skip(t, i) && k.q < k.eq && k.next == Skip(t, k.eq)
      && GoodTok(ToTok(t, k)) && TokText(ToTok(t, k)) == t[k.q..k.eq]
      && (k.ret == 'a' <==> ToTok(t, k).Word?)
  {
    hide Lex;
    var k := GetToken(t, i);
    WordEndExact(t, k.q, WordEnd(t, k.q));
    if k.ret == 'a' {
      assert GoodWord(t[k.q..k.eq]);
    } else {
      assert IsSymbol(t[k.q]);
      assert k.ret != '+' ==> t[k.q..k.eq] == [t[k.q]];
    }
  }

  /** The next token. */
  lemma NextTok(t: string, i: nat)
    requires i <= |t| && NoNul(t)
    ensures var k := GetToken(t, i);
      if k.ret == NUL then Lex(t, i) == [] && Skip(t, i) == |t|
      else Lex(t, i) == [ToTok(t, k)] + Lex(t, k.next) && Lex(t, k.next) == Lex(t, k.eq) && First(ToTok(t, k)) == t[k.q]
  {
    var k := GetToken(t, i);
    if k.ret != NUL {
      TokenText(t, i);
      SkipTwice(t, k.eq);
    }
  }

  /** peek() and the tokens. */
  lemma PeekToks(t: string, i: nat, cs: set<char>)
    requires i <= |t| && NoNul(t) && forall c :: c in cs ==> IsSymbol(c)
    ensures Peek(t, i, cs) <==> Starts(Lex(t, i), cs)
  {
    hide Lex;
    NextTok(t, i);
    var k := GetToken(t, i);
    if k.ret != NUL { TokenText(t, i); }
  }

  // ---------------------------------------------------------------- every line is its tokens, in one way

  lemma BlankSkip(t: string, i: nat, g: string, rest: string)
    requires i <= |t| && t[i..] == g + rest && Blank(g) && (rest != "" ==> !IsSpace(rest[0]))
    ensures Skip(t, i) == i + |g| <= |t| && t[i + |g|..] == rest
  {
    assert forall k :: i <= k < i + |g| ==> t[k] == t[i..][k - i];
    assert t[i + |g|..] == t[i..][|g|..];
    SkipExact(t, i, i + |g|);
  }

  lemma TextThere(t: string, i: nat, w: string, rest: string)
    requires i <= |t| && t[i..] == w + rest
    ensures var e := i + |w|;
      && e <= |t| && t[i..e] == w && t[e..] == rest && At(t, e) == (if rest == "" then NUL else rest[0])
      && forall m :: i <= m < e ==> t[m] == w[m - i]
  {
    var e := i + |w|;
    assert forall m :: i <= m < |t| ==> t[m] == (w + rest)[m - i];
    assert t[e..] == rest;
  }

  /** A symbol at the cursor. */
  lemma SymbolAt(t: string, i: nat)
    requires i < |t| && IsSymbol(t[i])
    ensures var (two, k) := (t[i] == '>' && At(t, i + 1) == '>', GetToken(t, i));
      k.q == i && k.ret == (if two then '+' else t[i]) && k.eq == if two then i + 2 else i + 1
  {
    assert Skip(t, i) == i;
  }

  /** A word at the cursor. */
  lemma WordAt(t: string, i: nat, e: nat)
    requires i < e <= |t| && NoNul(t) && (forall m :: i <= m < e ==> IsLetter(t[m])) && !IsLetter(At(t, e))
    ensures var k := GetToken(t, i); k.q == i && k.ret == 'a' && k.eq == e
  {
    assert IsLetter(t[i]);
    assert Skip(t, i) == i;
    WordEndExact(t, i, e);
  }

  /** A token where it stands, nothing that it would merge with behind it. */
  lemma TokenThere(t: string, i: nat, k: Tok, rest: string)
    requires i <= |t| && NoNul(t) && t[i..] == TokText(k) + rest && GoodTok(k)
    requires rest != "" && k.Word? ==> !IsLetter(rest[0])
    requires rest != "" && k == Sym('>') ==> rest[0] != '>'
    ensures !IsSpace(At(t, i))
    ensures var j := GetToken(t, i); j.ret != NUL && ToTok(t, j) == k && j.eq == i + |TokText(k)| && t[j.eq..] == rest
  {
    hide Lex, GetToken, Skip;
    var e := i + |TokText(k)|;
    TextThere(t, i, TokText(k), rest);
    assert t[i] == TokText(k)[0];
    match k
    case Word(w) =>
      assert IsLetter(w[0]);
      WordAt(t, i, e);
    case Sym(c) =>
      SymbolAt(t, i);
    case Append =>
      assert t[i + 1] == '>';
      SymbolAt(t, i);
  }

  lemma RenderStarts(gaps: seq<string>, ks: seq<Tok>)
    requires GapsOk(gaps, ks)
    ensures var t := Render(gaps, ks);
      t != "" ==> t[0] == if gaps[0] != "" then gaps[0][0] else First(ks[0])
  {
  }

  lemma GapsTail(gaps: seq<string>, ks: seq<Tok>)
    requires GapsOk(gaps, ks) && ks != []
    ensures GapsOk(gaps[1..], ks[1..]) && Blank(gaps[0]) && GoodTok(ks[0])
    ensures |ks| > 1 && Merge(ks[0], ks[1]) ==> gaps[1] != ""
  {
    forall i | 0 < i < |ks[1..]| && Merge(ks[1..][i - 1], ks[1..][i])
      ensures gaps[1..][i] != ""
    {
      assert Merge(ks[i], ks[i + 1]);
    }
  }

  lemma GapsCons(g: string, k: Tok, gaps: seq<string>, ks: seq<Tok>)
    requires Blank(g) && GoodTok(k) && GapsOk(gaps, ks) && (ks != [] && Merge(k, ks[0]) ==> gaps[0] != "")
    ensures GapsOk([g] + gaps, [k] + ks)
    ensures Render([g] + gaps, [k] + ks) == g + (TokText(k) + Render(gaps, ks))
  {
    var (gs, all) := ([g] + gaps, [k] + ks);
    assert gs[1..] == gaps && all[1..] == ks;
    forall i | 0 < i < |all| && Merge(all[i - 1], all[i])
      ensures gs[i] != ""
    {
      if i > 1 { assert Merge(ks[i - 2], ks[i - 1]); }
    }
  }

  /** What stands behind a token does not merge with it. */
  lemma NoMerge(gaps: seq<string>, ks: seq<Tok>)
    requires GapsOk(gaps, ks) && ks != []
    ensures var rest := Render(gaps[1..], ks[1..]);
      && (rest != "" && ks[0].Word? ==> !IsLetter(rest[0]))
      && (rest != "" && ks[0] == Sym('>') ==> rest[0] != '>')
  {
    GapsTail(gaps, ks);
    RenderStarts(gaps[1..], ks[1..]);
    if |ks| > 1 && gaps[1] == "" { assert GoodTok(ks[1]); }
  }

  lemma TokStarts(k: Tok)
    requires GoodTok(k)
    ensures TokText(k) != "" && !IsSpace(TokText(k)[0])
  {
  }

  lemma FirstThere(t: string, i: nat, g: string, k: Tok, rest: string)
    requires i <= |t| && NoNul(t) && Blank(g) && GoodTok(k) && t[i..] == g + (TokText(k) + rest)
    requires rest != "" && k.Word? ==> !IsLetter(rest[0])
    requires rest != "" && k == Sym('>') ==> rest[0] != '>'
    ensures var e := i + |g| + |TokText(k)|; e <= |t| && t[e..] == rest && Lex(t, i) == [k] + Lex(t, e)
  {
    hide Lex, GetToken, Skip, Blank, ToTok, TokText, GoodTok, IsLetter, IsSpace, NoNul;
    var (j, w) := (i + |g|, TokText(k) + rest);
    TokStarts(k);
    assert w[0] == TokText(k)[0];
    BlankSkip(t, i, g, w);
    SkipTwice(t, i);
    TokenThere(t, j, k, rest);
    NextTok(t, j);
  }

  lemma GapsBlank(gaps: seq<string>, ks: seq<Tok>)
    requires GapsOk(gaps, ks)
    ensures Blank(gaps[0])
  {
  }

  lemma NoTok(t: string, i: nat)
    requires i <= |t| && Skip(t, i) == |t|
    ensures Lex(t, i) == [] && GetToken(t, i).ret == NUL
  {
  }

  lemma {:induction false} LexRender(t: string, i: nat, gaps: seq<string>, ks: seq<Tok>)
    requires i <= |t| && NoNul(t) && |gaps| == |ks| + 1 && GapsOk(gaps, ks) && t[i..] == Render(gaps, ks)
    ensures Lex(t, i) == ks
    decreases |ks|
  {
    hide Lex, GetToken, GapsOk, Skip, TokText, IsLetter;
    if ks == [] {
      assert Blank(gaps[0]) by { GapsBlank(gaps, ks); }
      BlankSkip(t, i, gaps[0], "");
      assert Skip(t, i) == |t|;
      NoTok(t, i);
    } else {
      GapsTail(gaps, ks);
      NoMerge(gaps, ks);
      FirstThere(t, i, gaps[0], ks[0], Render(gaps[1..], ks[1..]));
      LexRender(t, i + |gaps[0]| + |TokText(ks[0])|, gaps[1..], ks[1..]);
    }
  }

  lemma GapBlank(t: string, i: nat)
    requires i <= |t|
    ensures Blank(t[i..Skip(t, i)]) && (Skip(t, i) == |t| ==> Blank(t[i..]))
  {
    SkipExact(t, i, Skip(t, i));
    if Skip(t, i) == |t| { assert t[i..|t|] == t[i..]; }
  }

  lemma OneGap(g: string)
    requires Blank(g)
    ensures GapsOk([g], []) && Render([g], []) == g
  {
  }

  /** A token of the line ends where the next does not merge with it. */
  lemma ApartFrom(t: string, i: nat, gaps: seq<string>)
    requires i <= |t| && NoNul(t) && GetToken(t, i).ret != NUL
    requires var ks := Lex(t, GetToken(t, i).eq);
      ks != [] && GapsOk(gaps, ks) && t[GetToken(t, i).eq..] == Render(gaps, ks)
    ensures Merge(ToTok(t, GetToken(t, i)), Lex(t, GetToken(t, i).eq)[0]) ==> gaps[0] != ""
  {
    hide Lex, Skip;
    var k := GetToken(t, i);
    var ks := Lex(t, k.eq);
    WordEndExact(t, k.q, WordEnd(t, k.q));
    RenderStarts(gaps, ks);
    if gaps[0] == "" {
      GapsTail(gaps, ks);
      TokStarts(ks[0]);
      assert Render(gaps, ks)[0] == First(ks[0]);
      assert At(t, k.eq) == First(ks[0]);
    }
  }

  lemma {:induction false} LexGaps(t: string, i: nat) returns (gaps: seq<string>)
    requires i <= |t| && NoNul(t)
    ensures GapsOk(gaps, Lex(t, i)) && t[i..] == Render(gaps, Lex(t, i))
    decreases |t| - i
  {
    hide Lex, GapsOk, Merge, Render, Skip, GetToken, ToTok, GoodTok, TokText, First, Blank;
    var k := GetToken(t, i);
    NextTok(t, i);
    GapBlank(t, i);
    if k.ret == NUL {
      gaps := [t[i..]];
      OneGap(t[i..]);
    } else {
      TokenText(t, i);
      var g := t[i..k.q];
      var more := LexGaps(t, k.eq);
      if Lex(t, k.eq) != [] { ApartFrom(t, i, more); }
      GapsCons(g, ToTok(t, k), more, Lex(t, k.eq));
      assert t[i..] == g + (t[k.q..k.eq] + t[k.eq..]);
      gaps := [g] + more;
    }
  }

  /** The tokens of a line: exactly those that, with white space around them, make it up. */
  lemma LexExact(t: string, ks: seq<Tok>)
    requires NoNul(t)
    ensures ks == Lex(t, 0) <==> exists gaps :: GapsOk(gaps, ks) && Render(gaps, ks) == t
  {
    assert t[0..] == t;
    if gaps :| GapsOk(gaps, ks) && Render(gaps, ks) == t { LexRender(t, 0, gaps, ks); }
    var gaps := LexGaps(t, 0);
  }
}
