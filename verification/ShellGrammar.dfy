/** The command language of xv6/sh.c as functions on a line and a position in it: the scanner, the five mutually
    recursive parse functions, and a canonical printer. A position stands for the source's cursor *ps; a panic is
    a Fail. Lines hold no NUL; the position |t| reads as NUL. */
module ShellGrammar {

  import opened Common

  const MAXARGS: nat := 10
  const O_RDONLY: int := 0
  const O_WRONLY: int := 1
  const O_CREATE: int := 0x200

  /** A command tree; W is a word: a span of the line, or the string it spells. */
  datatype Cmd<W> =
    | Exec(argv: seq<W>)
    | Redir(cmd: Cmd<W>, file: W, mode: int, fd: int)
    | Pipe(left: Cmd<W>, right: Cmd<W>)
    | List(left: Cmd<W>, right: Cmd<W>)
    | Back(cmd: Cmd<W>)

  datatype Span = Span(q: nat, eq: nat)

  datatype Error = MissingFile | NoBlock | MissingParen | Syntax | TooManyArgs | Leftovers

  datatype Parse = Ok(cmd: Cmd<Span>, pos: nat) | Fail(error: Error)

  predicate IsSpace(c: char) {
    c == ' ' || c == '\t' || c == '\r' || c == '\n' || c == '\U{0B}'
  }

  predicate IsSymbol(c: char) {
    c == '<' || c == '|' || c == '>' || c == '&' || c == ';' || c == '(' || c == ')'
  }

  /** A character that can stand in a word. */
  predicate IsLetter(c: char) {
    c != NUL && !IsSpace(c) && !IsSymbol(c)
  }

  ghost predicate NoNul(t: string) {
    forall k :: 0 <= k < |t| ==> t[k] != NUL
  }

  function At(t: string, i: nat): char {
    if i < |t| then t[i] else NUL
  }

  // ---------------------------------------------------------------- scanner

  function Skip(t: string, i: nat): (j: nat)
    requires i <= |t|
    ensures i <= j <= |t| && !IsSpace(At(t, j))
    decreases |t| - i
  {
    if i < |t| && IsSpace(t[i]) then Skip(t, i + 1) else i
  }

  function WordEnd(t: string, i: nat): (j: nat)
    requires i <= |t|
    ensures i <= j <= |t| && (i < |t| && !IsSpace(t[i]) && !IsSymbol(t[i]) ==> i < j)
    decreases |t| - i
  {
    if i < |t| && !IsSpace(t[i]) && !IsSymbol(t[i]) then WordEnd(t, i + 1) else i
  }

  /** ret: the kind ('a' a word, '+' for >>, NUL the end, else the symbol); the token's span; where the cursor goes */
  datatype Token = Token(ret: char, q: nat, eq: nat, next: nat)

  function GetToken(t: string, i: nat): (k: Token)
    requires i <= |t|
    ensures i <= k.q <= k.eq <= k.next <= |t| && !IsSpace(At(t, k.next))
    ensures k.ret == NUL || i < k.next
  {
    var q := Skip(t, i);
    var c := At(t, q);
    if c == NUL then Token(NUL, q, q, Skip(t, q))
    else if IsSymbol(c) && c != '>' then Token(c, q, q + 1, Skip(t, q + 1))
    else if c == '>' then
      if At(t, q + 1) == '>' then Token('+', q, q + 2, Skip(t, q + 2)) else Token('>', q, q + 1, Skip(t, q + 1))
    else Token('a', q, WordEnd(t, q), Skip(t, WordEnd(t, q)))
  }

  predicate Peek(t: string, i: nat, toks: set<char>)
    requires i <= |t|
  {
    var c := At(t, Skip(t, i));
    c != NUL && c in toks
  }

  // ---------------------------------------------------------------- parser

  /** cmd->argv[argc] = q, where cmd is the EXEC node under the redirections that wrap it */
  function AddWord(ret: Cmd<Span>, w: Span): Cmd<Span> {
    match ret
    case Exec(argv) => Exec(argv + [w])
    case Redir(c, f, m, d) => Redir(AddWord(c, w), f, m, d)
    case _ => ret
  }

  function Redirect(cmd: Cmd<Span>, tok: char, f: Span): Cmd<Span> {
    if tok == '<' then Redir(cmd, f, O_RDONLY, 0) else Redir(cmd, f, O_WRONLY + O_CREATE, 1)
  }

  /** parseredirs */
  function Redirs(t: string, i: nat, cmd: Cmd<Span>): (r: Parse)
    requires i <= |t| && NoNul(t)
    ensures r.Ok? ==> i <= r.pos <= |t|
    decreases |t| - i
  {
    if !Peek(t, i, {'<', '>'}) then Ok(cmd, Skip(t, i))
    else
      var op := GetToken(t, Skip(t, i));
      var f := GetToken(t, op.next);
      if f.ret != 'a' then Fail(MissingFile) else Redirs(t, f.next, Redirect(cmd, op.ret, Span(f.q, f.eq)))
  }

  /** the argument loop of parseexec */
  function Args(t: string, i: nat, ret: Cmd<Span>, argc: nat): (r: Parse)
    requires i <= |t| && NoNul(t)
    ensures r.Ok? ==> i <= r.pos <= |t|
    decreases |t| - i
  {
    if Peek(t, i, {'|', ')', '&', ';'}) then Ok(ret, Skip(t, i))
    else
      var k := GetToken(t, Skip(t, i));
      if k.ret == NUL then Ok(ret, k.next)
      else if k.ret != 'a' then Fail(Syntax)
      else if argc + 1 >= MAXARGS then Fail(TooManyArgs)
      else
        var r := Redirs(t, k.next, AddWord(ret, Span(k.q, k.eq)));
        if r.Fail? then r else Args(t, r.pos, r.cmd, argc + 1)
  }

  function ParseExec(t: string, i: nat): (r: Parse)
    requires i <= |t| && NoNul(t)
    ensures r.Ok? ==> i <= r.pos <= |t|
    decreases |t| - i, 1
  {
    if Peek(t, i, {'('}) then ParseBlock(t, Skip(t, i))
    else
      var r := Redirs(t, Skip(t, i), Exec([]));
      if r.Fail? then r else Args(t, r.pos, r.cmd, 0)
  }

  function ParseBlock(t: string, i: nat): (r: Parse)
    requires i <= |t| && NoNul(t)
    ensures r.Ok? ==> i < r.pos <= |t|
    decreases |t| - i, 0
  {
    if !Peek(t, i, {'('}) then Fail(NoBlock)
    else
      var r := ParseLine(t, GetToken(t, Skip(t, i)).next);
      if r.Fail? then r
      else if !Peek(t, r.pos, {')'}) then Fail(MissingParen)
      else Redirs(t, GetToken(t, Skip(t, r.pos)).next, r.cmd)
  }

  function ParsePipe(t: string, i: nat): (r: Parse)
    requires i <= |t| && NoNul(t)
    ensures r.Ok? ==> i <= r.pos <= |t|
    decreases |t| - i, 2
  {
    var l := ParseExec(t, i);
    if l.Fail? || !Peek(t, l.pos, {'|'}) then (if l.Fail? then l else Ok(l.cmd, Skip(t, l.pos)))
    else
      var r := ParsePipe(t, GetToken(t, Skip(t, l.pos)).next);
      if r.Fail? then r else Ok(Pipe(l.cmd, r.cmd), r.pos)
  }

  /** the loop of parseline over "&" */
  function Backs(t: string, i: nat, cmd: Cmd<Span>): (r: (Cmd<Span>, nat))
    requires i <= |t| && NoNul(t)
    ensures i <= r.1 <= |t|
    decreases |t| - i
  {
    if !Peek(t, i, {'&'}) then (cmd, Skip(t, i)) else Backs(t, GetToken(t, Skip(t, i)).next, Back(cmd))
  }

  function ParseLine(t: string, i: nat): (r: Parse)
    requires i <= |t| && NoNul(t)
    ensures r.Ok? ==> i <= r.pos <= |t|
    decreases |t| - i, 3
  {
    var l := ParsePipe(t, i);
    if l.Fail? then l
    else
      var (c, j) := Backs(t, l.pos, l.cmd);
      if !Peek(t, j, {';'}) then Ok(c, Skip(t, j))
      else
        var r := ParseLine(t, GetToken(t, Skip(t, j)).next);
        if r.Fail? then r else Ok(List(c, r.cmd), r.pos)
  }

  function ParseCmd(t: string): (r: Parse)
    requires NoNul(t)
  {
    var r := ParseLine(t, 0);
    if r.Fail? then r else if Skip(t, r.pos) != |t| then Fail(Leftovers) else Ok(r.cmd, |t|)
  }
}
