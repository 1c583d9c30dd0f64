/** The parser of xv6/sh.c as it runs: a cursor moved over the line in its buffer, loops, and nulterminate's writes
    into the same buffer, tied to the functions of ShellGrammar. */
module Shell {

  import opened Common
  import opened ShellGrammar
  import opened ShellRoundTrip

  // ---------------------------------------------------------------- the words of a tree

  /** The span is an argument or a file name of the command. */
  ghost predicate HasWord(c: Cmd<Span>, w: Span) {
    match c
    case Exec(argv) => w in argv
    case Redir(d, f, _, _) => f == w || HasWord(d, w)
    case Pipe(l, r) => HasWord(l, w) || HasWord(r, w)
    case List(l, r) => HasWord(l, w) || HasWord(r, w)
    case Back(d) => HasWord(d, w)
  }

  /** Where nulterminate writes: eargv and efile. */
  ghost predicate IsEnd(c: Cmd<Span>, e: nat) {
    match c
    case Exec(argv) => exists k :: 0 <= k < |argv| && argv[k].eq == e
    case Redir(d, f, _, _) => f.eq == e || IsEnd(d, e)
    case Pipe(l, r) => IsEnd(l, e) || IsEnd(r, e)
    case List(l, r) => IsEnd(l, e) || IsEnd(r, e)
    case Back(d) => IsEnd(d, e)
  }

  lemma {:induction false} WordsAreWords(t: string, c: Cmd<Span>, w: Span)
    requires GoodTree(t, c) && HasWord(c, w)
    ensures IsWord(t, w) && IsEnd(c, w.eq)
  {
    match c
    case Exec(argv) =>
    case Redir(d, f, _, _) => if HasWord(d, w) { WordsAreWords(t, d, w); }
    case Pipe(l, r) => if HasWord(l, w) { WordsAreWords(t, l, w); } else { WordsAreWords(t, r, w); }
    case List(l, r) => if HasWord(l, w) { WordsAreWords(t, l, w); } else { WordsAreWords(t, r, w); }
    case Back(d) => WordsAreWords(t, d, w);
  }

  /** No word of the line is cut: what is overwritten is no letter of any word. */
  lemma {:induction false} EndsAreNoLetters(t: string, c: Cmd<Span>, e: nat)
    requires GoodTree(t, c) && IsEnd(c, e)
    ensures e <= |t| && !IsLetter(At(t, e))
  {
    match c
    case Exec(argv) =>
    case Redir(d, f, _, _) => if IsEnd(d, e) { EndsAreNoLetters(t, d, e); }
    case Pipe(l, r) => if IsEnd(l, e) { EndsAreNoLetters(t, l, e); } else { EndsAreNoLetters(t, r, e); }
    case List(l, r) => if IsEnd(l, e) { EndsAreNoLetters(t, l, e); } else { EndsAreNoLetters(t, r, e); }
    case Back(d) => EndsAreNoLetters(t, d, e);
  }

  /** The buffer after nulterminate. */
  ghost predicate Terminated(before: seq<char>, after: seq<char>, c: Cmd<Span>) {
    |after| == |before| && forall i :: 0 <= i < |after| ==> after[i] == if IsEnd(c, i) then NUL else before[i]
  }

  /** A C string: from a pointer to the first NUL. */
  function CString(buf: seq<char>, q: nat): (s: string)
    requires q <= |buf|
    decreases |buf| - q
  {
    if q == |buf| || buf[q] == NUL then "" else [buf[q]] + CString(buf, q + 1)
  }

  lemma {:induction false} CStringIs(buf: seq<char>, q: nat, e: nat)
    requires q <= e < |buf| && buf[e] == NUL && forall k :: q <= k < e ==> buf[k] != NUL
    ensures CString(buf, q) == buf[q..e]
    decreases e - q
  {
    if q < e {
      CStringIs(buf, q + 1, e);
    }
  }

  /** After nulterminate every argument and file name, read as a C string, is its token. */
  lemma WordsReadBack(t: string, c: Cmd<Span>, after: seq<char>, w: Span)
    requires NoNul(t) && GoodTree(t, c) && Terminated(t + [NUL], after, c) && HasWord(c, w)
    ensures w.q <= |after| && CString(after, w.q) == Spell(t, w)
  {
    WordsAreWords(t, c, w);
    forall k | w.q <= k < w.eq
      ensures after[k] == t[k] && t[k] != NUL
    {
      if IsEnd(c, k) {
        EndsAreNoLetters(t, c, k);
      }
    }
    CStringIs(after, w.q, w.eq);
    assert after[w.q..w.eq] == t[w.q..w.eq];
  }

  // ---------------------------------------------------------------- the running parser

  class Parser {
    ghost const text: string
    var buf: seq<char>   // the line and its NUL
    var s: nat           // the cursor *ps

    ghost predicate Valid()
      reads this
    {
      NoNul(text) && buf == text + [NUL] && s <= |text|
    }

    constructor (line: string)
      requires NoNul(line)
      ensures Valid() && text == line && s == 0
    {
      text := line;
      buf := line + [NUL];
      s := 0;
    }

    method SkipSpace(i: nat) returns (j: nat)
      requires Valid() && i <= |text|
      ensures j == Skip(text, i)
    {
      j := i;
      while j < |buf| - 1 && IsSpace(buf[j])
        invariant i <= j <= |text| && Skip(text, i) == Skip(text, j)
      {
        j := j + 1;
      }
    }

    method GetToken() returns (ret: char, q: nat, eq: nat)
      requires Valid()
      modifies this`s
      ensures Valid() && Token(ret, q, eq, s) == ShellGrammar.GetToken(text, old(s))
    {
      q := SkipSpace(s);
      ret := buf[q];
      eq := q;
      if ret == NUL {
      } else if ret == '>' {
        eq := eq + 1;
        if buf[eq] == '>' {
          ret := '+';
          eq := eq + 1;
        }
      } else if IsSymbol(ret) {
        eq := eq + 1;
      } else {
        ret := 'a';
        while eq < |buf| - 1 && !IsSpace(buf[eq]) && !IsSymbol(buf[eq])
          invariant q <= eq <= |text| && WordEnd(text, q) == WordEnd(text, eq)
        {
          eq := eq + 1;
        }
      }
      s := SkipSpace(eq);
    }

    method PeekAt(toks: set<char>) returns (found: bool)
      requires Valid()
      modifies this`s
      ensures Valid() && s == Skip(text, old(s)) == Skip(text, s)
      ensures found == Peek(text, old(s), toks) == Peek(text, s, toks)
    {
      s := SkipSpace(s);
      found := buf[s] != NUL && buf[s] in toks;
    }

    method ParseRedirs(cmd: Cmd<Span>) returns (r: Parse)
      requires Valid()
      modifies this`s
      ensures Valid() && r == Redirs(text, old(s), cmd) && (r.Ok? ==> s == r.pos)
    {
      var ret := cmd;
      var more := PeekAt({'<', '>'});
      while more
        invariant Valid() && s == Skip(text, s) && more == Peek(text, s, {'<', '>'})
        invariant Redirs(text, old(s), cmd) == Redirs(text, s, ret)
        decreases |text| - s, more
      {
        var tok, _, _ := GetToken();
        var kind, q, eq := GetToken();
        if kind != 'a' {
          return Fail(MissingFile);
        }
        ret := Redirect(ret, tok, Span(q, eq));
        more := PeekAt({'<', '>'});
      }
      return Ok(ret, s);
    }

    method ParseExecCmd() returns (r: Parse)
      requires Valid()
      modifies this`s
      ensures Valid() && r == ParseExec(text, old(s)) && (r.Ok? ==> s == r.pos)
      decreases |text| - s, 1
    {
      hide ParseLine, ParsePipe;
      var block := PeekAt({'('});
      if block {
        r := ParseBlockCmd();
        return;
      }
      r := ParseRedirs(Exec([]));
      if r.Fail? {
        return;
      }
      r := ParseArgs(r.cmd);
    }

    /** parseexec's argument loop */
    method ParseArgs(cmd: Cmd<Span>) returns (r: Parse)
      requires Valid()
      modifies this`s
      ensures Valid() && r == Args(text, old(s), cmd, 0) && (r.Ok? ==> s == r.pos)
    {
      hide Redirs, Skip, WordEnd, Peek, AddWord, IsSpace, At, ShellGrammar.GetToken;
      var ret, argc := cmd, 0;
      var stop := PeekAt({'|', ')', '&', ';'});
      while !stop
        invariant Valid() && s == Skip(text, s) && stop == Peek(text, s, {'|', ')', '&', ';'})
        invariant Args(text, old(s), cmd, 0) == Args(text, s, ret, argc)
        decreases |text| - s, !stop
      {
        var tok, q, eq := GetToken();
        if tok == NUL {
          break;
        }
        if tok != 'a' {
          return Fail(Syntax);
        }
        if argc + 1 >= MAXARGS {
          return Fail(TooManyArgs);
        }
        argc := argc + 1;
        var next := ParseRedirs(AddWord(ret, Span(q, eq)));
        if next.Fail? {
          return next;
        }
        ret := next.cmd;
        stop := PeekAt({'|', ')', '&', ';'});
      }
      return Ok(ret, s);
    }

    method ParseBlockCmd() returns (r: Parse)
      requires Valid()
      modifies this`s
      ensures Valid() && r == ParseBlock(text, old(s)) && (r.Ok? ==> s == r.pos)
      decreases |text| - s, 0
    {
      hide ParseLine, Redirs;
      var open := PeekAt({'('});
      if !open {
        return Fail(NoBlock);
      }
      var _, _, _ := GetToken();
      r := ParseLineCmd();
      if r.Fail? {
        return;
      }
      var close := PeekAt({')'});
      if !close {
        return Fail(MissingParen);
      }
      var _, _, _ := GetToken();
      r := ParseRedirs(r.cmd);
    }

    method ParsePipeCmd() returns (r: Parse)
      requires Valid()
      modifies this`s
      ensures Valid() && r == ParsePipe(text, old(s)) && (r.Ok? ==> s == r.pos)
      decreases |text| - s, 2
    {
      hide ParseExec;
      r := ParseExecCmd();
      if r.Fail? {
        return;
      }
      var left := r.cmd;
      var more := PeekAt({'|'});
      if more {
        var _, _, _ := GetToken();
        r := ParsePipeCmd();
        if r.Fail? {
          return;
        }
        return Ok(Cmd.Pipe(left, r.cmd), s);
      }
      return Ok(left, s);
    }

    method ParseLineCmd() returns (r: Parse)
      requires Valid()
      modifies this`s
      ensures Valid() && r == ParseLine(text, old(s)) && (r.Ok? ==> s == r.pos)
      decreases |text| - s, 3
    {
      hide ParsePipe;
      r := ParsePipeCmd();
      if r.Fail? {
        return;
      }
      var cmd := ParseBacks(r.cmd);
      var more := PeekAt({';'});
      if more {
        var _, _, _ := GetToken();
        r := ParseLineCmd();
        if r.Fail? {
          return;
        }
        return Ok(List(cmd, r.cmd), s);
      }
      return Ok(cmd, s);
    }

    /** parseline's loop over "&" */
    method ParseBacks(first: Cmd<Span>) returns (cmd: Cmd<Span>)
      requires Valid()
      modifies this`s
      ensures Valid() && (cmd, s) == Backs(text, old(s), first)
    {
      cmd := first;
      var more := PeekAt({'&'});
      while more
        invariant Valid() && s == Skip(text, s) && more == Peek(text, s, {'&'})
        invariant Backs(text, old(s), first) == Backs(text, s, cmd)
        decreases |text| - s, more
      {
        var _, _, _ := GetToken();
        cmd := Back(cmd);
        more := PeekAt({'&'});
      }
    }

    /** nulterminate: the recursion over the tree, writing NULs into the line */
    method NulTerminate(c: Cmd<Span>)
      requires forall e: nat :: IsEnd(c, e) ==> e < |buf|
      modifies this`buf
      ensures Terminated(old(buf), buf, c)
      decreases c
    {
      match c
      case Exec(argv) =>
        var i := 0;
        while i < |argv|
          invariant 0 <= i <= |argv| && |buf| == |old(buf)|
          invariant forall j :: 0 <= j < |buf| ==>
            buf[j] == if (exists k :: 0 <= k < i && argv[k].eq == j) then NUL else old(buf)[j]
        {
          assert IsEnd(c, argv[i].eq);
          buf := buf[argv[i].eq := NUL];
          i := i + 1;
        }
      case Redir(d, f, _, _) =>
        assert forall e: nat :: IsEnd(d, e) ==> IsEnd(c, e);
        NulTerminate(d);
        assert IsEnd(c, f.eq);
        buf := buf[f.eq := NUL];
      case Pipe(l, r) =>
        assert forall e: nat :: IsEnd(l, e) || IsEnd(r, e) ==> IsEnd(c, e);
        NulTerminate(l);
        NulTerminate(r);
      case List(l, r) =>
        assert forall e: nat :: IsEnd(l, e) || IsEnd(r, e) ==> IsEnd(c, e);
        NulTerminate(l);
        NulTerminate(r);
      case Back(d) =>
        assert forall e: nat :: IsEnd(d, e) ==> IsEnd(c, e);
        NulTerminate(d);
    }

    /** The parser's answer is the grammar's; on success every word of the tree reads back from the buffer. */
    method ParseCommand() returns (r: Parse)
      requires Valid() && s == 0
      modifies this
      ensures r == ParseCmd(text)
      ensures r.Fail? ==> buf == old(buf)
      ensures r.Ok? ==> Terminated(old(buf), buf, r.cmd)
      ensures r.Ok? ==> forall w :: HasWord(r.cmd, w) ==> w.q <= |buf| && CString(buf, w.q) == Spell(text, w)
    {
      hide ParseLine;
      r := ParseLineCmd();
      if r.Fail? {
        return;
      }
      var _ := PeekAt({});
      if s != |buf| - 1 {
        return Fail(Leftovers);
      }
      LineGood(text, 0);
      forall e: nat | IsEnd(r.cmd, e)
        ensures e < |buf|
      {
        EndsAreNoLetters(text, r.cmd, e);
      }
      NulTerminate(r.cmd);
      forall w | HasWord(r.cmd, w)
        ensures w.q <= |buf| && CString(buf, w.q) == Spell(text, w)
      {
        WordsReadBack(text, r.cmd, buf, w);
      }
      return Ok(r.cmd, s);
    }
  }
}
