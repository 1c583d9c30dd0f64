/** The reading loop of xv6/grep.c: which lines it hands to the matcher, given how the input arrives. A read is a
    non-empty piece of the input; the input holds no NUL. */
module GrepLines {

  import opened Common
  import opened Grep

  const NEWLINE: char := '\n'
  const BUFSIZE: nat := 1024

  // ---------------------------------------------------------------- lines

  predicate HasLine(s: string) {
    NEWLINE in s
  }

  /** strchr(s, '\n') */
  function Newline(s: string): (i: nat)
    requires HasLine(s)
    ensures i < |s| && s[i] == NEWLINE && !HasLine(s[..i])
  {
    if s[0] == NEWLINE then 0 else assert s == [s[0]] + s[1..]; 1 + Newline(s[1..])
  }

  /** The complete lines of a text, without their newlines, and what follows the last of them. */
  function Lines(s: string): seq<string> {
    if HasLine(s) then [s[..Newline(s)]] + Lines(s[Newline(s) + 1..]) else []
  }

  function Tail(s: string): (t: string)
    ensures !HasLine(t)
  {
    if HasLine(s) then Tail(s[Newline(s) + 1..]) else s
  }

  lemma NewlineAt(s: string, i: nat)
    requires i < |s| && s[i] == NEWLINE && !HasLine(s[..i])
    ensures HasLine(s) && Newline(s) == i
  {
    var j := Newline(s);
    assert forall k :: 0 <= k < i ==> s[k] == s[..i][k];
    assert forall k :: 0 <= k < j ==> s[k] == s[..j][k];
  }

  lemma NewlineIn(a: string, b: string)
    ensures HasLine(a + b) <==> HasLine(a) || HasLine(b)
    ensures HasLine(a) ==> Newline(a + b) == Newline(a)
    ensures !HasLine(a) && HasLine(b) ==> Newline(a + b) == |a| + Newline(b)
  {
    var s := a + b;
    if HasLine(a) {
      assert s[..Newline(a)] == a[..Newline(a)];
      NewlineAt(s, Newline(a));
    } else if HasLine(b) {
      var i := |a| + Newline(b);
      assert s[..i] == a + b[..Newline(b)];
      NewlineAt(s, i);
    }
  }

  /** Lines can be read off piece by piece, if the unfinished end of one piece is put before the next. */
  lemma {:induction false} LinesOfPieces(a: string, b: string)
    ensures Lines(a + b) == Lines(a) + Lines(Tail(a) + b)
    decreases |a|
  {
    hide Lines, Tail, HasLine, Newline;
    LinesUnfold(a);
    TailUnfold(a);
    if HasLine(a) {
      var i := Newline(a);
      var s, rest := a + b, a[i + 1..];
      NewlineIn(a, b);
      LinesUnfold(s);
      assert s[..i] == a[..i] && s[i + 1..] == rest + b;
      LinesOfPieces(rest, b);
    }
  }

  lemma LinesUnfold(s: string)
    ensures HasLine(s) ==> Lines(s) == [s[..Newline(s)]] + Lines(s[Newline(s) + 1..])
    ensures !HasLine(s) ==> Lines(s) == []
  {
    hide HasLine, Newline, Tail;
  }

  lemma TailUnfold(s: string)
    ensures HasLine(s) ==> Tail(s) == Tail(s[Newline(s) + 1..])
    ensures !HasLine(s) ==> Tail(s) == s
  {
    hide HasLine, Newline, Lines;
  }

  // ---------------------------------------------------------------- the reading loop

  function Input(pieces: seq<string>): string {
    if pieces == [] then [] else pieces[0] + Input(pieces[1..])
  }

  /** What stays in the buffer after a pass: the unfinished line, but nothing when the pass found no newline. */
  function Carried(buf: string): string {
    if HasLine(buf) then Tail(buf) else ""
  }

  /** The lines handed to match, starting with rest in the buffer. */
  function Examined(rest: string, pieces: seq<string>): seq<string>
    decreases |pieces|
  {
    if pieces == [] then []
    else Lines(rest + pieces[0]) + Examined(Carried(rest + pieces[0]), pieces[1..])
  }

  /** Every read is non-empty and fits in the buffer after what it holds. */
  ghost predicate Fits(rest: string, pieces: seq<string>)
    decreases |pieces|
  {
    pieces == [] || (0 < |pieces[0]| && |rest| + |pieces[0]| < BUFSIZE && Fits(Carried(rest + pieces[0]), pieces[1..]))
  }

  /** The reads that bring a newline all come before the reads that bring none. */
  ghost predicate NewlinesFirst(pieces: seq<string>) {
    pieces == [] || if HasLine(pieces[0]) then NewlinesFirst(pieces[1..]) else !HasLine(Input(pieces[1..]))
  }

  lemma {:induction false} NothingExamined(rest: string, pieces: seq<string>)
    requires !HasLine(rest) && !HasLine(Input(pieces))
    ensures Examined(rest, pieces) == []
    decreases |pieces|
  {
    if pieces != [] {
      NewlineIn(pieces[0], Input(pieces[1..]));
      NewlineIn(rest, pieces[0]);
      NothingExamined("", pieces[1..]);
    }
  }

  /** The first line examined is no longer than the buffer and the input up to its first newline. */
  lemma {:induction false} FirstExamined(rest: string, pieces: seq<string>)
    requires !HasLine(rest) && HasLine(Input(pieces))
    ensures Examined(rest, pieces) == [] || |Examined(rest, pieces)[0]| <= |rest| + Newline(Input(pieces))
    decreases |pieces|
  {
    var c, more := pieces[0], pieces[1..];
    NewlineIn(rest, c);
    NewlineIn(c, Input(more));
    if !HasLine(c) {
      FirstExamined("", more);
    }
  }

  /** grep looks at the complete lines of its input, all of them and as they are, exactly when no read without a newline
      is followed by one with. */
  lemma {:induction false} ExaminedExact(rest: string, pieces: seq<string>)
    requires !HasLine(rest) && forall k :: 0 <= k < |pieces| ==> |pieces[k]| > 0
    ensures Examined(rest, pieces) == Lines(rest + Input(pieces)) <==> NewlinesFirst(pieces)
    decreases |pieces|
  {
    if pieces == [] {
      assert rest + Input(pieces) == rest;
    } else {
      var c, more := pieces[0], pieces[1..];
      var buf := rest + c;
      assert rest + Input(pieces) == buf + Input(more);
      NewlineIn(rest, c);
      if HasLine(c) {
        LinesOfPieces(buf, Input(more));
        ExaminedExact(Tail(buf), more);
        SamePrefix(Lines(buf), Examined(Tail(buf), more), Lines(Tail(buf) + Input(more)));
      } else if HasLine(Input(more)) {
        NewlineIn(buf, Input(more));
        FirstExamined("", more);
      } else {
        NewlineIn(buf, Input(more));
        NothingExamined("", more);
      }
    }
  }

  /** Two reads of one line: the matcher is shown only the second. */
  lemma LineCutShort()
    ensures Examined("", ["ab", "c\n"]) == ["c"] && Lines(Input(["ab", "c\n"])) == ["abc"]
  {
    hide Lines, Newline;
    var two := "c\n";
    assert Input(["ab", two]) == "abc\n" by {
      assert Input([two]) == two + Input([]);
      assert ["ab", two][1..] == [two];
    }
    assert Newline("abc\n") == 3 by { NewlineAt("abc\n", 3); }
    assert Newline(two) == 1 by { NewlineAt(two, 1); }
    assert "abc\n"[..3] == "abc" && "abc\n"[4..] == "" && two[..1] == "c" && two[2..] == "";
    LinesUnfold("abc\n");
    LinesUnfold(two);
    LinesUnfold("ab");
    LinesUnfold("");
    assert ["ab", two][1..] == [two] && [two][1..] == [] && "" + "ab" == "ab" && "" + two == two;
    assert !HasLine("ab");
    assert Examined("", [two]) == Lines(two) + Examined(Carried(two), []);
  }

  lemma SamePrefix(p: seq<string>, a: seq<string>, b: seq<string>)
    ensures p + a == p + b <==> a == b
  {
    if p + a == p + b {
      assert a == (p + a)[|p|..] == (p + b)[|p|..] == b;
    }
  }

  // ---------------------------------------------------------------- the program

  /** The matching lines, with their newlines. */
  ghost function Output(re: string, lines: seq<string>): string {
    if lines == [] then "" else (if Found(re, lines[0]) then lines[0] + [NEWLINE] else "") + Output(re, lines[1..])
  }

  lemma {:induction false} OutputAppends(re: string, a: seq<string>, b: seq<string>)
    ensures Output(re, a + b) == Output(re, a) + Output(re, b)
    decreases |a|
  {
    if a == [] {
      assert a + b == b;
    } else {
      assert (a + b)[1..] == a[1..] + b;
      OutputAppends(re, a[1..], b);
    }
  }

  /** Taking the first line off a text. */
  lemma OneLine(re: string, s: string)
    requires HasLine(s)
    ensures var (line, rest) := (s[..Newline(s)], s[Newline(s) + 1..]);
      && Tail(s) == Tail(rest)
      && Output(re, Lines(s)) == (if Found(re, line) then line + [NEWLINE] else "") + Output(re, Lines(rest))
  {
    hide Found;
    var lines := Lines(s);
    assert lines[0] == s[..Newline(s)] && lines[1..] == Lines(s[Newline(s) + 1..]);
  }

  lemma NoLine(re: string, s: string)
    requires !HasLine(s)
    ensures Tail(s) == s && Output(re, Lines(s)) == ""
  {
  }

  /** The inner loop: every line of the m characters in the buffer; p is left after the last of them. */
  method Scan(re: string, filled: seq<char>, m: nat) returns (out: string, p: nat)
    requires CString(re) && m <= |filled| && CString(filled[..m])
    ensures p <= m && filled[p..m] == Tail(filled[..m]) && out == Output(re, Lines(filled[..m]))
    ensures p == 0 <==> !HasLine(filled[..m])
  {
    hide Found, Lines, Tail, Output, Newline;
    var buf := filled;
    out, p := "", 0;
    ghost var text := filled[..m];
    assert filled[p..m] == text;
    while HasLine(buf[p..m])
      invariant p <= m && |buf| == |filled| && buf[p..m] == filled[p..m]
      invariant out + Output(re, Lines(buf[p..m])) == Output(re, Lines(text)) && Tail(buf[p..m]) == Tail(text)
      invariant p == 0 ==> buf[p..m] == text
      invariant p > 0 ==> HasLine(text)
      decreases m - p
    {
      var rest := buf[p..m];
      OneLine(re, rest);
      var i := Newline(rest);
      var q := p + i;
      LineInPlace(filled, buf, p, q, m);
      buf := buf[q := NUL];
      var found := Match(re, buf[p..q]);
      if found {
        buf := buf[q := NEWLINE];
        out := out + buf[p..q + 1];
      }
      p := q + 1;
    }
    NoLine(re, buf[p..m]);
  }

  /** A line in the buffer, its newline overwritten or put back, and what follows it. */
  lemma LineInPlace(filled: seq<char>, buf: seq<char>, p: nat, q: nat, m: nat)
    requires |buf| == |filled| && p <= q < m <= |buf| && buf[p..m] == filled[p..m] && buf[q] == NEWLINE
    requires CString(filled[..m])
    ensures buf[p..m][..q - p] == buf[q := NUL][p..q] && CString(buf[p..q]) && HasLine(filled[..m])
    ensures buf[p..m][q - p + 1..] == filled[q + 1..m] == buf[q := NUL][q + 1..m]
    ensures buf[q := NUL][q := NEWLINE][p..q + 1] == buf[p..q] + [NEWLINE]
    ensures buf[q := NUL][q := NEWLINE][q + 1..m] == filled[q + 1..m]
  {
    assert forall k :: p <= k < m ==> buf[k] == buf[p..m][k - p] == filled[p..m][k - p] == filled[..m][k];
  }

  lemma OneRead(re: string, rest: string, pieces: seq<string>)
    requires pieces != []
    ensures Output(re, Examined(rest, pieces))
         == Output(re, Lines(rest + pieces[0])) + Output(re, Examined(Carried(rest + pieces[0]), pieces[1..]))
  {
    hide Lines, Carried, Output;
    OutputAppends(re, Lines(rest + pieces[0]), Examined(Carried(rest + pieces[0]), pieces[1..]));
  }

  lemma NoReads(re: string, rest: string)
    ensures Output(re, Examined(rest, [])) == ""
  {
  }

  lemma AllExamined(re: string, pieces: seq<string>)
    requires NewlinesFirst(pieces) && forall k :: 0 <= k < |pieces| ==> |pieces[k]| > 0
    ensures Output(re, Examined("", pieces)) == Output(re, Lines(Input(pieces)))
  {
    hide Lines, Examined, Output, Input, NewlinesFirst;
    assert !HasLine("");
    ExaminedExact("", pieces);
    assert "" + Input(pieces) == Input(pieces);
  }

  /** grep() on a file whose reads return the given pieces: the matching lines among those examined; the matching
      lines of the whole input when the reads with newlines come first. */
  method GrepFile(re: string, pieces: seq<string>) returns (out: string)
    requires CString(re) && Fits("", pieces) && forall k :: 0 <= k < |pieces| ==> CString(pieces[k]) && |pieces[k]| > 0
    ensures out == Output(re, Examined("", pieces))
    ensures NewlinesFirst(pieces) ==> out == Output(re, Lines(Input(pieces)))
  {
    hide Found, Lines, Tail, Output, Examined, NewlinesFirst, HasLine;
    if NewlinesFirst(pieces) {
      AllExamined(re, pieces);
    }
    var buf: seq<char> := seq(BUFSIZE, _ => NUL);
    var m, i := 0, 0;
    out := "";
    assert pieces[0..] == pieces && buf[..0] == "";
    while i < |pieces|
      invariant i <= |pieces| && m < BUFSIZE == |buf| && CString(buf[..m]) && Fits(buf[..m], pieces[i..])
      invariant out + Output(re, Examined(buf[..m], pieces[i..])) == Output(re, Examined("", pieces))
    {
      var n := |pieces[i]|;
      ghost var rest := buf[..m];
      assert pieces[i..][0] == pieces[i] && pieces[i..][1..] == pieces[i + 1..];
      OneRead(re, rest, pieces[i..]);
      buf := buf[..m] + pieces[i] + buf[m + n..];
      m := m + n;
      assert buf[..m] == rest + pieces[i];
      buf := buf[m := NUL];
      assert buf[..m] == rest + pieces[i];
      var written, p := Scan(re, buf, m);
      out := out + written;
      assert buf[..m][p..] == buf[p..m];
      if p == 0 {
        m := 0;
      }
      if m > 0 {
        m := m - p;
        buf := buf[p..p + m] + buf[m..];
      }
      i := i + 1;
    }
    assert pieces[i..] == [];
    NoReads(re, buf[..m]);
  }
}
