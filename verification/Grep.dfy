/** The regular expression matcher of xv6/grep.c against the language of its patterns.
    Strings are C strings: no NUL inside, the end stands for the NUL. */
module Grep {

  import opened Common

  /** A character of the pattern, alone or starred; '.' stands for any character. */
  datatype Item = One(c: char) | Star(c: char)

  /** What a pattern without its '^' says: items in order, and whether a final '$' ties it to the
      end of the text. */
  datatype Pattern = Pattern(items: seq<Item>, toEnd: bool)

  function Parse(re: string): (p: Pattern) {
    if re == [] then Pattern([], false)
    else if |re| > 1 && re[1] == '*' then var p := Parse(re[2..]); p.(items := [Star(re[0])] + p.items)
    else if re == "$" then Pattern([], true)
    else var p := Parse(re[1..]); p.(items := [One(re[0])] + p.items)
  }

  // ---------------------------------------------------------------- patterns and their texts

  function WriteItem(item: Item): (w: string) {
    if item.One? then [item.c] else [item.c, '*']
  }

  /** A pattern as text. */
  function Write(p: Pattern): (re: string)
    decreases |p.items|
  {
    if p.items == [] then (if p.toEnd then "$" else "") else WriteItem(p.items[0]) + Write(p.(items := p.items[1..]))
  }

  /** No item would take the '*' of the next as its own, and no final item would be taken for the end of the text. */
  ghost predicate Writable(p: Pattern) {
    && (forall i :: 0 <= i < |p.items| - 1 && p.items[i].One? ==> p.items[i + 1].c != '*')
    && (p.items != [] && p.items[|p.items| - 1] == One('$') ==> p.toEnd)
  }

  lemma WritableTail(p: Pattern)
    requires p.items != []
    ensures var q := p.(items := p.items[1..]);
      Writable(p) <==>
        && Writable(q) && (q.items == [] && p.items[0] == One('$') ==> p.toEnd)
        && (q.items != [] && p.items[0].One? ==> q.items[0].c != '*')
  {
    var q := p.(items := p.items[1..]);
    assert forall i {:trigger q.items[i]} :: 0 <= i < |q.items| ==> q.items[i] == p.items[i + 1];
    if Writable(p) {
      forall i | 0 <= i < |q.items| - 1 && q.items[i].One?
        ensures q.items[i + 1].c != '*'
      {
        assert p.items[i + 1].One?;
      }
    }
    if Writable(q) && q.items != [] && (p.items[0].One? ==> q.items[0].c != '*') {
      forall i | 0 <= i < |p.items| - 1 && p.items[i].One?
        ensures p.items[i + 1].c != '*'
      {
        assert i > 0 ==> q.items[i - 1].One? && q.items[i].c != '*';
      }
    }
  }

  /** The first item of a text and the rest of it. */
  lemma ParseFirst(re: string) returns (item: Item, rest: string)
    requires re != [] && re != "$"
    ensures |rest| < |re| && re == WriteItem(item) + rest
    ensures Parse(re) == Parse(rest).(items := [item] + Parse(rest).items)
    ensures rest != [] && item.One? ==> rest[0] != '*'
    ensures item == One('$') ==> rest != []
  {
    var n := if |re| > 1 && re[1] == '*' then 2 else 1;
    item, rest := if n == 2 then Star(re[0]) else One(re[0]), re[n..];
  }

  lemma WriteFirst(p: Pattern)
    ensures p.items != [] ==> Write(p) != [] && Write(p)[0] == p.items[0].c
  {
  }

  /** Every text is the text of the pattern it stands for. */
  lemma {:induction false} WriteBack(re: string)
    ensures Writable(Parse(re)) && Write(Parse(re)) == re
    decreases |re|
  {
    if re == [] {
    } else if re == "$" {
    } else {
      hide Parse, Writable;
      var item, rest := ParseFirst(re);
      WriteBack(rest);
      var (p, q) := (Parse(re), Parse(rest));
      assert p.items[1..] == q.items;
      assert q == p.(items := p.items[1..]);
      WriteFirst(q);
      WritableTail(p);
    }
  }

  lemma ParseWritten(item: Item, rest: string)
    requires item.One? && rest != [] ==> rest[0] != '*'
    requires item == One('$') ==> rest != []
    ensures var p := Parse(rest); Parse(WriteItem(item) + rest) == p.(items := [item] + p.items)
  {
    var re := WriteItem(item) + rest;
    if item.One? { assert re[1..] == rest; } else { assert re[2..] == rest; }
  }

  /** A pattern comes back from its text exactly if it can be written. */
  lemma {:induction false} ParseExact(p: Pattern)
    ensures Parse(Write(p)) == p <==> Writable(p)
    decreases |p.items|
  {
    if Parse(Write(p)) == p { WriteBack(Write(p)); }
    if Writable(p) && p.items != [] {
      var (item, q) := (p.items[0], p.(items := p.items[1..]));
      WritableTail(p);
      ParseExact(q);
      WriteFirst(q);
      ParseWritten(item, Write(q));
      assert [item] + q.items == p.items;
    }
  }

  predicate Accepts(c: char, x: char) {
    c == '.' || c == x
  }

  /** The words that one item stands for. */
  ghost predicate Stands(item: Item, w: string) {
    match item
    case One(c) => |w| == 1 && Accepts(c, w[0])
    case Star(c) => forall i :: 0 <= i < |w| ==> Accepts(c, w[i])
  }

  function Concat(words: seq<string>): (w: string) {
    if words == [] then [] else words[0] + Concat(words[1..])
  }

  /** One word for each item. */
  ghost predicate Words(items: seq<Item>, words: seq<string>) {
    |words| == |items| && forall i :: 0 <= i < |items| ==> Stands(items[i], words[i])
  }

  /** The language of a list of items: concatenations of one word for each. */
  ghost predicate InLanguage(items: seq<Item>, w: string) {
    exists words :: Words(items, words) && Concat(words) == w
  }

  /** Some prefix of the text, all of it if the pattern is tied to the end, is in the language. */
  ghost predicate MatchesAt(p: Pattern, text: string) {
    exists k :: PrefixMatches(p, text, k)
  }

  ghost predicate PrefixMatches(p: Pattern, text: string, k: int) {
    0 <= k <= |text| && (p.toEnd ==> k == |text|) && InLanguage(p.items, text[..k])
  }

  // ---------------------------------------------------------------- one item at a time

  lemma LanguageCons(item: Item, items: seq<Item>, word: string, rest: string)
    requires Stands(item, word) && InLanguage(items, rest)
    ensures InLanguage([item] + items, word + rest)
  {
    var words :| Words(items, words) && Concat(words) == rest;
    var all := [word] + words;
    assert all[1..] == words;
    assert Words([item] + items, all);
  }

  /** Split off the word for the first item. */
  lemma LanguageUncons(item: Item, items: seq<Item>, w: string) returns (k: nat)
    requires InLanguage([item] + items, w)
    ensures k <= |w| && Stands(item, w[..k]) && InLanguage(items, w[k..])
  {
    var all :| Words([item] + items, all) && Concat(all) == w;
    k := |all[0]|;
    assert Stands(([item] + items)[0], all[0]);
    assert forall i :: 0 <= i < |items| ==> ([item] + items)[i + 1] == items[i];
    assert Words(items, all[1..]);
    assert w[..k] == all[0] && w[k..] == Concat(all[1..]);
  }

  /** A text matches item and rest exactly when some prefix stands for the item and what follows
      matches the rest. */
  lemma MatchesCons(p: Pattern, item: Item, text: string)
    ensures MatchesAt(p.(items := [item] + p.items), text) <==> exists k :: FirstTakes(p, item, text, k)
  {
    var q := p.(items := [item] + p.items);
    if m :| PrefixMatches(q, text, m) {
      var k := LanguageUncons(item, p.items, text[..m]);
      assert text[..m][..k] == text[..k] && text[..m][k..] == text[k..][..m - k];
      assert PrefixMatches(p, text[k..], m - k);
      assert FirstTakes(p, item, text, k);
    }
    if k :| FirstTakes(p, item, text, k) {
      var m :| PrefixMatches(p, text[k..], m);
      assert text[..k + m] == text[..k] + text[k..][..m];
      LanguageCons(item, p.items, text[..k], text[k..][..m]);
      assert PrefixMatches(q, text, k + m);
    }
  }

  ghost predicate FirstTakes(p: Pattern, item: Item, text: string, k: int) {
    0 <= k <= |text| && Stands(item, text[..k]) && MatchesAt(p, text[k..])
  }

  lemma MatchesNil(toEnd: bool, text: string)
    ensures MatchesAt(Pattern([], toEnd), text) <==> !toEnd || text == []
  {
    assert Words([], []) && Concat([]) == [];
    assert text[..0] == [];
    if !toEnd || text == [] { assert PrefixMatches(Pattern([], toEnd), text, 0); }
  }

  lemma MatchesOne(p: Pattern, c: char, text: string)
    ensures MatchesAt(p.(items := [One(c)] + p.items), text) <==>
            text != [] && Accepts(c, text[0]) && MatchesAt(p, text[1..])
  {
    MatchesCons(p, One(c), text);
    if text != [] && Accepts(c, text[0]) && MatchesAt(p, text[1..]) { assert FirstTakes(p, One(c), text, 1); }
    if k :| FirstTakes(p, One(c), text, k) { assert k == 1 && text[..k][0] == text[0]; }
  }

  lemma MatchesStar(p: Pattern, c: char, text: string)
    ensures MatchesAt(p.(items := [Star(c)] + p.items), text) <==>
            MatchesAt(p, text) ||
            (text != [] && Accepts(c, text[0]) && MatchesAt(p.(items := [Star(c)] + p.items), text[1..]))
  {
    MatchesCons(p, Star(c), text);
    assert text[0..] == text;
    if MatchesAt(p, text) { assert FirstTakes(p, Star(c), text, 0); }
    if text != [] {
      MatchesCons(p, Star(c), text[1..]);
      if k :| 0 < k && FirstTakes(p, Star(c), text, k) { StarShorter(p, c, text, k); }
      if k :| Accepts(c, text[0]) && FirstTakes(p, Star(c), text[1..], k) { StarLonger(p, c, text, k); }
    }
  }

  lemma StarShorter(p: Pattern, c: char, text: string, k: nat)
    requires 0 < k && FirstTakes(p, Star(c), text, k)
    ensures Accepts(c, text[0]) && FirstTakes(p, Star(c), text[1..], k - 1)
  {
    assert text[1..][..k - 1] == text[..k][1..] && text[1..][k - 1..] == text[k..];
    assert Accepts(c, text[..k][0]);
  }

  lemma StarLonger(p: Pattern, c: char, text: string, k: nat)
    requires text != [] && Accepts(c, text[0]) && FirstTakes(p, Star(c), text[1..], k)
    ensures FirstTakes(p, Star(c), text, k + 1)
  {
    assert text[..k + 1] == [text[0]] + text[1..][..k] && text[1..][k..] == text[k + 1..];
  }

  // ---------------------------------------------------------------- the matcher

  ghost predicate CString(s: string) {
    NUL !in s
  }

  /** matchhere(): re at the beginning of text. */
  method MatchHere(re: string, text: string) returns (r: bool)
    requires CString(re) && CString(text)
    ensures r <==> MatchesAt(Parse(re), text)
    decreases |re|, 0
  {
    if re == [] {
      MatchesNil(false, text);
      return true;
    }
    if |re| > 1 && re[1] == '*' {
      r := MatchStar(re[0], re[2..], text);
      return;
    }
    if re[0] == '$' && |re| == 1 {
      MatchesNil(true, text);
      return text == [];
    }
    MatchesOne(Parse(re[1..]), re[0], text);
    if text != [] && (re[0] == '.' || re[0] == text[0]) {
      r := MatchHere(re[1..], text[1..]);
      return;
    }
    r := false;
  }

  /** matchstar(): c*re at the beginning of text. */
  method MatchStar(c: char, re: string, text: string) returns (r: bool)
    requires CString(re) && CString(text)
    ensures r <==> MatchesAt(Parse(re).(items := [Star(c)] + Parse(re).items), text)
    decreases |re|, 1
  {
    ghost var q := Parse(re).(items := [Star(c)] + Parse(re).items);
    var t := text;
    while true
      invariant CString(t)
      invariant MatchesAt(q, text) <==> MatchesAt(q, t)
      decreases |t|
    {
      MatchesStar(Parse(re), c, t);
      var m := MatchHere(re, t);
      if m { return true; }
      if t == [] || !(t[0] == c || c == '.') { return false; }
      t := t[1..];
    }
  }

  /** What match() promises: the pattern after an initial '^' matches the text at its beginning; without
      '^' the pattern matches at some place of the text. */
  ghost predicate Found(re: string, text: string) {
    if re != [] && re[0] == '^' then MatchesAt(Parse(re[1..]), text)
    else exists i :: 0 <= i <= |text| && MatchesAt(Parse(re), text[i..])
  }

  method Match(re: string, text: string) returns (r: bool)
    requires CString(re) && CString(text)
    ensures r <==> Found(re, text)
  {
    if re != [] && re[0] == '^' {
      r := MatchHere(re[1..], text);
      return;
    }
    var i := 0;
    while true
      invariant 0 <= i <= |text|
      invariant forall j :: 0 <= j < i ==> !MatchesAt(Parse(re), text[j..])
      decreases |text| - i
    {
      var m := MatchHere(re, text[i..]);
      if m { return true; }
      if i == |text| { return false; }
      i := i + 1;
    }
  }

  // ---------------------------------------------------------------- patterns without stars

  /** The pattern of the characters of w. */
  function Fixed(w: string, toEnd: bool): (p: Pattern) {
    Pattern(seq(|w|, i requires 0 <= i < |w| => One(w[i])), toEnd)
  }

  /** w stands in the text at i, its dots for any characters. */
  ghost predicate FitsAt(w: string, text: string, i: int) {
    0 <= i <= |text| - |w| && forall j :: 0 <= j < |w| ==> w[j] == '.' || w[j] == text[i + j]
  }

  lemma {:induction false} WriteFixed(w: string, toEnd: bool)
    ensures Write(Fixed(w, toEnd)) == w + if toEnd then "$" else ""
    decreases |w|
  {
    if w != [] {
      WriteFixed(w[1..], toEnd);
      assert Fixed(w, toEnd).items[1..] == Fixed(w[1..], toEnd).items;
    }
  }

  lemma FitsTail(w: string, text: string)
    requires w != [] && text != []
    ensures FitsAt(w, text, 0) <==> (w[0] == '.' || w[0] == text[0]) && FitsAt(w[1..], text[1..], 0)
  {
    if FitsAt(w[1..], text[1..], 0) && (w[0] == '.' || w[0] == text[0]) {
      forall j | 0 <= j < |w|
        ensures w[j] == '.' || w[j] == text[j]
      {
        assert j > 0 ==> w[1..][j - 1] == w[j] && text[1..][j - 1] == text[j];
      }
    }
  }

  lemma {:induction false} FixedMatches(w: string, toEnd: bool, text: string)
    ensures MatchesAt(Fixed(w, toEnd), text) <==> FitsAt(w, text, 0) && (toEnd ==> |w| == |text|)
    decreases |w|
  {
    if w == [] {
      assert Fixed(w, toEnd).items == [];
      MatchesNil(toEnd, text);
    } else {
      var q := Fixed(w[1..], toEnd);
      assert Fixed(w, toEnd) == q.(items := [One(w[0])] + q.items);
      MatchesOne(q, w[0], text);
      if text != [] {
        FixedMatches(w[1..], toEnd, text[1..]);
        FitsTail(w, text);
      }
    }
  }

  lemma FitsFrom(w: string, text: string, i: nat)
    requires i <= |text|
    ensures FitsAt(w, text[i..], 0) <==> FitsAt(w, text, i)
  {
    if FitsAt(w, text[i..], 0) {
      assert forall j :: 0 <= j < |w| ==> text[i..][j] == text[i + j];
    }
    if FitsAt(w, text, i) {
      assert forall j :: 0 <= j < |w| ==> text[i..][j] == text[i + j];
    }
  }

  lemma FixedAnywhere(w: string, toEnd: bool, text: string)
    ensures forall i :: 0 <= i <= |text| ==>
      (MatchesAt(Fixed(w, toEnd), text[i..]) <==> FitsAt(w, text, i) && (toEnd ==> i + |w| == |text|))
    ensures forall i :: FitsAt(w, text, i) ==> 0 <= i <= |text|
  {
    forall i | 0 <= i <= |text|
      ensures MatchesAt(Fixed(w, toEnd), text[i..]) <==> FitsAt(w, text, i) && (toEnd ==> i + |w| == |text|)
    {
      FixedMatches(w, toEnd, text[i..]);
      FitsFrom(w, text, i);
    }
  }

  /** What a pattern without stars finds: its characters in a row, a dot for any, at the beginning of the text after
      '^' and at its end before '$'. */
  lemma FixedFound(w: string, fromStart: bool, toEnd: bool, text: string)
    requires Writable(Fixed(w, toEnd)) && (w != [] && !fromStart ==> w[0] != '^')
    ensures var re := (if fromStart then "^" else "") + (w + if toEnd then "$" else "");
      Found(re, text) <==>
        exists i :: FitsAt(w, text, i) && (fromStart ==> i == 0) && (toEnd ==> i + |w| == |text|)
  {
    hide Parse, Write, MatchesAt, FitsAt, Writable;
    var p := Fixed(w, toEnd);
    WriteFixed(w, toEnd);
    ParseExact(p);
    FixedAnywhere(w, toEnd, text);
    assert text[0..] == text;
    if fromStart { assert ("^" + Write(p))[1..] == Write(p); } else { assert "" + Write(p) == Write(p); }
  }
}
