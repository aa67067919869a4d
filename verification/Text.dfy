/** The text operations the repository builds on: runs, words, trimming, ASCII case folding. */
module Text {

  /** What `\s` and `str.strip` take for white space. */
  predicate IsSpace(c: char)
  {
    var n := c as int;
    || 9 <= n <= 13 || 28 <= n <= 32 || n == 0x85 || n == 0xA0 || n == 0x1680
    || 0x2000 <= n <= 0x200A || n == 0x2028 || n == 0x2029 || n == 0x202F || n == 0x205F || n == 0x3000
  }

  /** Tab to carriage return, the four separators, space, and the spaces of Unicode. */
  lemma SpaceIs(c: char)
    ensures IsSpace(c) <==> c as int in {
      9, 10, 11, 12, 13, 28, 29, 30, 31, 32, 133, 160, 5760,
      8192, 8193, 8194, 8195, 8196, 8197, 8198, 8199, 8200, 8201, 8202, 8232, 8233, 8239, 8287, 12288}
  {
  }

  predicate All(p: char -> bool, s: string)
  {
    forall i :: 0 <= i < |s| ==> p(s[i])
  }

  /** The length of the longest prefix whose characters all satisfy `p`. */
  function Span(p: char -> bool, s: string): (n: nat)
    ensures n <= |s| && All(p, s[..n]) && (n < |s| ==> !p(s[n]))
  {
    if s == "" || !p(s[0]) then 0
    else
      var n := Span(p, s[1..]);
      assert s[..n + 1] == [s[0]] + s[1..][..n];
      n + 1
  }

  function Not(p: char -> bool): char -> bool
  {
    (c: char) => !p(c)
  }

  function Or(p: char -> bool, q: char -> bool): char -> bool
  {
    (c: char) => p(c) || q(c)
  }

  /** `re.sub("[p]+", " ", s)`. */
  function SubRuns(p: char -> bool, s: string): string
    decreases |s|
  {
    if s == "" then ""
    else if p(s[0]) then " " + SubRuns(p, s[Span(p, s)..])
    else s[..Span(Not(p), s)] + SubRuns(p, s[Span(Not(p), s)..])
  }

  /** The maximal runs of characters outside `p`, in order. */
  function Words(p: char -> bool, s: string): seq<string>
    decreases |s|
  {
    if s == "" then []
    else if p(s[0]) then Words(p, s[Span(p, s)..])
    else [s[..Span(Not(p), s)]] + Words(p, s[Span(Not(p), s)..])
  }

  function Join(words: seq<string>): string
  {
    if words == [] then "" else if |words| == 1 then words[0] else words[0] + " " + Join(words[1..])
  }

  /** `s.strip(p)`. */
  function Trim(p: char -> bool, s: string): (t: string)
    ensures t != "" ==> !p(t[0]) && !p(t[|t| - 1])
  {
    var left := s[Span(p, s)..];
    var t := TrimEnd(p, left);
    assert t != "" ==> t[0] == left[0] == s[Span(p, s)];
    t
  }

  function TrimEnd(p: char -> bool, s: string): (t: string)
    ensures t <= s && All(p, s[|t|..])
    ensures t != "" ==> !p(t[|t| - 1])
  {
    if s == "" || !p(s[|s| - 1]) then s
    else
      var front := s[..|s| - 1];
      var t := TrimEnd(p, front);
      assert front[..|t|] == s[..|t|] && s[|t|..] == front[|t|..] + [s[|s| - 1]];
      t
  }

  function FoldChar(c: char): char
  {
    if 'A' <= c <= 'Z' then (c as int + 32) as char else c
  }

  /** `casefold` on ASCII; other characters are left as they are. */
  function Casefold(s: string): (t: string)
    ensures |t| == |s| && forall i :: 0 <= i < |s| ==> t[i] == FoldChar(s[i])
  {
    seq(|s|, i requires 0 <= i < |s| => FoldChar(s[i]))
  }

  const UPPER := "ABCDEFGHIJKLMNOPQRSTUVWXYZ"
  const LOWER := "abcdefghijklmnopqrstuvwxyz"

  lemma DigitIs(c: char)
    ensures c in "0123456789" <==> '0' <= c <= '9'
  {
    if '0' <= c <= '9' { assert "0123456789"[c as int - '0' as int] == c; }
  }

  lemma SmallLetterIs(c: char)
    ensures c in LOWER <==> 'a' <= c <= 'z'
  {
    if 'a' <= c <= 'z' { assert LOWER[c as int - 'a' as int] == c; }
  }

  lemma CapitalIs(c: char)
    ensures c in UPPER <==> 'A' <= c <= 'Z'
  {
    if 'A' <= c <= 'Z' { assert UPPER[c as int - 'A' as int] == c; }
  }

  /** Each capital becomes its own small letter, and nothing else changes. */
  lemma FoldCharIs(c: char)
    ensures forall k :: 0 <= k < 26 ==> FoldChar(UPPER[k]) == LOWER[k]
    ensures c !in UPPER ==> FoldChar(c) == c
  {
    if 'A' <= c <= 'Z' {
      assert UPPER[c as int - 'A' as int] == c;
    }
  }

  lemma CasefoldTwice(s: string)
    ensures Casefold(Casefold(s)) == Casefold(s)
  {
  }

  // ---- words ----

  predicate IsWord(p: char -> bool, w: string)
  {
    w != "" && All(Not(p), w)
  }

  lemma {:induction false} SpanConcat(p: char -> bool, a: string, b: string)
    requires All(p, a) && (b != "" ==> !p(b[0]))
    ensures Span(p, a + b) == |a|
  {
    if a == "" {
      assert a + b == b;
    } else {
      SpanConcat(p, a[1..], b);
      assert (a + b)[1..] == a[1..] + b;
    }
  }

  lemma {:induction false} WordsAreWords(p: char -> bool, s: string)
    ensures forall w :: w in Words(p, s) ==> IsWord(p, w)
    decreases |s|
  {
    if s != "" {
      if p(s[0]) {
        WordsAreWords(p, s[Span(p, s)..]);
      } else {
        WordsAreWords(p, s[Span(Not(p), s)..]);
      }
    }
  }

  lemma NoWords(p: char -> bool, s: string)
    requires All(p, s)
    ensures Words(p, s) == []
  {
  }

  lemma NoWordsIff(p: char -> bool, s: string)
    ensures Words(p, s) == [] <==> All(p, s)
  {
  }

  /** Leading separators say nothing. */
  lemma {:induction false} SkipLeading(p: char -> bool, r: string, s: string)
    requires All(p, r)
    ensures Words(p, r + s) == Words(p, s)
  {
    var n := Span(p, s);
    if r + s == "" {
    } else if r == "" {
      assert r + s == s;
    } else {
      assert r + s == (r + s[..n]) + s[n..];
      SpanConcat(p, r + s[..n], s[n..]);
      assert (r + s)[|r| + n..] == s[n..];
    }
  }

  lemma WordFirst(p: char -> bool, w: string, rest: string)
    requires IsWord(p, w) && (rest != "" ==> p(rest[0]))
    ensures Words(p, w + rest) == [w] + Words(p, rest)
  {
    SpanConcat(Not(p), w, rest);
    assert (w + rest)[..|w|] == w && (w + rest)[|w|..] == rest;
  }

  /** The first word of a text, and the rest. */
  lemma WordSplit(p: char -> bool, s: string) returns (w: string, rest: string)
    requires s != "" && !p(s[0])
    ensures s == w + rest && IsWord(p, w) && (rest != "" ==> p(rest[0]))
    ensures w == s[..Span(Not(p), s)] && rest == s[Span(Not(p), s)..]
    ensures Words(p, s) == [w] + Words(p, rest)
  {
    var n := Span(Not(p), s);
    w, rest := s[..n], s[n..];
  }

  lemma ConcatAfterRun(p: char -> bool, run: string, rest: string, b: string)
    requires All(p, run)
    requires Words(p, rest + b) == Words(p, rest) + Words(p, b)
    ensures Words(p, run + rest + b) == Words(p, run + rest) + Words(p, b)
  {
    hide Words;
    SkipLeading(p, run, rest + b);
    SkipLeading(p, run, rest);
    assert run + rest + b == run + (rest + b);
  }

  lemma ConcatAfterWord(p: char -> bool, w: string, rest: string, b: string)
    requires IsWord(p, w) && (rest != "" ==> p(rest[0])) && (b != "" ==> p(b[0]))
    requires Words(p, rest + b) == Words(p, rest) + Words(p, b)
    ensures Words(p, w + rest + b) == Words(p, w + rest) + Words(p, b)
  {
    hide Words;
    WordFirst(p, w, rest + b);
    WordFirst(p, w, rest);
    assert w + rest + b == w + (rest + b);
  }

  /** A text cut in front of a separator, or at its end. */
  lemma {:induction false} WordsConcat(p: char -> bool, a: string, b: string)
    requires b != "" ==> p(b[0])
    ensures Words(p, a + b) == Words(p, a) + Words(p, b)
    decreases |a|
  {
    hide Words;
    if a == "" {
      assert a + b == b && Words(p, "") == [] by { NoWords(p, ""); }
    } else if p(a[0]) {
      var n := Span(p, a);
      assert a == a[..n] + a[n..];
      WordsConcat(p, a[n..], b);
      ConcatAfterRun(p, a[..n], a[n..], b);
    } else {
      var w, rest := WordSplit(p, a);
      WordsConcat(p, rest, b);
      ConcatAfterWord(p, w, rest, b);
    }
  }

  /** However a run of separators is spelled, the words around it are the same. */
  lemma Respelled(p: char -> bool, a: string, r: string, b: string)
    requires r != "" && All(p, r)
    ensures Words(p, a + r + b) == Words(p, a) + Words(p, b)
  {
    assert a + r + b == a + (r + b);
    WordsConcat(p, a, r + b);
    SkipLeading(p, r, b);
  }

  /** A text cut behind a separator. */
  lemma WordsBehind(p: char -> bool, front: string, last: string, b: string)
    requires last != "" && All(p, last)
    ensures Words(p, front + last + b) == Words(p, front + last) + Words(p, b)
  {
    hide Words;
    Respelled(p, front, last, b);
    Respelled(p, front, last, "");
    NoWords(p, "");
    assert front + last + "" == front + last;
  }

  lemma {:induction false} WordsAgree(p: char -> bool, q: char -> bool, s: string)
    requires forall i :: 0 <= i < |s| ==> p(s[i]) == q(s[i])
    ensures Words(p, s) == Words(q, s)
    decreases |s|
  {
    if s == "" {
    } else if p(s[0]) {
      var n := Span(p, s);
      assert s == s[..n] + s[n..];
      SpanConcat(q, s[..n], s[n..]);
      WordsAgree(p, q, s[n..]);
    } else {
      var n := Span(Not(p), s);
      assert s == s[..n] + s[n..];
      SpanConcat(Not(q), s[..n], s[n..]);
      WordsAgree(p, q, s[n..]);
    }
  }

  /** Replacing runs of `p` by spaces leaves the words outside `p` and `q`. */
  lemma {:induction false} WordsOfSubRuns(p: char -> bool, q: char -> bool, s: string)
    requires q(' ')
    ensures Words(q, SubRuns(p, s)) == Words(Or(p, q), s)
    decreases |s|
  {
    if s == "" {
    } else if p(s[0]) {
      var n := Span(p, s);
      assert s == s[..n] + s[n..];
      SkipLeading(Or(p, q), s[..n], s[n..]);
      SkipLeading(q, " ", SubRuns(p, s[n..]));
      WordsOfSubRuns(p, q, s[n..]);
    } else {
      var n := Span(Not(p), s);
      assert s == s[..n] + s[n..];
      WordsConcat(q, s[..n], SubRuns(p, s[n..]));
      WordsConcat(Or(p, q), s[..n], s[n..]);
      WordsAgree(q, Or(p, q), s[..n]);
      WordsOfSubRuns(p, q, s[n..]);
    }
  }

  // ---- joined words ----

  lemma {:induction false} JoinNonEmpty(words: seq<string>)
    requires words != [] && forall i :: 0 <= i < |words| ==> words[i] != ""
    ensures Join(words) != ""
    ensures Join(words)[0] == words[0][0]
    ensures Join(words)[|Join(words)| - 1] == words[|words| - 1][|words[|words| - 1]| - 1]
  {
    if |words| > 1 { JoinNonEmpty(words[1..]); }
  }

  lemma JoinMore(words: seq<string>)
    requires |words| > 1
    ensures Join(words) == words[0] + " " + Join(words[1..])
  {
  }

  lemma JoinOne(words: seq<string>)
    requires |words| <= 1
    ensures Join(words) == if words == [] then "" else words[0]
  {
  }

  lemma NoWordsInNothing(p: char -> bool)
    ensures Words(p, "") == []
  {
  }

  lemma {:induction false} JoinWords(p: char -> bool, words: seq<string>)
    requires p(' ') && forall w :: w in words ==> IsWord(p, w)
    ensures Words(p, Join(words)) == words
    decreases |words|
  {
    hide Words, Join, IsWord;
    NoWordsInNothing(p);
    if |words| <= 1 {
      JoinOne(words);
      if words != [] {
        assert words[0] in words && words[0] + "" == words[0];
        WordFirst(p, words[0], "");
        assert words == [words[0]] + [];
      }
    } else {
      var w := words[0];
      assert w in words && w + "" == w;
      JoinWords(p, words[1..]);
      JoinMore(words);
      WordFirst(p, w, "");
      Respelled(p, w, " ", Join(words[1..]));
      assert words == [w] + words[1..];
    }
  }

  /** Runs replaced by one space are the words, joined, perhaps with a space at either end. */
  lemma {:induction false} SubRunsShape(p: char -> bool, s: string) returns (lead: string, trail: string)
    ensures SubRuns(p, s) == lead + Join(Words(p, s)) + trail
    ensures (lead == "" || lead == " ") && (trail == "" || trail == " ")
    ensures s != "" ==> lead == if p(s[0]) then " " else ""
    ensures s == "" || Words(p, s) == [] ==> trail == ""
    decreases |s|
  {
    if s == "" {
      lead, trail := "", "";
    } else if p(s[0]) {
      var rest := s[Span(p, s)..];
      var l, t := SubRunsShape(p, rest);
      lead, trail := " ", t;
      ShapeAfterRun(SubRuns(p, rest), Words(p, rest), l, t);
      assert rest == "" ==> SubRuns(p, rest) == "";
    } else {
      var w, rest := WordSplit(p, s);
      var l, t := SubRunsShape(p, rest);
      lead, trail := "", if Words(p, rest) == [] then l else t;
      ShapeAfterWord(w, Words(p, rest), l, t);
    }
  }

  lemma ShapeAfterRun(subbed: string, words: seq<string>, l: string, t: string)
    requires subbed == l + Join(words) + t && l == ""
    ensures " " + subbed == " " + Join(words) + t
  {
  }

  lemma ShapeAfterWord(w: string, words: seq<string>, l: string, t: string)
    requires words == [] ==> t == ""
    requires words != [] ==> l == " "
    ensures w + (l + Join(words) + t) == "" + Join([w] + words) + if words == [] then l else t
  {
  }

  lemma {:induction false} TrimPadded(p: char -> bool, lead: string, t: string, trail: string)
    requires All(p, lead) && All(p, trail)
    requires t != "" ==> !p(t[0]) && !p(t[|t| - 1])
    ensures Trim(p, lead + t + trail) == t
  {
    if t == "" {
      assert All(p, lead + t + trail);
      assert (lead + t + trail) + "" == lead + t + trail;
      SpanConcat(p, lead + t + trail, "");
    } else {
      assert lead + t + trail == lead + (t + trail);
      SpanConcat(p, lead, t + trail);
      assert (lead + t + trail)[|lead|..] == t + trail;
      TrimEndPadded(p, t, trail);
    }
  }

  lemma {:induction false} TrimEndPadded(p: char -> bool, t: string, trail: string)
    requires All(p, trail) && t != "" && !p(t[|t| - 1])
    ensures TrimEnd(p, t + trail) == t
  {
    if trail == "" {
      assert t + trail == t;
    } else {
      var shorter := trail[..|trail| - 1];
      assert (t + trail)[..|t + trail| - 1] == t + shorter;
      TrimEndPadded(p, t, shorter);
    }
  }

  /** Runs of separators to one space, then a strip: exactly the words, joined by single spaces. */
  lemma FoldedIsJoined(p: char -> bool, space: char -> bool, s: string)
    requires space(' ') && forall c :: space(c) ==> p(c)
    ensures Trim(space, SubRuns(p, s)) == Join(Words(p, s))
  {
    var lead, trail := SubRunsShape(p, s);
    WordsAreWords(p, s);
    var words := Words(p, s);
    if words != [] {
      assert forall i :: 0 <= i < |words| ==> words[i] in words && IsWord(p, words[i]);
      JoinNonEmpty(words);
    }
    TrimPadded(space, lead, Join(Words(p, s)), trail);
  }
}
