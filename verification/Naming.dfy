/** How a release name loses its tail of tokens and group, and what is left of it. */
module Naming {

  import opened Sequences
  import opened Optional
  import opened Text

  // ---- the three patterns, each at the end of a name ----

  const TOKENS: seq<string> := [
    "2160p", "1080p", "720p", "576p", "480p",
    "webdl", "web dl", "web.dl", "web-dl", "webrip", "bluray", "bdrip", "dvdrip", "hdtv",
    "x264", "x265", "h264", "h 264", "h.264", "h-264", "h265", "h 265", "h.265", "h-265",
    "hevc", "av1", "aac", "dts"]

  predicate IsMark(c: char)
  {
    c == '.' || c == '_' || c == '/' || c == '\\' || c == '-'
  }

  /** A separator: white space or one of the marks. */
  predicate IsSeparator(c: char)
  {
    IsMark(c) || IsSpace(c)
  }

  predicate IsDigit(c: char)
  {
    '0' <= c <= '9'
  }

  predicate IsGroupChar(c: char)
  {
    'A' <= c <= 'Z' || IsDigit(c)
  }

  /** A token from `k` on, then only white space. */
  predicate TokenAt(s: string, k: nat)
  {
    k <= |s| && exists w :: (w in TOKENS && |w| <= |s| - k
                             && Casefold(s[k..k + |w|]) == w && All(IsSpace, s[k + |w|..]))
  }

  /** A year from `k` on, then only white space. */
  predicate YearAt(s: string, k: nat)
  {
    && k + 4 <= |s|
    && (s[k..k + 2] == "19" || s[k..k + 2] == "20")
    && IsDigit(s[k + 2]) && IsDigit(s[k + 3])
    && All(IsSpace, s[k + 4..])
  }

  predicate TokenFrom(s: string, p: nat)
  {
    p < |s| && ((p == 0 && TokenAt(s, 0)) || (IsSeparator(s[p]) && TokenAt(s, p + 1)))
  }

  predicate YearFrom(s: string, p: nat)
  {
    p < |s| && ((p == 0 && YearAt(s, 0)) || (IsSeparator(s[p]) && YearAt(s, p + 1)))
  }

  predicate GroupFrom(s: string, p: nat)
  {
    && p < |s|
    && (s[p] == '-' || s[p] == '_' || s[p] == '.')
    && Span(IsGroupChar, s[p + 1..]) >= 2
    && All(IsSpace, s[p + 1 + Span(IsGroupChar, s[p + 1..])..])
  }

  /** `re.search` of a pattern that must reach the end: the leftmost start. */
  function Search(from: (string, nat) -> bool, s: string, p: nat): (r: Option<nat>)
    requires p <= |s|
    ensures r.Some? ==> p <= r.value < |s| && from(s, r.value) && forall q :: p <= q < r.value ==> !from(s, q)
    ensures r.None? ==> forall q :: p <= q < |s| ==> !from(s, q)
    decreases |s| - p
  {
    if p == |s| then None else if from(s, p) then Some(p) else Search(from, s, p + 1)
  }

  /** Where the year itself starts, behind its separator. */
  function YearStart(s: string): (r: Option<nat>)
    ensures r.Some? ==> r.value < |s|
  {
    var found := Search(YearFrom, s, 0);
    if found.None? then None
    else if found.value == 0 && YearAt(s, 0) then Some(0)
    else Some(found.value + 1)
  }

  function RemovalStart(s: string): (r: Option<nat>)
    ensures r.Some? ==> r.value < |s|
  {
    var token := Search(TokenFrom, s, 0);
    if token.Some? then token else Search(GroupFrom, s, 0)
  }

  // ---- the patterns, as the expressions that stand in the source ----

  /** Nothing, a space, a dot or a hyphen. */
  const GAPS: set<string> := {"", " ", ".", "-"}

  /** A resolution, a source or a codec. */
  ghost predicate IsToken(w: string)
  {
    || (exists lines :: lines in {"480", "576", "720", "1080", "2160"} && w == lines + "p")
    || w in {"webrip", "bluray", "bdrip", "dvdrip", "hdtv"}
    || (exists gap :: gap in GAPS && w == "web" + gap + "dl")
    || w in {"x264", "x265", "hevc", "av1", "aac", "dts"}
    || (exists gap :: gap in GAPS && (w == "h" + gap + "264" || w == "h" + gap + "265"))
  }

  lemma TokensAre(w: string)
    ensures w in TOKENS <==> IsToken(w)
  {
    ResolutionTokens();
    DownloadTokens();
    CodecTokens();
    if w in TOKENS { ListedTokens(w); }
  }

  lemma ResolutionTokens()
    ensures "480" + "p" == "480p" && "576" + "p" == "576p" && "720" + "p" == "720p"
    ensures "1080" + "p" == "1080p" && "2160" + "p" == "2160p"
  {
  }

  lemma DownloadTokens()
    ensures "web" + "" + "dl" == "webdl" && "web" + " " + "dl" == "web dl"
    ensures "web" + "." + "dl" == "web.dl" && "web" + "-" + "dl" == "web-dl"
  {
  }

  lemma CodecTokens()
    ensures "h" + "" + "264" == "h264" && "h" + " " + "264" == "h 264" && "h" + "." + "264" == "h.264" && "h" + "-" + "264" == "h-264"
    ensures "h" + "" + "265" == "h265" && "h" + " " + "265" == "h 265" && "h" + "." + "265" == "h.265" && "h" + "-" + "265" == "h-265"
  {
  }

  lemma ListedTokens(w: string)
    requires w in TOKENS
    ensures IsToken(w)
  {
    ResolutionTokens();
    DownloadTokens();
    CodecTokens();
    assert "" in GAPS && " " in GAPS && "." in GAPS && "-" in GAPS;
    var k :| 0 <= k < |TOKENS| && TOKENS[k] == w;
    hide TOKENS, GAPS;
  }

  lemma SeparatorIs(c: char)
    ensures IsSeparator(c) <==> c in "._/\\-" || IsSpace(c)
  {
  }

  /** From `k` on a token in any case, and white space. */
  ghost predicate EndsInToken(s: string, k: nat)
    requires k <= |s|
  {
    exists word, space :: s[k..] == word + space && IsToken(Casefold(word)) && All(IsSpace, space)
  }

  lemma TokenAtIs(s: string, k: nat)
    requires k <= |s|
    ensures TokenAt(s, k) <==> EndsInToken(s, k)
  {
    hide TokenAt, EndsInToken;
    if TokenAt(s, k) { TokenIsText(s, k); }
    if EndsInToken(s, k) { TextIsToken(s, k); }
  }

  lemma TokenIsText(s: string, k: nat)
    requires TokenAt(s, k)
    ensures k <= |s| && EndsInToken(s, k)
  {
    hide TOKENS, IsToken, IsSpace, Casefold, All;
    var w :| w in TOKENS && |w| <= |s| - k && Casefold(s[k..k + |w|]) == w && All(IsSpace, s[k + |w|..]);
    TokensAre(w);
    CutBehind(s, k, |w|);
    hide TokenAt;
    var word, space := s[k..k + |w|], s[k + |w|..];
    assert s[k..] == word + space && IsToken(Casefold(word)) && All(IsSpace, space);
  }

  lemma CutBehind(s: string, k: nat, n: nat)
    requires k + n <= |s|
    ensures s[k..] == s[k..k + n] + s[k + n..]
  {
  }

  lemma TextIsToken(s: string, k: nat)
    requires k <= |s| && EndsInToken(s, k)
    ensures TokenAt(s, k)
  {
    hide TOKENS, IsToken, IsSpace;
    var word, space :| s[k..] == word + space && IsToken(Casefold(word)) && All(IsSpace, space);
    var w := Casefold(word);
    TokensAre(w);
    assert s[k..k + |w|] == s[k..][..|w|] == word && s[k + |w|..] == s[k..][|w|..] == space;
  }

  /** A year of the last century or this one, and white space. */
  predicate IsYearText(text: string, c: char, d: char, space: string)
  {
    && (text == "19" + [c, d] + space || text == "20" + [c, d] + space)
    && c in "0123456789" && d in "0123456789" && All(IsSpace, space)
  }

  lemma YearAtIs(s: string, k: nat)
    requires k <= |s|
    ensures YearAt(s, k) <==> exists c, d, space :: IsYearText(s[k..], c, d, space)
  {
    hide IsSpace;
    if YearAt(s, k) {
      DigitIs(s[k + 2]);
      DigitIs(s[k + 3]);
      assert s[k..] == s[k..k + 2] + [s[k + 2], s[k + 3]] + s[k + 4..];
      assert IsYearText(s[k..], s[k + 2], s[k + 3], s[k + 4..]);
    }
    if c, d, space :| IsYearText(s[k..], c, d, space) {
      DigitIs(c);
      DigitIs(d);
      assert s[k + 2] == s[k..][2] == c && s[k + 3] == s[k..][3] == d;
      assert s[k..k + 2] == s[k..][..2] && s[k + 4..] == s[k..][4..] == space;
    }
  }

  /** Nothing at the start of a name, or one separator. */
  ghost predicate IsLead(lead: string, p: nat)
  {
    (p == 0 && lead == "") || (|lead| == 1 && (lead[0] in "._/\\-" || IsSpace(lead[0])))
  }

  /** A lead of `n` characters from `p` on, then a token. */
  ghost predicate TokenBehind(s: string, p: nat, n: nat)
  {
    p + n <= |s| && IsLead(s[p..p + n], p) && EndsInToken(s, p + n)
  }

  /** The same, then the year `19cd` or `20cd`. */
  ghost predicate YearBehind(s: string, p: nat, n: nat, c: char, d: char, space: string)
  {
    p + n <= |s| && IsLead(s[p..p + n], p) && IsYearText(s[p + n..], c, d, space)
  }

  /** A token is found from `p` on exactly where the name goes on with a lead, a token in any case, and white space. */
  lemma TokenFromIs(s: string, p: nat)
    requires p <= |s|
    ensures TokenFrom(s, p) <==> exists n: nat :: TokenBehind(s, p, n)
  {
    hide IsSpace, EndsInToken, TokenAt;
    if p < |s| {
      SeparatorIs(s[p]);
      TokenAtIs(s, p + 1);
      assert s[p..p + 1] == [s[p]] && s[p..p] == "";
    } else {
      NoTokenAtEnd(s);
    }
    TokenAtIs(s, 0);
    hide IsSeparator;
    if TokenFrom(s, p) {
      var n: nat := if p == 0 && TokenAt(s, 0) then 0 else 1;
      assert TokenBehind(s, p, n);
    }
  }

  lemma NoTokenAtEnd(s: string)
    ensures !EndsInToken(s, |s|)
  {
    hide IsToken, IsSpace;
    NoEmptyToken();
    forall word, space ensures s[|s|..] == word + space ==> !IsToken(Casefold(word)) {
      if s[|s|..] == word + space { assert |word| == 0 && Casefold(word) == ""; }
    }
  }

  lemma NoEmptyToken()
    ensures !IsToken("")
  {
    TokensAre("");
  }

  /** The same for a year. */
  lemma YearFromIs(s: string, p: nat)
    requires p <= |s|
    ensures YearFrom(s, p) <==> exists n: nat, c, d, space :: YearBehind(s, p, n, c, d, space)
  {
    hide IsSpace, IsYearText, YearAt;
    if p < |s| {
      SeparatorIs(s[p]);
      YearAtIs(s, p + 1);
      assert s[p..p + 1] == [s[p]] && s[p..p] == "";
    } else {
      NoYearAtEnd(s);
    }
    YearAtIs(s, 0);
    hide IsSeparator;
    if YearFrom(s, p) {
      var n: nat := if p == 0 && YearAt(s, 0) then 0 else 1;
      var c, d, space :| IsYearText(s[p + n..], c, d, space);
      assert YearBehind(s, p, n, c, d, space);
    }
  }

  lemma NoYearAtEnd(s: string)
    ensures forall c, d, space :: !IsYearText(s[|s|..], c, d, space)
  {
  }

  /** A hyphen, an underscore or a dot, two capitals or digits or more, and white space. */
  ghost predicate IsGroupText(text: string, mark: char, group: string, space: string)
  {
    && text == [mark] + group + space && mark in "-_." && |group| >= 2
    && (forall c :: c in group ==> c in UPPER || c in "0123456789") && All(IsSpace, space)
  }

  lemma GroupCharIs(c: char)
    ensures IsGroupChar(c) <==> c in UPPER || c in "0123456789"
    ensures IsSpace(c) ==> !IsGroupChar(c)
  {
    DigitIs(c);
    CapitalIs(c);
    hide UPPER;
  }

  lemma GroupFromIs(s: string, p: nat)
    requires p <= |s|
    ensures GroupFrom(s, p) <==> exists mark, group, space :: IsGroupText(s[p..], mark, group, space)
  {
    hide GroupFrom, IsGroupText, Span;
    if GroupFrom(s, p) { GroupIsText(s, p); }
    if mark, group, space :| IsGroupText(s[p..], mark, group, space) { TextIsGroup(s, p, mark, group, space); }
  }

  lemma GroupIsText(s: string, p: nat)
    requires GroupFrom(s, p)
    ensures p < |s|
    ensures
      var rest := s[p + 1..];
      var n := Span(IsGroupChar, rest);
      IsGroupText(s[p..], s[p], rest[..n], rest[n..])
  {
    hide IsSpace, IsGroupChar, UPPER, Span;
    var rest := s[p + 1..];
    var n := Span(IsGroupChar, rest);
    assert s[p + 1 + n..] == rest[n..];
    assert s[p..] == [s[p]] + rest[..n] + rest[n..];
    forall c | c in rest[..n] ensures c in UPPER || c in "0123456789" {
      var i :| 0 <= i < n && rest[..n][i] == c;
      GroupCharIs(c);
    }
  }

  lemma TextIsGroup(s: string, p: nat, mark: char, group: string, space: string)
    requires p <= |s| && IsGroupText(s[p..], mark, group, space)
    ensures GroupFrom(s, p)
  {
    hide IsSpace, IsGroupChar, UPPER, Span;
    assert s[p] == s[p..][0] == mark;
    assert s[p + 1..] == s[p..][1..] == group + space;
    GroupEnds(group, space);
    SpanConcat(IsGroupChar, group, space);
    assert s[p + 1 + |group|..] == s[p + 1..][|group|..] == space;
  }

  lemma GroupEnds(group: string, space: string)
    requires (forall c :: c in group ==> c in UPPER || c in "0123456789") && All(IsSpace, space)
    ensures All(IsGroupChar, group) && (space != "" ==> !IsGroupChar(space[0]))
  {
    hide IsSpace, IsGroupChar, UPPER;
    forall i | 0 <= i < |group| ensures IsGroupChar(group[i]) { assert group[i] in group; GroupCharIs(group[i]); }
    if space != "" { GroupCharIs(space[0]); }
  }

  // ---- what the tail is made of ----

  datatype Piece = Year(text: string) | Removed(text: string)

  /** A title and the pieces behind it. */
  datatype Reading = Reading(title: string, tail: seq<Piece>)

  function Original(tail: seq<Piece>): string
  {
    if tail == [] then "" else Original(tail[..|tail| - 1]) + tail[|tail| - 1].text
  }

  /** A year stays as it is spelled; a removed piece leaves one space. */
  function Show(piece: Piece): string
  {
    if piece.Year? then piece.text else " "
  }

  function Shown(tail: seq<Piece>): string
  {
    if tail == [] then "" else Shown(tail[..|tail| - 1]) + Show(tail[|tail| - 1])
  }

  /** The four digits of a year. */
  function YearOf(piece: Piece): seq<string>
  {
    if piece.Year? && |piece.text| >= 4 then [piece.text[..4]] else []
  }

  function Years(tail: seq<Piece>): seq<string>
  {
    if tail == [] then [] else Years(tail[..|tail| - 1]) + YearOf(tail[|tail| - 1])
  }

  /** The name `s` ends in nothing the scan knows. */
  predicate Bare(s: string)
  {
    forall p: nat :: p < |s| ==> !YearFrom(s, p) && !TokenFrom(s, p) && !GroupFrom(s, p)
  }

  /** `piece` is the last piece of `head + piece.text`: a year, failing that the longest token, failing that a group. */
  predicate LastPiece(head: string, piece: Piece)
  {
    var s, k := head + piece.text, |head|;
    match piece
    case Year(_) => YearAt(s, k) && (k == 0 || IsSeparator(s[k - 1]))
    case Removed(_) =>
      && (forall p: nat :: p < |s| ==> !YearFrom(s, p))
      && if TokenFrom(s, k) then forall p: nat :: p < k ==> !TokenFrom(s, p)
         else GroupFrom(s, k) && forall p: nat :: p < |s| ==> !TokenFrom(s, p)
  }

  predicate Reads(title: string, tail: seq<Piece>)
  {
    if tail == [] then Bare(title)
    else
      var front, last := tail[..|tail| - 1], tail[|tail| - 1];
      Reads(title, front) && LastPiece(title + Original(front), last)
  }

  function Read(s: string): Reading
    decreases |s|
  {
    if s == "" then Reading("", [])
    else if YearStart(s).Some? then
      var k := YearStart(s).value;
      var before := Read(s[..k]);
      before.(tail := before.tail + [Year(s[k..])])
    else if RemovalStart(s).Some? then
      var k := RemovalStart(s).value;
      var before := Read(s[..k]);
      before.(tail := before.tail + [Removed(s[k..])])
    else Reading(s, [])
  }

  function Stripped(s: string): string
  {
    Read(s).title + Shown(Read(s).tail)
  }

  // ---- the reading of a name ----

  /** The year search finds the year behind a separator, wherever the name ends in one. */
  lemma YearStartIs(s: string, k: nat)
    ensures YearStart(s) == Some(k) <==> (YearAt(s, k) && (k == 0 || IsSeparator(s[k - 1])))
    ensures YearStart(s).None? <==> forall p: nat :: p < |s| ==> !YearFrom(s, p)
  {
    var found := Search(YearFrom, s, 0);
    if YearAt(s, k) && (k == 0 || IsSeparator(s[k - 1])) {
      assert YearFrom(s, if k == 0 then 0 else k - 1);
      YearFoundAt(s, found.value, k);
    }
  }

  lemma YearFoundAt(s: string, p: nat, k: nat)
    requires YearFrom(s, p) && YearAt(s, k)
    ensures if p == 0 && YearAt(s, 0) then k == 0 else k == p + 1
  {
  }

  lemma GroupUnique(s: string, j: nat, k: nat)
    requires GroupFrom(s, j) && GroupFrom(s, k)
    ensures j == k
  {
  }

  lemma SearchIs(from: (string, nat) -> bool, s: string, k: nat)
    requires k < |s| && from(s, k) && forall q: nat :: q < k ==> !from(s, q)
    ensures Search(from, s, 0) == Some(k)
  {
  }

  lemma SearchFails(from: (string, nat) -> bool, s: string)
    requires forall q: nat :: q < |s| ==> !from(s, q)
    ensures Search(from, s, 0) == None
  {
  }

  lemma RemovalStartIs(s: string, k: nat)
    requires k < |s|
    requires if TokenFrom(s, k) then forall p: nat :: p < k ==> !TokenFrom(s, p)
             else GroupFrom(s, k) && forall p: nat :: p < |s| ==> !TokenFrom(s, p)
    ensures RemovalStart(s) == Some(k)
  {
    hide TokenFrom, GroupFrom, Search;
    if TokenFrom(s, k) {
      SearchIs(TokenFrom, s, k);
    } else {
      SearchFails(TokenFrom, s);
      forall p: nat | p < k ensures !GroupFrom(s, p) {
        if GroupFrom(s, p) { GroupUnique(s, p, k); }
      }
      SearchIs(GroupFrom, s, k);
    }
  }

  lemma RemovalIsLast(s: string)
    requires YearStart(s).None? && RemovalStart(s).Some?
    ensures LastPiece(s[..RemovalStart(s).value], Removed(s[RemovalStart(s).value..]))
  {
    hide TokenFrom, YearFrom, GroupFrom, YearStart;
    var k := RemovalStart(s).value;
    YearStartIs(s, 0);
    assert s[..k] + s[k..] == s;
  }

  lemma YearIsLast(s: string)
    requires YearStart(s).Some?
    ensures LastPiece(s[..YearStart(s).value], Year(s[YearStart(s).value..]))
  {
    hide YearStart;
    var k := YearStart(s).value;
    YearStartIs(s, k);
    assert s[..k] + s[k..] == s;
  }

  lemma NothingIsBare(s: string)
    requires YearStart(s).None? && RemovalStart(s).None?
    ensures Bare(s)
  {
    hide TokenFrom, YearFrom, GroupFrom, YearStart;
    YearStartIs(s, 0);
  }

  lemma Pieces(title: string, front: seq<Piece>, last: Piece)
    ensures Original(front + [last]) == Original(front) + last.text
    ensures Shown(front + [last]) == Shown(front) + Show(last)
    ensures Years(front + [last]) == Years(front) + YearOf(last)
    ensures Reads(title, front + [last]) <==> (Reads(title, front) && LastPiece(title + Original(front), last))
  {
  }

  /** One round of the scan: the last piece of `s`, and where it starts. */
  lemma OnePiece(s: string) returns (k: nat, last: Piece)
    requires YearStart(s).Some? || RemovalStart(s).Some?
    ensures k < |s| && s == s[..k] + last.text && LastPiece(s[..k], last)
    ensures YearStart(s).Some? ==> k == YearStart(s).value && last == Year(s[k..])
    ensures YearStart(s).None? ==> k == RemovalStart(s).value && last == Removed(s[k..])
    ensures Read(s) == Reading(Read(s[..k]).title, Read(s[..k]).tail + [last])
  {
    hide LastPiece, YearStart, RemovalStart;
    if YearStart(s).Some? {
      k := YearStart(s).value;
      last := Year(s[k..]);
      YearIsLast(s);
    } else {
      k := RemovalStart(s).value;
      last := Removed(s[k..]);
      RemovalIsLast(s);
    }
    assert s == s[..k] + s[k..];
  }

  /** Every name has a reading: `Read` finds one. */
  lemma {:induction false} ReadReads(s: string)
    ensures s == Read(s).title + Original(Read(s).tail)
    ensures Reads(Read(s).title, Read(s).tail)
    decreases |s|
  {
    hide LastPiece, Bare, Read, YearStart, RemovalStart;
    if YearStart(s).Some? || RemovalStart(s).Some? {
      var k, last := OnePiece(s);
      ReadReads(s[..k]);
      var before := Read(s[..k]);
      Pieces(before.title, before.tail, last);
      Regroup(before.title, Original(before.tail), last.text);
      hide Original, Reads;
    } else {
      NothingIsBare(s);
      NothingLeft(s);
      assert s + "" == s;
    }
  }

  lemma NoPieces(title: string)
    ensures title + Original([]) == title
    ensures Reads(title, []) <==> Bare(title)
  {
    hide Bare;
  }

  lemma BareHasNoStart(s: string)
    requires Bare(s)
    ensures YearStart(s).None? && RemovalStart(s).None?
  {
    hide YearFrom, TokenFrom, GroupFrom, YearAt;
  }

  lemma BareIsRead(s: string)
    requires Bare(s)
    ensures Read(s) == Reading(s, [])
  {
    hide Bare, YearStart, RemovalStart;
    BareHasNoStart(s);
  }

  /** And no name has two. */
  lemma {:induction false} ReadingUnique(title: string, tail: seq<Piece>)
    requires Reads(title, tail)
    ensures Read(title + Original(tail)) == Reading(title, tail)
    decreases |tail|
  {
    hide LastPiece, Bare, Read, Reads, Original;
    if tail == [] {
      NoPieces(title);
      BareIsRead(title);
    } else {
      var front, last := tail[..|tail| - 1], tail[|tail| - 1];
      assert tail == front + [last];
      Pieces(title, front, last);
      ReadingUnique(title, front);
      Regroup(title, Original(front), last.text);
      ReadOneMore(title + Original(front), last);
    }
  }

  lemma ReadOneMore(head: string, last: Piece)
    requires LastPiece(head, last)
    ensures Read(head + last.text) == Reading(Read(head).title, Read(head).tail + [last])
  {
    var s := head + last.text;
    assert s[..|head|] == head && s[|head|..] == last.text;
    if last.Year? {
      YearStartIs(s, |head|);
    } else {
      YearStartIs(s, 0);
      RemovalStartIs(s, |head|);
    }
    hide LastPiece, YearStart, RemovalStart;
  }

  // ---- the scan and the splice, as the program runs them ----

  function LowestStart(value: string, spans: seq<(nat, nat)>): nat
  {
    if spans == [] then |value| else spans[|spans| - 1].0
  }

  /** Non-empty spans, each in front of the one before it. */
  predicate RightToLeft(value: string, spans: seq<(nat, nat)>)
  {
    spans != [] ==>
      var front, last := spans[..|spans| - 1], spans[|spans| - 1];
      RightToLeft(value, front) && last.0 < last.1 <= LowestStart(value, front)
  }

  /** Every span replaced by one space, the rightmost first. */
  function Splice(value: string, spans: seq<(nat, nat)>): (r: string)
    requires RightToLeft(value, spans)
    ensures LowestStart(value, spans) <= |r| && LowestStart(value, spans) <= |value|
    ensures r[..LowestStart(value, spans)] == value[..LowestStart(value, spans)]
  {
    if spans == [] then value
    else
      var before, last := Splice(value, spans[..|spans| - 1]), spans[|spans| - 1];
      assert before[..last.0] == before[..LowestStart(value, spans[..|spans| - 1])][..last.0];
      before[..last.0] + " " + before[last.1..]
  }

  lemma SpliceOneMore(value: string, spans: seq<(nat, nat)>, start: nat, cut: nat, behind: string)
    requires RightToLeft(value, spans) && start < cut <= LowestStart(value, spans) && cut <= |value|
    requires Splice(value, spans) == value[..cut] + behind
    ensures RightToLeft(value, spans + [(start, cut)])
    ensures Splice(value, spans + [(start, cut)]) == value[..start] + " " + behind
  {
    assert (spans + [(start, cut)])[..|spans|] == spans;
  }

  lemma ShowLast(front: seq<Piece>, last: Piece)
    ensures Shown(front + [last]) == Shown(front) + Show(last)
  {
  }

  lemma ShowOne(piece: Piece)
    ensures Shown([piece]) == Show(piece)
  {
  }

  lemma {:induction false} InFront(piece: Piece, tail: seq<Piece>)
    ensures Shown([piece] + tail) == Show(piece) + Shown(tail)
    decreases |tail|
  {
    if tail == [] {
      ShowOne(piece);
      assert [piece] + tail == [piece];
    } else {
      var front, last := tail[..|tail| - 1], tail[|tail| - 1];
      assert tail == front + [last];
      hide Shown, Show;
      InFront(piece, front);
      ShowLast(front, last);
      ShowLast([piece] + front, last);
      Regroup([piece], front, [last]);
      Regroup(Show(piece), Shown(front), Show(last));
    }
  }

  lemma ReadFurther(whole: Reading, at: Reading, before: Reading, last: Piece, tail: seq<Piece>)
    requires at == Reading(before.title, before.tail + [last])
    requires whole == Reading(at.title, at.tail + tail)
    ensures whole == Reading(before.title, before.tail + ([last] + tail))
  {
  }

  /** The state of the scan: what is behind `cut` is read as `tail`, and the spans say the same. */
  ghost predicate Scanned(value: string, cut: nat, removed: seq<(nat, nat)>, tail: seq<Piece>)
  {
    && cut <= |value|
    && RightToLeft(value, removed) && cut <= LowestStart(value, removed)
    && Read(value) == Reading(Read(value[..cut]).title, Read(value[..cut]).tail + tail)
    && Splice(value, removed) == value[..cut] + Shown(tail)
  }

  lemma ScanOne(value: string, cut: nat, removed: seq<(nat, nat)>, tail: seq<Piece>) returns (k: nat, last: Piece)
    requires Scanned(value, cut, removed, tail)
    requires YearStart(value[..cut]).Some? || RemovalStart(value[..cut]).Some?
    ensures k < cut
    ensures YearStart(value[..cut]).Some? ==> k == YearStart(value[..cut]).value && last == Year(value[k..cut])
    ensures YearStart(value[..cut]).None? ==> k == RemovalStart(value[..cut]).value && last == Removed(value[k..cut])
    ensures Scanned(value, k, if last.Year? then removed else removed + [(k, cut)], [last] + tail)
  {
    hide YearStart, RemovalStart, Read, RightToLeft, Splice, Shown, LastPiece;
    var head := value[..cut];
    k, last := OnePiece(head);
    assert head[..k] == value[..k] && head[k..] == value[k..cut] && head == value[..k] + value[k..cut];
    ReadFurther(Read(value), Read(head), Read(value[..k]), last, tail);
    InFront(last, tail);
    if last.Removed? {
      SpliceOneMore(value, removed, k, cut, Shown(tail));
      assert value[..k] + " " + Shown(tail) == value[..k] + (" " + Shown(tail));
    } else {
      assert value[..k] + value[k..cut] + Shown(tail) == value[..k] + (value[k..cut] + Shown(tail));
    }
    assert LowestStart(value, removed + [(k, cut)]) == k;
  }

  lemma ScanOver(value: string, cut: nat, removed: seq<(nat, nat)>, tail: seq<Piece>)
    requires Scanned(value, cut, removed, tail)
    requires YearStart(value[..cut]).None? && RemovalStart(value[..cut]).None?
    ensures RightToLeft(value, removed) && Splice(value, removed) == Stripped(value)
  {
    NothingLeft(value[..cut]);
    hide YearStart, RemovalStart, Read, RightToLeft, Splice, Shown;
    assert [] + tail == tail;
  }

  lemma NothingLeft(s: string)
    requires YearStart(s).None? && RemovalStart(s).None?
    ensures Read(s) == Reading(s, [])
  {
  }

  lemma {:induction false} SpliceRound(value: string, spans: seq<(nat, nat)>, j: nat)
    requires RightToLeft(value, spans) && j < |spans|
    ensures RightToLeft(value, spans[..j]) && RightToLeft(value, spans[..j + 1])
    ensures spans[j].0 < spans[j].1 <= |Splice(value, spans[..j])|
    ensures Splice(value, spans[..j + 1])
         == Splice(value, spans[..j])[..spans[j].0] + " " + Splice(value, spans[..j])[spans[j].1..]
    decreases |spans|
  {
    if j == |spans| - 1 {
      assert spans[..j + 1] == spans;
    } else {
      var front := spans[..|spans| - 1];
      assert front[..j] == spans[..j] && front[..j + 1] == spans[..j + 1];
      SpliceRound(value, front, j);
    }
  }

  /** One pass from the left: what stands between the spans, with one space for each of them. */
  function OnePass(value: string, spans: seq<(nat, nat)>, from: nat): string
    requires RightToLeft(value, spans) && from <= LowestStart(value, spans)
    decreases |spans|
  {
    if spans == [] then
      value[from..]
    else
      var first := spans[|spans| - 1];
      BelowLength(value, spans);
      value[from..first.0] + " " + OnePass(value, spans[..|spans| - 1], first.1)
  }

  lemma {:induction false} BelowLength(value: string, spans: seq<(nat, nat)>)
    requires RightToLeft(value, spans)
    ensures LowestStart(value, spans) <= |value|
    decreases |spans|
  {
    if spans != [] { BelowLength(value, spans[..|spans| - 1]); }
  }

  /** Up to the first span the pass only copies. */
  lemma OnePassCopies(value: string, spans: seq<(nat, nat)>, from: nat, to: nat)
    requires RightToLeft(value, spans) && from <= to <= LowestStart(value, spans)
    ensures to <= |value| && OnePass(value, spans, from) == value[from..to] + OnePass(value, spans, to)
  {
    BelowLength(value, spans);
    if spans == [] {
      assert value[from..] == value[from..to] + value[to..];
    } else {
      var first := spans[|spans| - 1];
      assert value[from..first.0] == value[from..to] + value[to..first.0];
    }
  }

  /** Splicing span after span from the right is the one pass from the left. */
  lemma {:induction false} SpliceIsOnePass(value: string, spans: seq<(nat, nat)>)
    requires RightToLeft(value, spans)
    ensures Splice(value, spans) == OnePass(value, spans, 0)
    decreases |spans|
  {
    if spans != [] {
      var front, first := spans[..|spans| - 1], spans[|spans| - 1];
      SpliceIsOnePass(value, front);
      OnePassCopies(value, front, 0, first.0);
      OnePassCopies(value, front, 0, first.1);
    }
  }

  /** The loop over the spans: it works from the right, and does what one pass from the left would. */
  method ApplySpans(value: string, removed: seq<(nat, nat)>) returns (stripped: string)
    requires RightToLeft(value, removed)
    ensures stripped == OnePass(value, removed, 0)
  {
    SpliceIsOnePass(value, removed);
    stripped := value;
    for j := 0 to |removed|
      invariant RightToLeft(value, removed[..j]) && stripped == Splice(value, removed[..j])
    {
      SpliceRound(value, removed, j);
      hide Splice, RightToLeft;
      var (start, end) := removed[j];
      stripped := stripped[..start] + " " + stripped[end..];
    }
    assert removed[..|removed|] == removed;
  }

  method StripReleaseTail(value: string) returns (stripped: string)
    ensures stripped == Stripped(value)
  {
    var cut: nat := |value|;
    var removed: seq<(nat, nat)> := [];
    ghost var tail: seq<Piece> := [];
    assert value[..cut] == value;
    assert Scanned(value, cut, removed, tail);
    hide YearStart, RemovalStart, Scanned, Stripped;
    assert YearStart("").None? && RemovalStart("").None?;
    while cut > 0
      invariant cut <= |value| && Scanned(value, cut, removed, tail)
      decreases cut
    {
      var head := value[..cut];
      var year := YearStart(head);
      if year.Some? {
        ghost var k, last := ScanOne(value, cut, removed, tail);
        tail := [last] + tail;
        cut := year.value;
        continue;
      }
      var found := RemovalStart(head);
      if found.None? {
        break;
      }
      ghost var k, last := ScanOne(value, cut, removed, tail);
      tail := [last] + tail;
      removed := removed + [(found.value, cut)];
      cut := found.value;
    }
    assert cut == 0 ==> value[..cut] == "";
    ScanOver(value, cut, removed, tail);
    SpliceIsOnePass(value, removed);
    stripped := ApplySpans(value, removed);
  }

  // ---- past a year ----

  lemma TokenEnds(w: string)
    requires w in TOKENS
    ensures w != "" && ('a' <= w[|w| - 1] <= 'z' || IsDigit(w[|w| - 1]))
  {
  }

  /** The last character of a token in a text is that of the token, but for its case. */
  lemma TokenEndsIn(s: string, k: nat, w: string)
    requires w in TOKENS && k + |w| <= |s| && Casefold(s[k..k + |w|]) == w
    ensures w != "" && !IsMark(s[k + |w| - 1]) && !IsSpace(s[k + |w| - 1])
  {
    hide TOKENS;
    TokenEnds(w);
    assert FoldChar(s[k..k + |w|][|w| - 1]) == w[|w| - 1];
  }

  /** No pattern reaches over a mark at the end of a name. */
  lemma MarkEndsScan(s: string)
    requires s != "" && IsMark(s[|s| - 1])
    ensures Bare(s)
  {
    hide TOKENS;
    forall p: nat | p < |s| ensures !YearFrom(s, p) && !TokenFrom(s, p) && !GroupFrom(s, p) {
      NoYearBefore(s, 0);
      NoYearBefore(s, p + 1);
      NoTokenBefore(s, 0);
      NoTokenBefore(s, p + 1);
      NoGroupBefore(s, p);
    }
  }

  lemma NoYearBefore(s: string, k: nat)
    requires s != "" && IsMark(s[|s| - 1])
    ensures !YearAt(s, k)
  {
    if k + 4 < |s| { assert s[k + 4..][|s| - 1 - (k + 4)] == s[|s| - 1]; }
  }

  lemma TokenNotLast(s: string, k: nat, w: string)
    requires s != "" && IsMark(s[|s| - 1])
    requires w in TOKENS && k + |w| <= |s| && Casefold(s[k..k + |w|]) == w
    ensures !All(IsSpace, s[k + |w|..])
  {
    hide TOKENS, Casefold, IsSpace;
    TokenEndsIn(s, k, w);
    MarkIsNoSpace(s[|s| - 1]);
    assert k + |w| < |s|;
    assert s[k + |w|..][|s| - 1 - (k + |w|)] == s[|s| - 1];
  }

  lemma MarkIsNoSpace(c: char)
    requires IsMark(c)
    ensures !IsSpace(c)
  {
  }

  lemma NoTokenBefore(s: string, k: nat)
    requires s != "" && IsMark(s[|s| - 1])
    ensures !TokenAt(s, k)
  {
    hide TOKENS, Casefold, IsSpace, IsMark, All;
    forall w | w in TOKENS && k + |w| <= |s| && Casefold(s[k..k + |w|]) == w ensures !All(IsSpace, s[k + |w|..]) {
      TokenNotLast(s, k, w);
    }
  }

  lemma NoGroupBefore(s: string, p: nat)
    requires s != "" && IsMark(s[|s| - 1])
    ensures !GroupFrom(s, p)
  {
    if p < |s| {
      var n := Span(IsGroupChar, s[p + 1..]);
      if p + 1 + n < |s| {
        assert s[p + 1 + n..][|s| - 1 - (p + 1 + n)] == s[|s| - 1];
      } else if n > 0 {
        assert s[p + 1..][..n][n - 1] == s[|s| - 1];
      }
    }
  }

  /** White space at the end of a name changes nothing for the scan. */
  lemma SpacesDoNotMatter(t: string, spaces: string)
    requires All(IsSpace, spaces)
    ensures Bare(t + spaces) <==> Bare(t)
  {
    hide TokenFrom, YearFrom, GroupFrom;
    forall p: nat
      ensures YearFrom(t + spaces, p) <==> YearFrom(t, p)
      ensures TokenFrom(t + spaces, p) <==> TokenFrom(t, p)
      ensures GroupFrom(t + spaces, p) <==> GroupFrom(t, p)
      ensures GroupFrom(t, p) || YearFrom(t, p) || TokenFrom(t, p) ==> p < |t|
    {
      SamePatterns(t, spaces, p);
    }
  }

  lemma SamePatterns(t: string, spaces: string, p: nat)
    requires All(IsSpace, spaces)
    ensures YearFrom(t + spaces, p) <==> YearFrom(t, p)
    ensures TokenFrom(t + spaces, p) <==> TokenFrom(t, p)
    ensures GroupFrom(t + spaces, p) <==> GroupFrom(t, p)
    ensures GroupFrom(t, p) || YearFrom(t, p) || TokenFrom(t, p) ==> p < |t|
  {
    hide TokenAt, IsSeparator;
    YearBeforeSpaces(t, spaces, 0);
    YearBeforeSpaces(t, spaces, p + 1);
    TokenBeforeSpaces(t, spaces, 0);
    TokenBeforeSpaces(t, spaces, p + 1);
    GroupBeforeSpaces(t, spaces, p);
    hide YearAt, GroupFrom;
  }

  lemma AllBehind(t: string, spaces: string, k: nat)
    requires All(IsSpace, spaces) && k <= |t|
    ensures All(IsSpace, (t + spaces)[k..]) <==> All(IsSpace, t[k..])
  {
    hide IsSpace;
    var s := t + spaces;
    assert s[k..] == t[k..] + spaces;
    if All(IsSpace, s[k..]) {
      forall i | 0 <= i < |t[k..]| ensures IsSpace(t[k..][i]) { assert s[k..][i] == t[k..][i]; }
    }
  }

  lemma YearBeforeSpaces(t: string, spaces: string, k: nat)
    requires All(IsSpace, spaces)
    ensures YearAt(t + spaces, k) <==> YearAt(t, k)
    ensures YearAt(t, k) ==> k < |t|
  {
    var s := t + spaces;
    if k + 4 <= |t| {
      AllBehind(t, spaces, k + 4);
      assert s[k..k + 2] == t[k..k + 2];
    } else if k + 4 <= |s| {
      assert IsSpace(s[k + 3]);
    }
  }

  lemma TokenBeforeSpaces(t: string, spaces: string, k: nat)
    requires All(IsSpace, spaces)
    ensures TokenAt(t + spaces, k) <==> TokenAt(t, k)
    ensures TokenAt(t, k) ==> k < |t|
  {
    hide TOKENS;
    var s := t + spaces;
    forall w | w in TOKENS
      ensures (k + |w| <= |s| && Casefold(s[k..k + |w|]) == w && All(IsSpace, s[k + |w|..]))
          <==> (k + |w| <= |t| && Casefold(t[k..k + |w|]) == w && All(IsSpace, t[k + |w|..]))
    {
      TokenEnds(w);
      if k + |w| <= |t| {
        AllBehind(t, spaces, k + |w|);
        assert s[k..k + |w|] == t[k..k + |w|];
      } else if k + |w| <= |s| && Casefold(s[k..k + |w|]) == w {
        TokenEndsIn(s, k, w);
      }
    }
    if TokenAt(t, k) {
      var w :| w in TOKENS && |w| <= |t| - k && Casefold(t[k..k + |w|]) == w && All(IsSpace, t[k + |w|..]);
      TokenEnds(w);
    }
  }

  lemma SpanBeforeSpaces(t: string, spaces: string)
    requires All(IsSpace, spaces)
    ensures Span(IsGroupChar, t + spaces) == Span(IsGroupChar, t)
  {
    var n := Span(IsGroupChar, t);
    Regroup(t[..n], t[n..], spaces);
    assert t[..n] + t[n..] == t;
    assert (t[n..] + spaces) != "" ==> !IsGroupChar((t[n..] + spaces)[0]);
    hide IsGroupChar, IsSpace;
    SpanConcat(IsGroupChar, t[..n], t[n..] + spaces);
  }

  lemma GroupBeforeSpaces(t: string, spaces: string, p: nat)
    requires All(IsSpace, spaces)
    ensures GroupFrom(t + spaces, p) <==> GroupFrom(t, p)
    ensures GroupFrom(t, p) ==> p < |t|
  {
    var s := t + spaces;
    hide IsSpace, IsGroupChar;
    if p < |t| {
      var rest := t[p + 1..];
      assert s[p + 1..] == rest + spaces;
      SpanBeforeSpaces(rest, spaces);
      AllBehind(t, spaces, p + 1 + Span(IsGroupChar, rest));
    } else if p < |s| {
      SpacesAreNoHyphens(spaces[p - |t|]);
    }
  }

  lemma SpacesAreNoHyphens(c: char)
    requires IsSpace(c)
    ensures !IsMark(c)
  {
  }

  /** Past a year the scan goes on exactly when white space stands in front of it, and in front of
      that something the scan knows. A mark in front of the year ends it. */
  lemma ScansPastYearIff(s: string, k: nat)
    requires YearAt(s, k) && (k == 0 || IsSeparator(s[k - 1]))
    ensures Read(s) == Reading(Read(s[..k]).title, Read(s[..k]).tail + [Year(s[k..])])
    ensures
      var before := TrimEnd(IsSpace, s[..k]);
      Read(s[..k]).tail != [] <==> |before| < k && !Bare(before)
  {
    YearStartIs(s, k);
    hide YearAt, YearStart;
    var head := s[..k];
    var before := TrimEnd(IsSpace, head);
    assert head == before + head[|before|..];
    SpacesDoNotMatter(before, head[|before|..]);
    if |before| == k && k > 0 {
      assert before == head && !IsSpace(head[k - 1]);
      MarkEndsScan(head);
    }
    TailIffNotBare(head);
    assert k == 0 ==> before == "" && Bare("");
  }

  lemma TailIffNotBare(s: string)
    ensures Read(s).tail == [] <==> Bare(s)
  {
    ReadReads(s);
    if Bare(s) { BareIsRead(s); }
    hide Bare, Read;
    if Read(s).tail == [] { NoPieces(Read(s).title); }
  }

  lemma YearFits(s: string, k: nat)
    requires YearAt(s, k)
    ensures k + 4 <= |s|
  {
  }

  lemma MarkSeparates(c: char)
    requires IsMark(c)
    ensures IsSeparator(c)
  {
  }

  lemma YearShown(text: string)
    ensures Shown([Year(text)]) == text
  {
    ShowOne(Year(text));
  }

  lemma ReadStripped(s: string, title: string, tail: seq<Piece>)
    requires Read(s) == Reading(title, tail)
    ensures Stripped(s) == title + Shown(tail)
  {
    hide Read, Shown;
  }

  /** A name whose year hangs on a mark is left as it is. */
  lemma YearBehindMarkStripsNothing(s: string, k: nat)
    requires YearAt(s, k) && k > 0 && IsMark(s[k - 1])
    ensures Read(s) == Reading(s[..k], [Year(s[k..])]) && Stripped(s) == s
  {
    hide Read, Bare, YearAt, Shown, Stripped, IsMark, IsSeparator;
    YearFits(s, k);
    MarkSeparates(s[k - 1]);
    ScansPastYearIff(s, k);
    var head, year := s[..k], Year(s[k..]);
    assert head[|head| - 1] == s[k - 1];
    MarkEndsScan(head);
    BareIsRead(head);
    NothingBefore([year]);
    ReadStripped(s, head, [year]);
    YearShown(s[k..]);
    assert head + s[k..] == s;
  }

  /** A mark in front of the year keeps the resolution. */
  lemma ResolutionBehindMark()
    ensures Stripped("Alice.1080p.2024") == "Alice.1080p.2024"
  {
    var s := "Alice.1080p.2024";
    assert s[12..14] == "20" && s[16..] == "";
    assert YearAt(s, 12) && IsMark(s[11]);
    YearBehindMarkStripsNothing(s, 12);
  }

  // ---- the comparable title ----

  function Flatten(value: string): string
  {
    Casefold(Trim(IsSpace, SubRuns(IsSpace, SubRuns(IsMark, value))))
  }

  /** Of a name whose brackets and dates are unified. */
  function NormalizeTitle(unified: string): string
  {
    var normalized := Flatten(Stripped(unified));
    if normalized != "" then normalized else Flatten(unified)
  }

  /** Separators of any kind and number separate words, and words are all that is left. */
  lemma FlattenIsWords(value: string)
    ensures Flatten(value) == Casefold(Join(Words(IsSeparator, value)))
  {
    FoldedIsJoined(IsSpace, IsSpace, SubRuns(IsMark, value));
    WordsOfSubRuns(IsMark, IsSpace, value);
    WordsAgree(Or(IsMark, IsSpace), IsSeparator, value);
  }

  lemma FlattenEmptyIff(value: string)
    ensures Flatten(value) == "" <==> Words(IsSeparator, value) == []
  {
    FlattenIsWords(value);
    WordsAreWords(IsSeparator, value);
    var words := Words(IsSeparator, value);
    if words != [] {
      assert forall i :: 0 <= i < |words| ==> words[i] in words;
      JoinNonEmpty(words);
    }
  }

  predicate EndsApart(s: string)
  {
    s == "" || IsSeparator(s[|s| - 1])
  }

  lemma WordsOfEnd(a: string, b: string)
    requires EndsApart(a)
    ensures Words(IsSeparator, a + b) == Words(IsSeparator, a) + Words(IsSeparator, b)
  {
    if a == "" {
      assert a + b == b;
      NoWords(IsSeparator, a);
    } else {
      var front, last := a[..|a| - 1], a[|a| - 1..];
      WordsBehind(IsSeparator, front, last, b);
      assert front + last == a;
    }
  }

  lemma YearIsAWord(head: string, last: Piece)
    requires last.Year? && LastPiece(head, last)
    ensures EndsApart(head) && |last.text| >= 4
    ensures Words(IsSeparator, last.text) == [last.text[..4]]
  {
    var s, k := head + last.text, |head|;
    var digits, spaces := last.text[..4], last.text[4..];
    assert s[k + 4..] == spaces && s[k..k + 2] == digits[..2];
    assert last.text == digits + spaces;
    assert s[k + 2] == digits[2] && s[k + 3] == digits[3];
    assert digits[0] == digits[..2][0] && digits[1] == digits[..2][1];
    assert forall i :: 0 <= i < 4 ==> IsDigit(digits[i]);
    assert forall i :: 0 <= i < 4 ==> !IsSeparator(digits[i]);
    assert forall i :: 0 <= i < |spaces| ==> IsSeparator(spaces[i]);
    WordFirst(IsSeparator, digits, spaces);
    NoWords(IsSeparator, spaces);
  }

  /** A year in the tail is still set apart once the pieces before it are replaced. */
  lemma ShownEndsApart(title: string, tail: seq<Piece>)
    requires Reads(title, tail) && EndsApart(title + Original(tail))
    ensures EndsApart(title + Shown(tail))
  {
    if tail != [] {
      var front, last := tail[..|tail| - 1], tail[|tail| - 1];
      if last.Year? {
        YearIsAWord(title + Original(front), last);
        var text := last.text;
        hide LastPiece, Reads, Words;
        assert (title + Original(tail))[|title + Original(tail)| - 1] == text[|text| - 1];
        assert (title + Shown(tail))[|title + Shown(tail)| - 1] == text[|text| - 1];
      }
    }
  }

  lemma WordsOfLast(title: string, front: seq<Piece>, last: Piece)
    requires Reads(title, front) && LastPiece(title + Original(front), last)
    ensures Words(IsSeparator, title + Shown(front + [last]))
         == Words(IsSeparator, title + Shown(front)) + YearOf(last)
  {
    hide Reads, LastPiece, Words;
    Pieces(title, front, last);
    Regroup(title, Shown(front), Show(last));
    if last.Year? {
      WordsOfYear(title, front, last);
    } else {
      WordsOfSpace(title + Shown(front));
    }
  }

  lemma WordsOfYear(title: string, front: seq<Piece>, last: Piece)
    requires Reads(title, front) && LastPiece(title + Original(front), last) && last.Year?
    ensures Words(IsSeparator, title + Shown(front) + last.text)
         == Words(IsSeparator, title + Shown(front)) + YearOf(last)
  {
    hide Reads, LastPiece, Words;
    YearIsAWord(title + Original(front), last);
    ShownEndsApart(title, front);
    WordsOfEnd(title + Shown(front), last.text);
  }

  lemma WordsOfSpace(before: string)
    ensures Words(IsSeparator, before + " ") == Words(IsSeparator, before)
  {
    WordsConcat(IsSeparator, before, " ");
    NoWords(IsSeparator, " ");
  }

  /** What is stripped leaves the words of the title and the years. */
  lemma {:induction false} StrippedWords(title: string, tail: seq<Piece>)
    requires Reads(title, tail)
    ensures Words(IsSeparator, title + Shown(tail)) == Words(IsSeparator, title) + Years(tail)
  {
    hide LastPiece, Words, Shown, Bare;
    if tail == [] {
      assert Shown(tail) == "" by { ShowsNothing(); }
      assert title + "" == title;
    } else {
      var front, last := tail[..|tail| - 1], tail[|tail| - 1];
      assert tail == front + [last];
      Pieces(title, front, last);
      hide Years, Reads, Original;
      StrippedWords(title, front);
      WordsOfLast(title, front, last);
    }
  }

  lemma ShowsNothing()
    ensures Shown([]) == ""
  {
  }

  /** Normalised, a name is its title's words and its years; or, when it has neither, all of its words. */
  lemma NormalizedWords(unified: string, title: string, tail: seq<Piece>)
    requires unified == title + Original(tail) && Reads(title, tail)
    ensures NormalizeTitle(unified) == Casefold(Join(
      if Words(IsSeparator, title) + Years(tail) != [] then Words(IsSeparator, title) + Years(tail)
      else Words(IsSeparator, unified)))
  {
    ReadingUnique(title, tail);
    StrippedWords(title, tail);
    FlattenIsWords(Stripped(unified));
    FlattenEmptyIff(Stripped(unified));
    FlattenIsWords(unified);
  }

  /** Nothing but separators normalises to nothing. */
  lemma EmptyIffSeparators(unified: string)
    ensures NormalizeTitle(unified) == "" <==> All(IsSeparator, unified)
  {
    ReadReads(unified);
    var title, tail := Read(unified).title, Read(unified).tail;
    NormalizedWords(unified, title, tail);
    FlattenEmptyIff(Stripped(unified));
    FlattenEmptyIff(unified);
    NoWordsIff(IsSeparator, unified);
    if All(IsSeparator, unified) {
      SeparatorsAreBare(unified);
      ReadingUnique(unified, []);
      assert unified + Original([]) == unified;
      assert Stripped(unified) == unified + "" == unified;
    }
  }

  lemma SeparatorsAreBare(s: string)
    requires All(IsSeparator, s)
    ensures Reads(s, [])
  {
    hide TokenAt, YearAt;
    forall p: nat | p < |s| ensures !YearFrom(s, p) && !TokenFrom(s, p) && !GroupFrom(s, p) {
      NoToken(s, 0);
      NoToken(s, p + 1);
      NoYear(s, 0);
      NoYear(s, p + 1);
      NoGroup(s, p);
    }
  }

  lemma NoYear(s: string, k: nat)
    requires All(IsSeparator, s)
    ensures !YearAt(s, k)
  {
  }

  lemma NoGroup(s: string, p: nat)
    requires All(IsSeparator, s) && p < |s|
    ensures !GroupFrom(s, p)
  {
  }

  lemma TokensAreWords(w: string)
    requires w in TOKENS
    ensures w != "" && ('a' <= w[0] <= 'x' || IsDigit(w[0]))
  {
  }

  lemma NoToken(s: string, k: nat)
    requires All(IsSeparator, s)
    ensures !TokenAt(s, k)
  {
    hide TOKENS;
    if k <= |s| {
      forall w | w in TOKENS && |w| <= |s| - k ensures Casefold(s[k..k + |w|]) != w {
        TokensAreWords(w);
        assert IsSeparator(s[k]);
        assert Casefold(s[k..k + |w|])[0] == FoldChar(s[k]) != w[0];
      }
    }
  }
}
