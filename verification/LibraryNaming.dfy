/** Library paths: the sanitizer, the layout and what they promise together. */
module LibraryNaming {

  import opened Optional
  import opened Text

  datatype Result<T> = Ok(value: T) | Err

  // ---- the sanitizer ----

  predicate IsInvalid(c: char)
  {
    || c == '<' || c == '>' || c == ':' || c == '"' || c == '/' || c == '\\' || c == '|' || c == '?' || c == '*'
    || c as int < 32
  }

  predicate IsEdge(c: char)
  {
    c == ' ' || c == '.'
  }

  function Cleaned(value: string): string
  {
    Trim(IsEdge, SubRuns(IsSpace, SubRuns(IsInvalid, value)))
  }

  function SanitizeComponent(value: string): string
  {
    var result := Cleaned(value);
    if result != "" && result != "." && result != ".." then result else "unknown"
  }

  // ---- layouts ----

  const TOKENS: seq<string> := ["studio", "title", "year", "quality"]

  /** A character of the layout, or a field. */
  datatype Atom = Literal(c: char) | Field(token: string)

  predicate NotClosing(c: char)
  {
    c != '}'
  }

  /** `Formatter().parse`, refusing every field that is not a bare token. */
  function ParseLayout(layout: string): Result<seq<Atom>>
    decreases |layout|
  {
    if layout == "" then Ok([])
    else if layout[0] == '{' then
      if |layout| > 1 && layout[1] == '{' then Before(Literal('{'), ParseLayout(layout[2..]))
      else
        var n := Span(NotClosing, layout[1..]);
        var field := layout[1..][..n];
        if 1 + n == |layout| then Err
        else if field in TOKENS then Before(Field(field), ParseLayout(layout[n + 2..]))
        else if field != "" && field[|field| - 1] == ':' && field[..|field| - 1] in TOKENS
        then Before(Field(field[..|field| - 1]), ParseLayout(layout[n + 2..]))
        else Err
    else if layout[0] == '}' then
      if |layout| > 1 && layout[1] == '}' then Before(Literal('}'), ParseLayout(layout[2..])) else Err
    else Before(Literal(layout[0]), ParseLayout(layout[1..]))
  }

  function Before(atom: Atom, rest: Result<seq<Atom>>): Result<seq<Atom>>
  {
    match rest
    case Ok(atoms) => Ok([atom] + atoms)
    case Err => Err
  }

  /** `_validate_layout`, and the atoms of a layout it accepts. */
  function Validated(layout: string): Result<seq<Atom>>
  {
    if layout == "" || layout[0] == '/' then Err else ParseLayout(layout)
  }

  datatype Values = Values(studio: string, title: string, year: string, quality: string)

  function ValueOf(values: Values, token: string): string
  {
    if token == "studio" then values.studio
    else if token == "title" then values.title
    else if token == "year" then values.year
    else values.quality
  }

  function Shown(values: Values, atom: Atom): string
  {
    match atom
    case Literal(c) => [c]
    case Field(token) => ValueOf(values, token)
  }

  /** `layout.format(**values)`. */
  function Format(values: Values, atoms: seq<Atom>): string
  {
    if atoms == [] then "" else Shown(values, atoms[0]) + Format(values, atoms[1..])
  }

  // ---- paths ----

  /** `s.split("/")`. */
  function Split(s: string): (parts: seq<string>)
    ensures parts != []
  {
    if s == "" then [""]
    else
      var rest := Split(s[1..]);
      if s[0] == '/' then [""] + rest else [[s[0]] + rest[0]] + rest[1..]
  }

  function Filter(keep: string -> bool, parts: seq<string>): seq<string>
  {
    if parts == [] then []
    else (if keep(parts[0]) then [parts[0]] else []) + Filter(keep, parts[1..])
  }

  predicate IsPart(part: string)
  {
    part != "" && part != "."
  }

  /** `PurePosixPath(s).parts`; exactly two leading slashes are a root of their own. */
  function Parts(s: string): seq<string>
  {
    var names := Filter(IsPart, Split(s));
    if |s| >= 2 && s[0] == '/' && s[1] == '/' && (|s| == 2 || s[2] != '/') then ["//"] + names
    else if s != "" && s[0] == '/' then ["/"] + names
    else names
  }

  predicate Kept(part: string)
  {
    part != "/" && part != "." && part != ".."
  }

  function Sanitized(parts: seq<string>): (r: seq<string>)
    ensures |r| == |parts| && forall i :: 0 <= i < |r| ==> r[i] == SanitizeComponent(parts[i])
  {
    if parts == [] then [] else [SanitizeComponent(parts[0])] + Sanitized(parts[1..])
  }

  function JoinPath(parts: seq<string>): string
  {
    if parts == [] then "" else if |parts| == 1 then parts[0] else parts[0] + "/" + JoinPath(parts[1..])
  }

  function OrUnknown(value: Option<string>): string
  {
    if value.Some? && value.value != "" then value.value else "unknown"
  }

  datatype Work = Work(studio: Option<string>, title: string, releaseDate: Option<string>, quality: Option<string>)

  function YearText(date: Option<string>): string
  {
    if date.Some? && date.value != ""
    then if |date.value| <= 4 then date.value else date.value[..4]
    else "unknown"
  }

  function ValuesOf(work: Work): Values
  {
    Values(
      SanitizeComponent(OrUnknown(work.studio)),
      SanitizeComponent(work.title),
      SanitizeComponent(YearText(work.releaseDate)),
      SanitizeComponent(OrUnknown(work.quality)))
  }

  /** `build_library_path`, as the parts of the path it returns. */
  function BuildLibraryPath(work: Work, suffix: string, layout: string): Result<seq<string>>
  {
    match Validated(layout)
    case Err => Err
    case Ok(atoms) =>
      var parts := Sanitized(Filter(Kept, Parts(Format(ValuesOf(work), atoms))));
      if parts == [] then Err
      else Ok(Parts(JoinPath(parts[..|parts| - 1] + [parts[|parts| - 1] + suffix])))
  }

  // ---- what the sanitizer guarantees ----

  /** Every run of `p` is one space already. */
  predicate Single(p: char -> bool, s: string)
  {
    forall i :: 0 <= i < |s| && p(s[i]) ==> s[i] == ' ' && (i + 1 < |s| ==> !p(s[i + 1]))
  }

  lemma {:induction false} SubRunsChars(p: char -> bool, s: string)
    ensures forall c :: c in SubRuns(p, s) ==> c == ' ' || (c in s && !p(c))
    decreases |s|
  {
    if s != "" {
      var n := if p(s[0]) then Span(p, s) else Span(Not(p), s);
      SubRunsChars(p, s[n..]);
    }
  }

  lemma SingleBehind(p: char -> bool, w: string, s: string)
    requires Single(p, s)
    requires All(Not(p), w) || (w == " " && p(' ') && (s != "" ==> !p(s[0])))
    ensures Single(p, w + s)
  {
  }

  lemma {:induction false} SubRunsSingle(p: char -> bool, s: string)
    requires p(' ')
    ensures Single(p, SubRuns(p, s))
    ensures s != "" && !p(s[0]) ==> SubRuns(p, s) != "" && SubRuns(p, s)[0] == s[0]
    decreases |s|
  {
    if s != "" {
      var n := if p(s[0]) then Span(p, s) else Span(Not(p), s);
      SubRunsSingle(p, s[n..]);
      SingleBehind(p, if p(s[0]) then " " else s[..n], SubRuns(p, s[n..]));
      hide Single;
      assert s[n..] == "" ==> SubRuns(p, s[n..]) == "";
    }
  }

  lemma {:induction false} SubRunsOfSingle(p: char -> bool, s: string)
    requires Single(p, s)
    ensures SubRuns(p, s) == s
    decreases |s|
  {
    if s == "" {
    } else if p(s[0]) {
      assert s == [s[0]] + s[1..];
      SpanConcat(p, [s[0]], s[1..]);
      SubRunsOfSingle(p, s[1..]);
    } else {
      var n := Span(Not(p), s);
      assert s == s[..n] + s[n..];
      SubRunsOfSingle(p, s[n..]);
    }
  }

  /** A name the sanitizer has nothing to do to. */
  predicate SafeName(name: string)
  {
    && name != ""
    && All(Not(IsInvalid), name)
    && Single(IsSpace, name)
    && !IsEdge(name[0]) && !IsEdge(name[|name| - 1])
  }

  lemma TrimIsSlice(p: char -> bool, s: string) returns (a: nat, b: nat)
    ensures a <= b <= |s| && Trim(p, s) == s[a..b]
  {
    a := Span(p, s);
    var left := s[a..];
    var t := TrimEnd(p, left);
    b := a + |t|;
    assert t == left[..|t|];
  }

  lemma SpacedIsPlain(value: string)
    ensures forall c :: c in SubRuns(IsSpace, SubRuns(IsInvalid, value)) ==> !IsInvalid(c)
    ensures Single(IsSpace, SubRuns(IsSpace, SubRuns(IsInvalid, value)))
  {
    hide SubRuns, Single, IsSpace;
    assert IsSpace(' ') by { SpaceIsSpace(); }
    SubRunsChars(IsInvalid, value);
    SubRunsChars(IsSpace, SubRuns(IsInvalid, value));
    SubRunsSingle(IsSpace, SubRuns(IsInvalid, value));
  }

  lemma SpaceIsSpace()
    ensures IsSpace(' ')
  {
  }

  lemma SafeSlice(s: string, a: nat, b: nat)
    requires a < b <= |s| && !IsEdge(s[a]) && !IsEdge(s[b - 1])
    requires (forall c :: c in s ==> !IsInvalid(c)) && Single(IsSpace, s)
    ensures SafeName(s[a..b])
  {
  }

  lemma CleanedIsSafe(value: string)
    ensures Cleaned(value) != "" ==> SafeName(Cleaned(value))
  {
    hide SubRuns, Single, SafeName, IsSpace;
    var spaced := SubRuns(IsSpace, SubRuns(IsInvalid, value));
    SpacedIsPlain(value);
    var a, b := TrimIsSlice(IsEdge, spaced);
    if a < b {
      assert spaced[a..b][0] == spaced[a] && spaced[a..b][b - a - 1] == spaced[b - 1];
      SafeSlice(spaced, a, b);
    }
  }

  lemma SafeIsClean(name: string)
    requires SafeName(name)
    ensures Cleaned(name) == name
  {
    SubRunsOfSingle(IsInvalid, name);
    SubRunsOfSingle(IsSpace, name);
    TrimPadded(IsEdge, "", name, "");
    assert "" + name + "" == name;
  }

  /** The sanitizer returns safe names, and leaves exactly the safe names alone. */
  lemma SanitizeComponentSafe(value: string)
    ensures SafeName(SanitizeComponent(value))
    ensures SanitizeComponent(value) == value <==> SafeName(value)
  {
    hide Cleaned, SafeName;
    CleanedIsSafe(value);
    LiteralNames();
    if SafeName(value) {
      SafeIsClean(value);
    }
  }

  lemma LiteralNames()
    ensures SafeName("unknown")
    ensures !SafeName("") && !SafeName(".") && !SafeName("..")
  {
    var name := "unknown";
    assert forall i :: 0 <= i < |name| ==> 'k' <= name[i] <= 'w';
    assert forall i :: 0 <= i < |name| ==> !IsInvalid(name[i]) && !IsSpace(name[i]);
  }

  lemma SanitizeTwice(value: string)
    ensures SanitizeComponent(SanitizeComponent(value)) == SanitizeComponent(value)
  {
    var name := SanitizeComponent(value);
    SanitizeComponentSafe(value);
    SanitizeComponentSafe(name);
    hide SanitizeComponent, SafeName;
    assert SafeName(name);
    assert SanitizeComponent(name) == name;
  }

  // ---- what the sanitizer keeps ----

  /** Not allowed in a name, or white space. */
  lemma InvalidIs(c: char)
    ensures IsInvalid(c) <==> c in "<>:\"/\\|?*" || c < ' '
  {
    assert forall k :: 0 <= k < 9 ==> IsInvalid("<>:\"/\\|?*"[k]);
  }

  lemma TwoCuts(s: string, k: nat, t: string)
    requires k <= |s| && t <= s[k..]
    ensures s == s[..k] + t + s[k..][|t|..]
  {
  }

  lemma TrimmedOff(p: char -> bool, s: string) returns (lead: string, trail: string)
    ensures s == lead + Trim(p, s) + trail && All(p, lead) && All(p, trail)
  {
    hide Span, TrimEnd, All;
    var k := Span(p, s);
    var t := TrimEnd(p, s[k..]);
    lead, trail := s[..k], s[k..][|t|..];
    TwoCuts(s, k, t);
  }

  lemma AllConcat(p: char -> bool, a: string, b: string)
    requires All(p, a) && All(p, b)
    ensures All(p, a + b)
  {
  }

  lemma FiveParts(a: string, b: string, c: string, d: string, e: string)
    ensures a + (b + c + d) + e == (a + b) + c + (d + e)
  {
  }

  lemma TrimMore(p: char -> bool, lead: string, s: string, trail: string)
    requires All(p, lead) && All(p, trail)
    ensures Trim(p, lead + s + trail) == Trim(p, s)
  {
    hide Trim, All;
    var a, b := TrimmedOff(p, s);
    AllConcat(p, lead, a);
    AllConcat(p, b, trail);
    FiveParts(lead, a, Trim(p, s), b, trail);
    TrimPadded(p, lead + a, Trim(p, s), b + trail);
  }

  lemma EdgeIs(c: char)
    ensures IsEdge(c) <==> c in " ."
  {
  }

  /** What remains are the runs of allowed characters, one space apart, less the dots and spaces at either end. */
  lemma CleanedIs(value: string) returns (lead: string, trail: string)
    ensures Join(Words(Or(IsInvalid, IsSpace), value)) == lead + Cleaned(value) + trail
    ensures forall c :: c in lead + trail ==> c in " ."
    ensures Cleaned(value) != "" ==> Cleaned(value)[0] !in " ." && Cleaned(value)[|Cleaned(value)| - 1] !in " ."
  {
    hide SubRuns, Words, Join, IsSpace, IsInvalid, IsEdge, Trim;
    var words := Words(Or(IsInvalid, IsSpace), value);
    SpaceIsSpace();
    forall c ensures IsEdge(c) <==> c in " ." { EdgeIs(c); }
    WordsOfSubRuns(IsInvalid, IsSpace, value);
    var l, t := SubRunsShape(IsSpace, SubRuns(IsInvalid, value));
    TrimMore(IsEdge, l, Join(words), t);
    lead, trail := TrimmedOff(IsEdge, Join(words));
  }

  /** The sanitizer keeps exactly that, and says "unknown" where nothing remains. */
  lemma SanitizedIs(value: string) returns (lead: string, kept: string, trail: string)
    ensures Join(Words(Or(IsInvalid, IsSpace), value)) == lead + kept + trail
    ensures forall c :: c in lead + trail ==> c in " ."
    ensures kept != "" ==> kept[0] !in " ." && kept[|kept| - 1] !in " ."
    ensures SanitizeComponent(value) == if kept == "" then "unknown" else kept
  {
    lead, trail := CleanedIs(value);
    kept := Cleaned(value);
    hide Cleaned, Words, Join;
  }

  // ---- how a layout is spelled ----

  /** A brace is doubled, any other character is itself, and a field stands in braces, perhaps before an empty format. */
  predicate SpellsOne(text: string, atom: Atom)
  {
    match atom
    case Literal(c) => text == (if c == '{' then "{{" else if c == '}' then "}}" else [c])
    case Field(token) =>
      token in {"quality", "studio", "title", "year"} && (text == "{" + token + "}" || text == "{" + token + ":}")
  }

  ghost predicate Spells(layout: string, atoms: seq<Atom>)
    decreases |atoms|
  {
    if atoms == [] then layout == ""
    else exists n: nat :: n <= |layout| && SpellsOne(layout[..n], atoms[0]) && Spells(layout[n..], atoms[1..])
  }

  lemma TokensAre(token: string)
    ensures token in TOKENS <==> token in {"quality", "studio", "title", "year"}
    ensures token in TOKENS ==> token != "" && All(NotClosing, token) && token[|token| - 1] != ':' && token[0] != '{'
  {
  }

  /** One atom, and what is behind it. */
  lemma ParsesOne(layout: string, n: nat, atom: Atom)
    requires n <= |layout| && SpellsOne(layout[..n], atom)
    ensures ParseLayout(layout) == Before(atom, ParseLayout(layout[n..])) && n > 0
  {
    match atom
    case Literal(c) => ParsesLiteral(layout, n, c);
    case Field(token) => ParsesField(layout, n, token);
  }

  lemma ParsesLiteral(layout: string, n: nat, c: char)
    requires n <= |layout| && SpellsOne(layout[..n], Literal(c))
    ensures ParseLayout(layout) == Before(Literal(c), ParseLayout(layout[n..])) && n > 0
  {
    hide Span, TOKENS;
    assert layout[..n][0] == layout[0];
    if c == '{' || c == '}' { assert layout[..n][1] == layout[1]; }
  }

  lemma ParsesField(layout: string, n: nat, token: string)
    requires n <= |layout| && SpellsOne(layout[..n], Field(token))
    ensures ParseLayout(layout) == Before(Field(token), ParseLayout(layout[n..])) && n > 0
  {
    hide ParseLayout, Span, TOKENS, All;
    TokensAre(token);
    if layout[..n] == "{" + token + "}" {
      FieldEnds(layout, n, token);
      ReadsField(layout, token);
    } else {
      assert "{" + token + ":}" == "{" + (token + ":") + "}";
      NoneCloses(token);
      FieldEnds(layout, n, token + ":");
      TokensAre(token + ":");
      ReadsColon(layout, token);
    }
  }

  lemma NoneCloses(token: string)
    requires All(NotClosing, token)
    ensures All(NotClosing, token + ":")
  {
  }

  /** The field read is what stands between the braces. */
  lemma FieldEnds(layout: string, n: nat, field: string)
    requires n <= |layout| && layout[..n] == "{" + field + "}" && All(NotClosing, field) && field != ""
    ensures |layout| > 1 && layout[0] == '{' && layout[1] == field[0]
    ensures Span(NotClosing, layout[1..]) == |field| && layout[1..][..|field|] == field && n == |field| + 2
  {
    hide Span;
    assert layout == layout[..n] + layout[n..];
    assert layout[1..] == field + ("}" + layout[n..]);
    SpanConcat(NotClosing, field, "}" + layout[n..]);
  }

  lemma ReadsField(layout: string, token: string)
    requires |layout| > 1 && layout[0] == '{' && layout[1] != '{' && token in TOKENS
    requires Span(NotClosing, layout[1..]) == |token| && layout[1..][..|token|] == token && |token| + 2 <= |layout|
    ensures ParseLayout(layout) == Before(Field(token), ParseLayout(layout[|token| + 2..]))
  {
    hide Span, TOKENS;
  }

  lemma ReadsColon(layout: string, token: string)
    requires |layout| > 1 && layout[0] == '{' && layout[1] != '{' && token in TOKENS && token + ":" !in TOKENS
    requires Span(NotClosing, layout[1..]) == |token| + 1 && layout[1..][..|token| + 1] == token + ":" && |token| + 3 <= |layout|
    ensures ParseLayout(layout) == Before(Field(token), ParseLayout(layout[|token| + 3..]))
  {
    hide Span, TOKENS;
    assert (token + ":")[..|token|] == token && (token + ":")[|token|] == ':';
  }

  /** What was parsed first, and how it was spelled. */
  lemma ParsedOne(layout: string) returns (n: nat)
    requires layout != "" && ParseLayout(layout).Ok?
    ensures n <= |layout| && ParseLayout(layout).value != [] && SpellsOne(layout[..n], ParseLayout(layout).value[0])
    ensures n > 0 && ParseLayout(layout[n..]) == Ok(ParseLayout(layout).value[1..])
  {
    if layout[0] == '{' && !(|layout| > 1 && layout[1] == '{') {
      var k := Span(NotClosing, layout[1..]);
      var field := layout[1..][..k];
      n := k + 2;
      TokensAre(field);
      assert layout[..n] == "{" + field + "}";
      if field !in TOKENS {
        TokensAre(field[..|field| - 1]);
        assert field == field[..|field| - 1] + ":";
        assert layout[..n] == "{" + field[..|field| - 1] + ":}";
      }
    } else {
      n := if layout[0] == '{' || layout[0] == '}' then 2 else 1;
      if n == 1 { assert layout[..1] == [layout[0]]; } else { assert layout[..2] == [layout[0], layout[1]]; }
    }
  }

  /** A layout is read as the atoms it spells, and refused if it spells none. */
  lemma {:induction false} ParsesIff(layout: string, atoms: seq<Atom>)
    ensures ParseLayout(layout) == Ok(atoms) <==> Spells(layout, atoms)
    decreases |layout|
  {
    hide ParseLayout, SpellsOne;
    if ParseLayout(layout) == Ok(atoms) {
      if layout == "" {
        assert atoms == [] by { ParsesNothing(); }
      } else {
        var n := ParsedOne(layout);
        ParsesIff(layout[n..], atoms[1..]);
      }
    }
    if Spells(layout, atoms) {
      if atoms == [] {
        ParsesNothing();
      } else {
        var n: nat :| n <= |layout| && SpellsOne(layout[..n], atoms[0]) && Spells(layout[n..], atoms[1..]);
        ParsesOne(layout, n, atoms[0]);
        ParsesIff(layout[n..], atoms[1..]);
        assert [atoms[0]] + atoms[1..] == atoms;
      }
    }
  }

  lemma ParsesNothing()
    ensures ParseLayout("") == Ok([])
  {
  }

  /** A layout is accepted exactly if it is relative and spells something. */
  lemma ValidatedIff(layout: string, atoms: seq<Atom>)
    ensures Validated(layout) == Ok(atoms) <==> layout != "" && layout[0] != '/' && Spells(layout, atoms)
  {
    ParsesIff(layout, atoms);
    hide ParseLayout, Spells;
  }

  /** What is filled in for each field. */
  lemma FieldShows(work: Work)
    ensures Shown(ValuesOf(work), Field("title")) == SanitizeComponent(work.title)
    ensures Shown(ValuesOf(work), Field("studio"))
         == SanitizeComponent(if work.studio in {None, Some("")} then "unknown" else work.studio.value)
    ensures Shown(ValuesOf(work), Field("quality"))
         == SanitizeComponent(if work.quality in {None, Some("")} then "unknown" else work.quality.value)
    ensures Shown(ValuesOf(work), Field("year"))
         == SanitizeComponent(if work.releaseDate in {None, Some("")} then "unknown"
                              else if |work.releaseDate.value| > 4 then work.releaseDate.value[..4]
                              else work.releaseDate.value)
  {
    hide SanitizeComponent;
  }

  // ---- what a layout is made of ----

  /** The atoms between slashes. */
  function Components(atoms: seq<Atom>): (r: seq<seq<Atom>>)
    ensures r != []
  {
    if atoms == [] then [[]]
    else
      var rest := Components(atoms[1..]);
      if atoms[0] == Literal('/') then [[]] + rest else [[atoms[0]] + rest[0]] + rest[1..]
  }

  function FormatAll(values: Values, components: seq<seq<Atom>>): (r: seq<string>)
    ensures |r| == |components|
    ensures forall i :: 0 <= i < |r| ==> r[i] == Format(values, components[i])
  {
    if components == [] then [] else [Format(values, components[0])] + FormatAll(values, components[1..])
  }

  /** A component that is a directory or file name whatever the values: it has a field, or says more than dots. */
  predicate Standing(component: seq<Atom>)
  {
    || (exists i :: 0 <= i < |component| && component[i].Field?)
    || (component != [] && component != [Literal('.')] && component != [Literal('.'), Literal('.')])
  }

  function StandingIn(components: seq<seq<Atom>>): seq<seq<Atom>>
  {
    if components == [] then []
    else (if Standing(components[0]) then [components[0]] else []) + StandingIn(components[1..])
  }

  ghost predicate SafeValues(values: Values)
  {
    forall token :: SafeName(ValueOf(values, token))
  }

  lemma ValuesAreSafe(work: Work)
    ensures SafeValues(ValuesOf(work))
  {
    SanitizeComponentSafe(OrUnknown(work.studio));
    SanitizeComponentSafe(work.title);
    SanitizeComponentSafe(YearText(work.releaseDate));
    SanitizeComponentSafe(OrUnknown(work.quality));
    hide SafeName, SanitizeComponent;
  }

  lemma {:induction false} SplitBehind(v: string, s: string)
    requires '/' !in v
    ensures Split(v + s) == [v + Split(s)[0]] + Split(s)[1..]
  {
    if v == "" {
      assert v + s == s && "" + Split(s)[0] == Split(s)[0];
    } else {
      assert (v + s)[1..] == v[1..] + s;
      SplitBehind(v[1..], s);
      assert [v[0]] + (v[1..] + Split(s)[0]) == v + Split(s)[0];
    }
  }

  lemma NoSlash(name: string)
    requires SafeName(name)
    ensures '/' !in name
  {
    hide IsSpace;
    forall i | 0 <= i < |name| ensures name[i] != '/' {
      assert !IsInvalid(name[i]);
    }
  }

  /** Formatting and splitting commute: no value brings a slash. */
  lemma {:induction false} SplitFormat(values: Values, atoms: seq<Atom>)
    requires SafeValues(values)
    ensures Split(Format(values, atoms)) == FormatAll(values, Components(atoms))
    decreases |atoms|
  {
    if atoms != [] {
      var first, rest := Shown(values, atoms[0]), Format(values, atoms[1..]);
      var components := Components(atoms[1..]);
      SplitFormat(values, atoms[1..]);
      if atoms[0] == Literal('/') {
        assert (first + rest)[1..] == rest;
      } else {
        if atoms[0].Field? { NoSlash(first); }
        SplitBehind(first, rest);
        var joined := [atoms[0]] + components[0];
        assert joined[1..] == components[0];
        assert ([joined] + components[1..])[1..] == components[1..];
      }
    }
  }

  lemma {:induction false} NoSlashInside(atoms: seq<Atom>)
    ensures forall k :: 0 <= k < |Components(atoms)| ==> Literal('/') !in Components(atoms)[k]
    decreases |atoms|
  {
    if atoms != [] { NoSlashInside(atoms[1..]); }
  }

  lemma {:induction false} FormatHas(values: Values, atoms: seq<Atom>, i: nat, c: char)
    requires i < |atoms| && c in Shown(values, atoms[i])
    ensures c in Format(values, atoms)
    decreases |atoms|
  {
    if i > 0 { FormatHas(values, atoms[1..], i - 1, c); }
  }

  lemma {:induction false} FormatLacks(values: Values, atoms: seq<Atom>)
    requires SafeValues(values) && Literal('/') !in atoms
    ensures '/' !in Format(values, atoms)
    decreases |atoms|
  {
    if atoms != [] {
      FormatLacks(values, atoms[1..]);
      if atoms[0].Field? { NoSlash(Shown(values, atoms[0])); }
    }
  }

  lemma {:induction false} FormatLiterals(values: Values, atoms: seq<Atom>)
    requires forall i :: 0 <= i < |atoms| ==> atoms[i].Literal?
    ensures |Format(values, atoms)| == |atoms|
    ensures forall i :: 0 <= i < |atoms| ==> atoms[i] == Literal(Format(values, atoms)[i])
    decreases |atoms|
  {
    if atoms != [] { FormatLiterals(values, atoms[1..]); }
  }

  /** Whether a component survives the path parser and the filter is up to the layout. */
  lemma KeptIffStanding(values: Values, component: seq<Atom>)
    requires SafeValues(values) && Literal('/') !in component
    ensures IsPart(Format(values, component)) && Kept(Format(values, component)) <==> Standing(component)
  {
    var text := Format(values, component);
    assert text == "/" ==> text[0] in text;
    FormatLacks(values, component);
    if i :| 0 <= i < |component| && component[i].Field? {
      var value := Shown(values, component[i]);
      assert SafeName(value) && value[0] in value && value[0] != '.';
      FormatHas(values, component, i, value[0]);
    } else {
      FormatLiterals(values, component);
      assert text == "." <==> component == [Literal('.')];
      assert text == ".." <==> component == [Literal('.'), Literal('.')];
    }
  }

  lemma FilterFirst(keep: string -> bool, first: string, rest: seq<string>)
    ensures Filter(keep, [first] + rest) == if keep(first) then [first] + Filter(keep, rest) else Filter(keep, rest)
  {
  }

  lemma {:induction false} FilterFormat(values: Values, components: seq<seq<Atom>>)
    requires SafeValues(values)
    requires forall k :: 0 <= k < |components| ==> Literal('/') !in components[k]
    ensures Filter(Kept, Filter(IsPart, FormatAll(values, components))) == FormatAll(values, StandingIn(components))
    decreases |components|
  {
    if components != [] {
      var first, rest := Format(values, components[0]), FormatAll(values, components[1..]);
      KeptIffStanding(values, components[0]);
      FilterFormat(values, components[1..]);
      hide IsPart, Kept, Standing, Format;
      FilterFirst(IsPart, first, rest);
      FilterFirst(Kept, first, Filter(IsPart, rest));
      assert StandingIn(components) == if Standing(components[0]) then [components[0]] + StandingIn(components[1..]) else StandingIn(components[1..]);
    }
  }

  lemma FirstAtom(layout: string)
    requires Validated(layout).Ok?
    ensures Validated(layout).value != [] && Validated(layout).value[0] != Literal('/')
  {
  }

  /** The path starts with neither a slash nor, therefore, a root. */
  lemma FormatIsRelative(values: Values, atoms: seq<Atom>)
    requires SafeValues(values) && atoms != [] && atoms[0] != Literal('/')
    ensures Parts(Format(values, atoms)) == Filter(IsPart, Split(Format(values, atoms)))
  {
    var first := Shown(values, atoms[0]);
    if atoms[0].Field? {
      assert SafeName(first);
      NoSlash(first);
      assert first[0] in first;
    }
    assert Format(values, atoms)[0] == first[0] != '/';
  }

  // ---- what the path is ----

  lemma {:induction false} SplitJoined(parts: seq<string>)
    requires parts != [] && forall i :: 0 <= i < |parts| ==> '/' !in parts[i]
    ensures Split(JoinPath(parts)) == parts
    decreases |parts|
  {
    if |parts| == 1 {
      SplitBehind(parts[0], "");
      assert parts[0] + "" == parts[0];
    } else {
      var rest := JoinPath(parts[1..]);
      SplitJoined(parts[1..]);
      SplitBehind(parts[0], "/" + rest);
      assert ("/" + rest)[1..] == rest;
      assert JoinPath(parts) == parts[0] + ("/" + rest);
      assert parts[0] + "" == parts[0];
    }
  }

  lemma {:induction false} FilterAll(keep: string -> bool, parts: seq<string>)
    requires forall i :: 0 <= i < |parts| ==> keep(parts[i])
    ensures Filter(keep, parts) == parts
    decreases |parts|
  {
    if parts != [] { FilterAll(keep, parts[1..]); }
  }

  /** One name in a path: not empty, no slash, not hidden, and so neither "." nor "..". */
  predicate PathPart(part: string)
  {
    part != "" && part[0] != '.' && '/' !in part
  }

  lemma PartsJoined(parts: seq<string>)
    requires parts != [] && forall i :: 0 <= i < |parts| ==> PathPart(parts[i])
    ensures Parts(JoinPath(parts)) == parts
  {
    SplitJoined(parts);
    FilterAll(IsPart, parts);
    var text := JoinPath(parts);
    assert text[0] == parts[0][0] && parts[0][0] in parts[0];
  }

  /** The names of the path but for the suffix, whatever values are filled in. */
  function Names(values: Values, atoms: seq<Atom>): seq<string>
  {
    Sanitized(FormatAll(values, StandingIn(Components(atoms))))
  }

  function WithSuffix(names: seq<string>, suffix: string): seq<string>
    requires names != []
  {
    names[..|names| - 1] + [names[|names| - 1] + suffix]
  }

  lemma NamesAreSafe(values: Values, atoms: seq<Atom>)
    ensures forall i :: 0 <= i < |Names(values, atoms)| ==> SafeName(Names(values, atoms)[i])
  {
    hide SafeName, SanitizeComponent;
    var formatted := FormatAll(values, StandingIn(Components(atoms)));
    forall i | 0 <= i < |formatted| ensures SafeName(Names(values, atoms)[i]) {
      SanitizeComponentSafe(formatted[i]);
    }
  }

  lemma SuffixedParts(names: seq<string>, suffix: string)
    requires names != [] && '/' !in suffix && forall i :: 0 <= i < |names| ==> SafeName(names[i])
    ensures forall i :: 0 <= i < |WithSuffix(names, suffix)| ==> PathPart(WithSuffix(names, suffix)[i])
  {
    forall i | 0 <= i < |names| ensures PathPart(WithSuffix(names, suffix)[i]) {
      assert SafeName(names[i]);
      NoSlash(names[i]);
    }
  }

  /** With a suffix as `Path.suffix` gives it, the path is the standing components of the layout, sanitized. */
  lemma PathIs(work: Work, suffix: string, layout: string)
    requires '/' !in suffix
    ensures BuildLibraryPath(work, suffix, layout)
         == if Validated(layout).Err? || StandingIn(Components(Validated(layout).value)) == [] then Err
            else Ok(WithSuffix(Names(ValuesOf(work), Validated(layout).value), suffix))
  {
    if Validated(layout).Ok? {
      var atoms, values := Validated(layout).value, ValuesOf(work);
      FirstAtom(layout);
      ValuesAreSafe(work);
      hide Validated, ValuesOf;
      SplitFormat(values, atoms);
      NoSlashInside(atoms);
      FilterFormat(values, Components(atoms));
      FormatIsRelative(values, atoms);
      hide SafeValues, Format, Parts, Filter, Components, Standing, SafeName;
      var names := Names(values, atoms);
      if names != [] {
        NamesAreSafe(values, atoms);
        SuffixedParts(names, suffix);
        PartsJoined(WithSuffix(names, suffix));
      }
    }
  }

  /** Every name of the path is fit to be one: the path stays below the library root. */
  lemma PathStaysInside(work: Work, suffix: string, layout: string)
    requires '/' !in suffix && BuildLibraryPath(work, suffix, layout).Ok?
    ensures var parts := BuildLibraryPath(work, suffix, layout).value;
      parts != [] && forall i :: 0 <= i < |parts| ==> PathPart(parts[i])
  {
    PathIs(work, suffix, layout);
    var names := Names(ValuesOf(work), Validated(layout).value);
    NamesAreSafe(ValuesOf(work), Validated(layout).value);
    hide Names, SafeName, BuildLibraryPath;
    SuffixedParts(names, suffix);
  }

  /** Whether there is a path, and how deep it is, the layout decides alone. */
  lemma DepthIsTheLayouts(one: Work, other: Work, suffix1: string, suffix2: string, layout: string)
    requires '/' !in suffix1 && '/' !in suffix2
    ensures BuildLibraryPath(one, suffix1, layout).Ok? <==> BuildLibraryPath(other, suffix2, layout).Ok?
    ensures BuildLibraryPath(one, suffix1, layout).Ok? ==>
      |BuildLibraryPath(one, suffix1, layout).value| == |BuildLibraryPath(other, suffix2, layout).value|
  {
    PathIs(one, suffix1, layout);
    PathIs(other, suffix2, layout);
    hide BuildLibraryPath, Validated, Components, Standing;
  }
}
