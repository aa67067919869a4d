/** Content filters: which rules match, which of them decides, and what spelling cannot change. */
module Filters {

  import opened Sequences
  import opened Optional
  import opened Text

  datatype Kind = Term | Tag | Performer | MinimumConfidence | UnknownPerformerAge | UnknownFileType

  datatype Action = Allow | Quarantine | Reject

  datatype Candidate = Candidate(
    title: string,
    description: string,
    tags: set<string>,
    performers: set<string>,
    metadataConfidence: real,
    unknownPerformerAge: bool,
    fileType: Option<string>)

  datatype Rule = Rule(id: string, kind: Kind, pattern: string, action: Action, enabled: bool)

  datatype Decision = Decision(action: Action, rule: Option<Rule>, matched: seq<Rule>)

  /** `confidence < float(pattern)`, false for a pattern that is no number. */
  type Below = (real, string) -> bool

  function Priority(action: Action): nat
  {
    match action
    case Allow => 0
    case Quarantine => 1
    case Reject => 2
  }

  // ---- matching ----

  predicate NotWordChar(c: char)
  {
    !('0' <= c <= '9' || 'a' <= c <= 'z')
  }

  /** `_folded`. */
  function Folded(value: string): string
  {
    Trim(IsSpace, SubRuns(NotWordChar, Casefold(value)))
  }

  predicate StandsAt(text: string, term: string, i: nat)
  {
    i + |term| <= |text| && text[i..i + |term|] == term
  }

  /** Python's `in` on strings. */
  predicate Contains(text: string, term: string)
  {
    exists i: nat :: i <= |text| && StandsAt(text, term, i)
  }

  predicate Matches(rule: Rule, candidate: Candidate, below: Below)
  {
    rule.enabled &&
    var pattern := Casefold(rule.pattern);
    match rule.kind
    case Term =>
      var term := Folded(pattern);
      term != "" && (Contains(Folded(candidate.title), term) || Contains(Folded(candidate.description), term))
    case Tag => pattern != "" && exists tag :: tag in candidate.tags && pattern == Casefold(tag)
    case Performer => pattern != "" && exists name :: name in candidate.performers && pattern == Casefold(name)
    case MinimumConfidence => below(candidate.metadataConfidence, rule.pattern)
    case UnknownPerformerAge => candidate.unknownPerformerAge
    case UnknownFileType => candidate.fileType.None?
  }

  /** Separators are what is neither a digit nor a small letter. */
  lemma WordChars(c: char)
    ensures NotWordChar(c) <==> c !in "0123456789" && c !in LOWER
  {
    DigitIs(c);
    SmallLetterIs(c);
    hide LOWER;
  }

  /** The folded term stands somewhere in the folded text. */
  ghost predicate Mentions(text: string, term: string)
  {
    exists before, after :: Folded(text) == before + Folded(term) + after
  }

  ghost predicate Has(names: set<string>, pattern: string)
  {
    pattern != "" && exists name :: name in names && Casefold(name) == Casefold(pattern)
  }

  /** What each kind of rule looks at. */
  ghost predicate Hits(rule: Rule, candidate: Candidate, below: Below)
  {
    && rule.enabled
    && (rule.kind == Term ==>
         WordsOf(rule.pattern) != [] && (Mentions(candidate.description, rule.pattern) || Mentions(candidate.title, rule.pattern)))
    && (rule.kind == Tag ==> Has(candidate.tags, rule.pattern))
    && (rule.kind == Performer ==> Has(candidate.performers, rule.pattern))
    && (rule.kind == MinimumConfidence ==> below(candidate.metadataConfidence, rule.pattern))
    && (rule.kind == UnknownPerformerAge ==> candidate.unknownPerformerAge)
    && (rule.kind == UnknownFileType ==> candidate.fileType == None)
  }

  lemma ContainsIsMentions(text: string, term: string)
    ensures Contains(Folded(text), Folded(term)) <==> Mentions(text, term)
  {
    hide Folded;
    var t, f := Folded(text), Folded(term);
    if i: nat :| i <= |t| && StandsAt(t, f, i) {
      assert t == t[..i] + f + t[i + |f|..];
    }
    if before, after :| t == before + f + after {
      assert StandsAt(t, f, |before|);
    }
  }

  lemma SomeWord(value: string)
    ensures WordsOf(value) == [] <==> Folded(value) == ""
  {
    FoldedIsWords(value);
    WordsAreWords(NotWordChar, Casefold(value));
    JoinWords(NotWordChar, WordsOf(value));
  }

  lemma FoldedBefore(value: string)
    ensures Folded(Casefold(value)) == Folded(value)
  {
    CasefoldTwice(value);
  }

  lemma NoPattern(value: string)
    ensures Casefold(value) == "" <==> value == ""
  {
  }

  /** A rule matches exactly what it hits. */
  lemma MatchesIff(rule: Rule, candidate: Candidate, below: Below)
    ensures Matches(rule, candidate, below) <==> Hits(rule, candidate, below)
  {
    hide Folded, Contains, Mentions, WordsOf, Casefold;
    FoldedBefore(rule.pattern);
    NoPattern(rule.pattern);
    ContainsIsMentions(candidate.title, rule.pattern);
    ContainsIsMentions(candidate.description, rule.pattern);
    SomeWord(rule.pattern);
  }

  // ---- deciding ----

  function Enabled(rules: seq<Rule>): seq<Rule>
  {
    if rules == [] then [] else (if rules[0].enabled then [rules[0]] else []) + Enabled(rules[1..])
  }

  function ResolveRules(globals: seq<Rule>, users: seq<Rule>): seq<Rule>
  {
    Enabled(globals + users)
  }

  function Matching(rules: seq<Rule>, candidate: Candidate, below: Below): seq<Rule>
  {
    if rules == [] then []
    else (if Matches(rules[0], candidate, below) then [rules[0]] else []) + Matching(rules[1..], candidate, below)
  }

  /** `max` by priority, which keeps the first of equals. */
  function Strictest(rules: seq<Rule>): Rule
    requires rules != []
  {
    if |rules| == 1 then rules[0]
    else
      var rest := Strictest(rules[1..]);
      if Priority(rules[0].action) >= Priority(rest.action) then rules[0] else rest
  }

  function EvaluateFilters(candidate: Candidate, rules: seq<Rule>, below: Below): Decision
  {
    var matched := Matching(rules, candidate, below);
    if matched == [] then Decision(Allow, None, [])
    else Decision(Strictest(matched).action, Some(Strictest(matched)), matched)
  }

  // ---- the decision ----

  lemma {:induction false} MatchingAre(rules: seq<Rule>, candidate: Candidate, below: Below)
    ensures forall r :: r in Matching(rules, candidate, below) <==> (r in rules && Matches(r, candidate, below))
    decreases |rules|
  {
    hide Matches;
    if rules != [] { MatchingAre(rules[1..], candidate, below); }
  }

  /** First of the highest: nothing is stricter, and nothing before it is as strict. */
  lemma {:induction false} StrictestIs(rules: seq<Rule>) returns (k: nat)
    requires rules != []
    ensures k < |rules| && Strictest(rules) == rules[k]
    ensures forall j :: 0 <= j < |rules| ==> Priority(rules[j].action) <= Priority(rules[k].action)
    ensures forall j :: 0 <= j < k ==> Priority(rules[j].action) < Priority(rules[k].action)
    decreases |rules|
  {
    hide Priority;
    if |rules| == 1 {
      k := 0;
    } else {
      k := StrictestIs(rules[1..]);
      k := if Priority(rules[0].action) >= Priority(rules[1..][k].action) then 0 else k + 1;
    }
  }

  /** The rule is listed, and none before it asks for the same. */
  ghost predicate FirstOf(rules: seq<Rule>, rule: Rule)
  {
    exists k :: 0 <= k < |rules| && rules[k] == rule && forall j :: 0 <= j < k ==> rules[j].action != rule.action
  }

  /** The action is that of some matching rule and the highest there is; without one, `Allow`. */
  lemma DecisionIsMaximum(candidate: Candidate, rules: seq<Rule>, below: Below)
    ensures var d := EvaluateFilters(candidate, rules, below);
      && (forall r :: r in d.matched <==> (r in rules && Hits(r, candidate, below)))
      && (d.rule.None? <==> forall r :: r in rules ==> !Hits(r, candidate, below))
      && (d.rule.None? ==> d.action == Allow)
      && (d.rule.Some? ==> d.action == d.rule.value.action && FirstOf(d.matched, d.rule.value))
      && (d.action == Reject <==> exists r :: r in d.matched && r.action == Reject)
      && (d.action == Allow <==> forall r :: r in d.matched ==> r.action == Allow)
  {
    forall r ensures Matches(r, candidate, below) <==> Hits(r, candidate, below) { MatchesIff(r, candidate, below); }
    hide Matches, Hits;
    MatchingAre(rules, candidate, below);
    var matched := Matching(rules, candidate, below);
    if matched == [] {
      forall r | r in rules ensures !Matches(r, candidate, below) { assert r !in matched; }
    } else {
      var k := StrictestIs(matched);
      assert matched[0] in matched && matched[k] in matched;
      assert forall r :: r in matched ==> Priority(r.action) <= Priority(matched[k].action);
    }
  }

  lemma EnabledFirst(first: Rule, rest: seq<Rule>)
    ensures Enabled([first] + rest) == (if first.enabled then [first] else []) + Enabled(rest)
    ensures Enabled([]) == []
  {
  }

  lemma {:induction false} EnabledConcat(a: seq<Rule>, b: seq<Rule>)
    ensures Enabled(a + b) == Enabled(a) + Enabled(b)
    decreases |a|
  {
    hide Enabled;
    if a == [] {
      EnabledFirst(Rule("", Term, "", Allow, false), b);
      assert a + b == b;
    } else {
      var first, rest := a[0], a[1..];
      EnabledConcat(rest, b);
      EnabledFirst(first, rest + b);
      EnabledFirst(first, rest);
      assert a == [first] + rest;
      Regroup([first], rest, b);
      Regroup(if first.enabled then [first] else [], Enabled(rest), Enabled(b));
    }
  }

  lemma MatchingFirst(first: Rule, rest: seq<Rule>, candidate: Candidate, below: Below)
    ensures Matching([first] + rest, candidate, below)
         == (if Matches(first, candidate, below) then [first] else []) + Matching(rest, candidate, below)
    ensures Matching([], candidate, below) == []
  {
  }

  lemma {:induction false} MatchingConcat(a: seq<Rule>, b: seq<Rule>, candidate: Candidate, below: Below)
    ensures Matching(a + b, candidate, below) == Matching(a, candidate, below) + Matching(b, candidate, below)
    decreases |a|
  {
    hide Matching, Matches;
    if a == [] {
      MatchingFirst(Rule("", Term, "", Allow, false), b, candidate, below);
      assert a + b == b;
    } else {
      var first, rest := a[0], a[1..];
      MatchingConcat(rest, b, candidate, below);
      MatchingFirst(first, rest + b, candidate, below);
      MatchingFirst(first, rest, candidate, below);
      assert a == [first] + rest;
      Regroup([first], rest, b);
      Regroup(if Matches(first, candidate, below) then [first] else [],
              Matching(rest, candidate, below), Matching(b, candidate, below));
    }
  }

  lemma {:induction false} StrictestConcat(a: seq<Rule>, b: seq<Rule>)
    requires a != [] && b != []
    ensures Strictest(a + b)
         == if Priority(Strictest(a).action) >= Priority(Strictest(b).action) then Strictest(a) else Strictest(b)
    decreases |a|
  {
    assert (a + b)[1..] == a[1..] + b;
    if |a| == 1 {
      assert a[1..] + b == b;
    } else {
      StrictestConcat(a[1..], b);
    }
  }

  /** The stricter of two decisions; of equals the first, and no rule at all yields to any. */
  function Stricter(global: Decision, user: Decision): Decision
  {
    if global.rule.None? || (user.rule.Some? && Priority(user.action) > Priority(global.action))
    then user.(matched := global.matched + user.matched)
    else global.(matched := global.matched + user.matched)
  }

  /** Global and user rules together decide as the stricter of the two sets, a global rule winning ties. */
  lemma RulesCombine(candidate: Candidate, globals: seq<Rule>, users: seq<Rule>, below: Below)
    ensures EvaluateFilters(candidate, ResolveRules(globals, users), below)
         == Stricter(EvaluateFilters(candidate, ResolveRules(globals, []), below),
                     EvaluateFilters(candidate, ResolveRules([], users), below))
  {
    assert globals + [] == globals && [] + users == users;
    EnabledConcat(globals, users);
    MatchingConcat(Enabled(globals), Enabled(users), candidate, below);
    hide Enabled, Matching, Strictest;
    var g, u := Matching(Enabled(globals), candidate, below), Matching(Enabled(users), candidate, below);
    assert g == [] ==> g + u == u;
    assert u == [] ==> g + u == g;
    if g != [] && u != [] {
      StrictestConcat(g, u);
    }
  }

  /** A user's own rules never loosen what the global rules decided. */
  lemma UserNeverLoosens(candidate: Candidate, globals: seq<Rule>, users: seq<Rule>, below: Below)
    ensures Priority(EvaluateFilters(candidate, ResolveRules(globals, users), below).action)
         >= Priority(EvaluateFilters(candidate, ResolveRules(globals, []), below).action)
    ensures EvaluateFilters(candidate, ResolveRules(globals, users), below).action
         == if Priority(EvaluateFilters(candidate, ResolveRules(globals, []), below).action)
               >= Priority(EvaluateFilters(candidate, ResolveRules([], users), below).action)
            then EvaluateFilters(candidate, ResolveRules(globals, []), below).action
            else EvaluateFilters(candidate, ResolveRules([], users), below).action
  {
    RulesCombine(candidate, globals, users, below);
    DecisionIsMaximum(candidate, ResolveRules(globals, []), below);
    DecisionIsMaximum(candidate, ResolveRules([], users), below);
    hide EvaluateFilters, ResolveRules, Matches;
    assert forall a: Action, b: Action :: Priority(a) == Priority(b) ==> a == b;
  }

  // ---- spelling ----

  function WordsOf(value: string): seq<string>
  {
    Words(NotWordChar, Casefold(value))
  }

  /** Folding keeps the words, lower-cased, one space apart, and nothing else. */
  lemma FoldedIsWords(value: string)
    ensures Folded(value) == Join(WordsOf(value))
  {
    FoldedIsJoined(NotWordChar, IsSpace, Casefold(value));
  }

  /** Two texts fold alike exactly when their words are the same. */
  lemma FoldedAlikeIff(a: string, b: string)
    ensures Folded(a) == Folded(b) <==> WordsOf(a) == WordsOf(b)
  {
    FoldedIsWords(a);
    FoldedIsWords(b);
    WordsAreWords(NotWordChar, Casefold(a));
    WordsAreWords(NotWordChar, Casefold(b));
    JoinWords(NotWordChar, WordsOf(a));
    JoinWords(NotWordChar, WordsOf(b));
  }

  lemma FoldedTwice(value: string)
    ensures Folded(Folded(value)) == Folded(value)
  {
    FoldedIsWords(value);
    WordsAreWords(NotWordChar, Casefold(value));
    JoinWords(NotWordChar, WordsOf(value));
    JoinedIsFolded(WordsOf(value));
    FoldedIsWords(Folded(value));
  }

  lemma {:induction false} JoinedIsFolded(words: seq<string>)
    requires forall w :: w in words ==> IsWord(NotWordChar, w)
    ensures Casefold(Join(words)) == Join(words)
    decreases |words|
  {
    if words != [] {
      JoinedIsFolded(words[1..]);
      assert IsWord(NotWordChar, words[0]);
      var joined := Join(words);
      forall i | 0 <= i < |joined| ensures FoldChar(joined[i]) == joined[i] {
        if i < |words[0]| {
          assert joined[i] == words[0][i];
        } else if i > |words[0]| {
          var rest := Join(words[1..]);
          assert joined[i] == rest[i - |words[0]| - 1];
          assert Casefold(rest)[i - |words[0]| - 1] == rest[i - |words[0]| - 1];
        }
      }
    }
  }

  lemma FoldOfConcat(a: string, b: string)
    ensures Casefold(a + b) == Casefold(a) + Casefold(b)
  {
  }

  /** However a run of separators is spelled, the text folds the same. */
  lemma RespelledFolds(a: string, r: string, s: string, b: string)
    requires r != "" && s != "" && All(NotWordChar, Casefold(r)) && All(NotWordChar, Casefold(s))
    ensures Folded(a + r + b) == Folded(a + s + b)
  {
    FoldedAlikeIff(a + r + b, a + s + b);
    FoldOfConcat(a + r, b);
    FoldOfConcat(a, r);
    FoldOfConcat(a + s, b);
    FoldOfConcat(a, s);
    Respelled(NotWordChar, Casefold(a), Casefold(r), Casefold(b));
    Respelled(NotWordChar, Casefold(a), Casefold(s), Casefold(b));
  }

  /** Rules cannot tell apart two candidates whose texts fold alike. */
  lemma MatchesByFolding(rule: Rule, candidate: Candidate, title: string, description: string, below: Below)
    requires Folded(title) == Folded(candidate.title) && Folded(description) == Folded(candidate.description)
    ensures Matches(rule, candidate.(title := title, description := description), below)
        <==> Matches(rule, candidate, below)
  {
  }

  /** Re-spelling separators in a title or a description changes no decision. */
  lemma {:induction false} DecidesByFolding(rules: seq<Rule>, candidate: Candidate, title: string, description: string, below: Below)
    requires Folded(title) == Folded(candidate.title) && Folded(description) == Folded(candidate.description)
    ensures Matching(rules, candidate.(title := title, description := description), below)
         == Matching(rules, candidate, below)
    ensures EvaluateFilters(candidate.(title := title, description := description), rules, below)
         == EvaluateFilters(candidate, rules, below)
    decreases |rules|
  {
    hide Folded, Matches;
    if rules != [] {
      MatchesByFolding(rules[0], candidate, title, description, below);
      DecidesByFolding(rules[1..], candidate, title, description, below);
    }
  }

  /** Re-spelling separators in a term changes no match. */
  lemma TermByFolding(rule: Rule, pattern: string, candidate: Candidate, below: Below)
    requires rule.kind.Term? && Folded(pattern) == Folded(rule.pattern)
    ensures Matches(rule.(pattern := pattern), candidate, below) <==> Matches(rule, candidate, below)
  {
    CasefoldTwice(pattern);
    CasefoldTwice(rule.pattern);
    hide Contains;
  }
}
