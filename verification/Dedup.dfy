/** One group for each release found on several indexers. */
module Dedup {

  import opened Optional
  import opened Sequences
  import opened Sorting
  import Text

  datatype Release = Release(
    guid: string,
    title: string,
    infoHash: Option<string>,
    downloadUrl: Option<string>,
    size: Option<int>,
    publishedAt: Option<real>,
    seeders: Option<int>)

  datatype IndexedRelease = IndexedRelease(indexerId: string, priority: int, release: Release)

  datatype ReleaseGroup = ReleaseGroup(primary: IndexedRelease, alternates: seq<IndexedRelease>)

  const DAY_SECONDS := 24.0 * 60.0 * 60.0

  // ---- when two releases are the same ----

  predicate Hashed(r: Release)
  {
    r.infoHash.Some? && r.infoHash.value != ""
  }

  predicate IsWordChar(c: char)
  {
    '0' <= c <= '9' || 'a' <= c <= 'z'
  }

  function Keep(s: string): string
  {
    if s == "" then "" else (if IsWordChar(s[0]) then [s[0]] else "") + Keep(s[1..])
  }

  function Title(value: string): string
  {
    Keep(Text.Casefold(value))
  }

  function Abs(x: real): real
  {
    if x < 0.0 then -x else x
  }

  function Max(a: real, b: real): real
  {
    if a < b then b else a
  }

  predicate AgeClose(left: Option<real>, right: Option<real>)
  {
    left.None? || right.None? || Abs(left.value - right.value) <= DAY_SECONDS
  }

  predicate SizeClose(left: int, right: int, tolerance: real)
  {
    Abs(left as real - right as real) <= Max(left as real, right as real) * tolerance
  }

  /** Same title, same size but for the tolerance, published within a day. */
  predicate Alike(left: Release, right: Release, tolerance: real)
  {
    && Title(left.title) == Title(right.title)
    && left.size.Some? && right.size.Some?
    && SizeClose(left.size.value, right.size.value, tolerance)
    && AgeClose(left.publishedAt, right.publishedAt)
  }

  predicate SameRelease(left: Release, right: Release, tolerance: real)
  {
    if Hashed(left) && Hashed(right)
    then Text.Casefold(left.infoHash.value) == Text.Casefold(right.infoHash.value)
    else Alike(left, right, tolerance)
  }

  // ---- the same, by what it means ----

  /** The words of a text, run together. */
  function RunTogether(words: seq<string>): string
  {
    if words == [] then "" else words[0] + RunTogether(words[1..])
  }

  lemma {:induction false} KeepIsWords(s: string)
    ensures Keep(s) == RunTogether(Text.Words(Text.Not(IsWordChar), s))
    decreases |s|
  {
    if s != "" {
      var n := if IsWordChar(s[0]) then Text.Span(Text.Not(Text.Not(IsWordChar)), s) else Text.Span(Text.Not(IsWordChar), s);
      assert s == s[..n] + s[n..];
      KeepConcat(s[..n], s[n..]);
      if IsWordChar(s[0]) { KeepAll(s[..n]); } else { KeepNone(s[..n]); }
      KeepIsWords(s[n..]);
    }
  }

  lemma {:induction false} KeepConcat(a: string, b: string)
    ensures Keep(a + b) == Keep(a) + Keep(b)
  {
    hide Keep, IsWordChar;
    if a == "" {
      KeepFirst(' ', b);
      assert "" + b == b && "" + Keep(b) == Keep(b);
    } else {
      KeepConcat(a[1..], b);
      KeepFirst(a[0], a[1..]);
      KeepFirst(a[0], a[1..] + b);
      assert a == [a[0]] + a[1..] && a + b == [a[0]] + (a[1..] + b);
      Regroup(if IsWordChar(a[0]) then [a[0]] else "", Keep(a[1..]), Keep(b));
    }
  }

  lemma KeepFirst(first: char, rest: string)
    ensures Keep([first] + rest) == (if IsWordChar(first) then [first] else "") + Keep(rest)
    ensures Keep("") == ""
  {
  }

  lemma {:induction false} KeepAll(s: string)
    requires forall i :: 0 <= i < |s| ==> IsWordChar(s[i])
    ensures Keep(s) == s
  {
    if s != "" { KeepAll(s[1..]); }
  }

  lemma {:induction false} KeepNone(s: string)
    requires forall i :: 0 <= i < |s| ==> !IsWordChar(s[i])
    ensures Keep(s) == ""
  {
    if s != "" { KeepNone(s[1..]); }
  }

  /** The digits and small letters of a folded title, whatever stands between them. */
  lemma TitleIs(value: string)
    ensures Title(value) == RunTogether(Text.Words((c: char) => c !in "0123456789" && c !in Text.LOWER, Text.Casefold(value)))
  {
    KeepIsWords(Text.Casefold(value));
    var p, q := Text.Not(IsWordChar), (c: char) => c !in "0123456789" && c !in Text.LOWER;
    forall c ensures p(c) == q(c) { WordCharIs(c); }
    Text.WordsAgree(p, q, Text.Casefold(value));
  }

  lemma WordCharIs(c: char)
    ensures IsWordChar(c) <==> c in "0123456789" || c in Text.LOWER
  {
    Text.DigitIs(c);
    Text.SmallLetterIs(c);
    hide Text.LOWER;
  }

  /** The smaller is not smaller by more than its share of the larger. */
  predicate SizesMatch(a: int, b: int, tolerance: real)
  {
    && (a <= b ==> b as real - tolerance * b as real <= a as real)
    && (b <= a ==> a as real - tolerance * a as real <= b as real)
  }

  /** One info hash but for case; or, where one of them has none, one title, known sizes that match, and dates, where
      both are known, no more than a day apart. */
  predicate Match(a: Release, b: Release, tolerance: real)
  {
    if a.infoHash in {None, Some("")} || b.infoHash in {None, Some("")} then
      && Title(b.title) == Title(a.title)
      && a.size != None && b.size != None && SizesMatch(a.size.value, b.size.value, tolerance)
      && (a.publishedAt != None && b.publishedAt != None ==>
           b.publishedAt.value - 86400.0 <= a.publishedAt.value <= b.publishedAt.value + 86400.0)
    else Text.Casefold(b.infoHash.value) == Text.Casefold(a.infoHash.value)
  }

  lemma SizeCloseIs(a: int, b: int, tolerance: real)
    ensures SizeClose(a, b, tolerance) <==> SizesMatch(a, b, tolerance)
  {
    var larger := if a < b then b else a;
    assert Max(a as real, b as real) == larger as real;
    assert larger as real * tolerance == tolerance * larger as real;
  }

  lemma HashedIs(r: Release)
    ensures Hashed(r) <==> r.infoHash !in {None, Some("")}
  {
  }

  lemma AgeCloseIs(a: Option<real>, b: Option<real>)
    ensures AgeClose(a, b) <==> (a != None && b != None ==> b.value - 86400.0 <= a.value <= b.value + 86400.0)
  {
  }

  lemma SameReleaseIff(a: Release, b: Release, tolerance: real)
    ensures SameRelease(a, b, tolerance) <==> Match(a, b, tolerance)
  {
    hide Title, SizeClose, SizesMatch, AgeClose, Hashed;
    HashedIs(a);
    HashedIs(b);
    AgeCloseIs(a.publishedAt, b.publishedAt);
    if a.size.Some? && b.size.Some? { SizeCloseIs(a.size.value, b.size.value, tolerance); }
  }

  // ---- which of them is kept ----

  function Completeness(r: Release): int
  {
    (if r.downloadUrl.Some? then 1 else 0) + (if r.size.Some? then 1 else 0) + (if r.publishedAt.Some? then 1 else 0)
  }

  function Numbers(x: IndexedRelease): seq<int>
  {
    [x.priority, -Completeness(x.release), -(if x.release.seeders.Some? then x.release.seeders.value else 0)]
  }

  /** The tuple order of `_rank`. */
  predicate RankLe(x: IndexedRelease, y: IndexedRelease)
  {
    if Numbers(x) == Numbers(y) then TextLe(x.release.guid, y.release.guid) else LexLe(Numbers(x), Numbers(y))
  }

  lemma RankIsTotal()
    ensures TotalPreorder(RankLe)
  {
    forall x, y ensures RankLe(x, y) || RankLe(y, x) {
      LexTotal(Numbers(x), Numbers(y));
      TextTotal(x.release.guid, y.release.guid);
    }
    forall x, y, z | RankLe(x, y) && RankLe(y, z) ensures RankLe(x, z) {
      RankTransitive(x, y, z);
    }
  }

  lemma RankTransitive(x: IndexedRelease, y: IndexedRelease, z: IndexedRelease)
    requires RankLe(x, y) && RankLe(y, z)
    ensures RankLe(x, z)
  {
    hide Numbers, LexLe, TextLe;
    LexTotal(Numbers(x), Numbers(y));
    LexTotal(Numbers(y), Numbers(z));
    if Numbers(x) == Numbers(y) == Numbers(z) {
      TextTransitive(x.release.guid, y.release.guid, z.release.guid);
    } else if Numbers(x) != Numbers(y) && Numbers(y) != Numbers(z) {
      LexTransitive(Numbers(x), Numbers(y), Numbers(z));
    }
  }

  // ---- the rank, by what it prefers ----

  /** How many of download URL, size and date are known. */
  function Known(r: Release): nat
  {
    (if r.publishedAt == None then 0 else 1) + (if r.downloadUrl == None then 0 else 1) + (if r.size == None then 0 else 1)
  }

  function Seeders(r: Release): int
  {
    match r.seeders
    case None => 0
    case Some(n) => n
  }

  /** A lower priority number; of equals, more that is known; of those, more seeders; of those, the smaller guid. */
  predicate NotWorse(x: IndexedRelease, y: IndexedRelease)
  {
    && x.priority <= y.priority
    && (x.priority == y.priority ==> Known(x.release) >= Known(y.release))
    && (x.priority == y.priority && Known(x.release) == Known(y.release) ==> Seeders(x.release) >= Seeders(y.release))
    && (x.priority == y.priority && Known(x.release) == Known(y.release) && Seeders(x.release) == Seeders(y.release) ==>
         TextLe(x.release.guid, y.release.guid))
  }

  lemma RankIs(x: IndexedRelease, y: IndexedRelease)
    ensures RankLe(x, y) <==> NotWorse(x, y)
  {
    hide TextLe;
    var a, b := Numbers(x), Numbers(y);
    assert LexLe(a, b) <==> a[0] < b[0] || (a[0] == b[0] && LexLe(a[1..], b[1..]));
    assert LexLe(a[1..], b[1..]) <==> a[1] < b[1] || (a[1] == b[1] && LexLe(a[2..], b[2..])) by {
      assert a[1..][1..] == a[2..] && b[1..][1..] == b[2..];
    }
    assert LexLe(a[2..], b[2..]) <==> a[2] <= b[2] by { assert a[2..][1..] == [] && b[2..][1..] == []; }
    assert a == b <==> a[0] == b[0] && a[1] == b[1] && a[2] == b[2];
  }

  /** Nobody listed is better than anybody listed before, the primary first of all. */
  ghost predicate BestFirst(group: ReleaseGroup)
  {
    && (forall m :: m in group.alternates ==> NotWorse(group.primary, m))
    && (forall i, j :: 0 <= i < j < |group.alternates| ==> NotWorse(group.alternates[i], group.alternates[j]))
  }

  // ---- the groups, by who founds them ----

  /** Arrival number `i` is the same release as no earlier founder. */
  predicate Founds(rs: seq<IndexedRelease>, i: nat, tolerance: real)
    requires i < |rs|
  {
    forall j: nat :: j < i && Founds(rs, j, tolerance) ==> !SameRelease(rs[i].release, rs[j].release, tolerance)
  }

  /** Founder `f` is the earliest that arrival number `i` is the same release as. */
  predicate Joins(rs: seq<IndexedRelease>, i: nat, f: nat, tolerance: real)
    requires i < |rs|
  {
    if Founds(rs, i, tolerance) then f == i
    else
      && f < i && Founds(rs, f, tolerance) && SameRelease(rs[i].release, rs[f].release, tolerance)
      && forall j: nat :: j < f && Founds(rs, j, tolerance) ==> !SameRelease(rs[i].release, rs[j].release, tolerance)
  }

  /** The founders among the first `n` arrivals, in order. */
  function Founders(rs: seq<IndexedRelease>, n: nat, tolerance: real): seq<nat>
    requires n <= |rs|
  {
    if n == 0 then []
    else Founders(rs, n - 1, tolerance) + if Founds(rs, n - 1, tolerance) then [n - 1] else []
  }

  /** Those of the first `n` arrivals that joined founder `f`, in order. */
  function Members(rs: seq<IndexedRelease>, n: nat, f: nat, tolerance: real): seq<IndexedRelease>
    requires n <= |rs|
  {
    if n == 0 then []
    else Members(rs, n - 1, f, tolerance) + if Joins(rs, n - 1, f, tolerance) then [rs[n - 1]] else []
  }

  function Group(members: seq<IndexedRelease>): ReleaseGroup
    requires members != []
  {
    SortPermutes(RankLe, members);
    var ordered := Sort(RankLe, members);
    ReleaseGroup(ordered[0], ordered[1..])
  }

  // ---- about founders ----

  lemma {:induction false} FoundersAre(rs: seq<IndexedRelease>, n: nat, tolerance: real)
    requires n <= |rs|
    ensures forall f: nat :: f in Founders(rs, n, tolerance) <==> (f < n && Founds(rs, f, tolerance))
    ensures forall a, b :: 0 <= a < b < |Founders(rs, n, tolerance)| ==> Founders(rs, n, tolerance)[a] < Founders(rs, n, tolerance)[b]
  {
    hide Founds;
    if n > 0 {
      FoundersAre(rs, n - 1, tolerance);
      var before, after := Founders(rs, n - 1, tolerance), Founders(rs, n, tolerance);
      assert forall a :: 0 <= a < |before| ==> before[a] in before;
      if Founds(rs, n - 1, tolerance) {
        assert after == before + [n - 1];
      }
    }
  }

  lemma FounderJoins(rs: seq<IndexedRelease>, f: nat, tolerance: real)
    requires f < |rs| && Founds(rs, f, tolerance)
    ensures Joins(rs, f, f, tolerance)
    ensures forall i: nat :: i < f ==> !Joins(rs, i, f, tolerance)
  {
    hide Founds, SameRelease;
  }

  lemma MembersOneMore(rs: seq<IndexedRelease>, n: nat, f: nat, tolerance: real)
    requires n < |rs|
    ensures Members(rs, n + 1, f, tolerance)
         == Members(rs, n, f, tolerance) + (if Joins(rs, n, f, tolerance) then [rs[n]] else [])
  {
    hide Joins;
  }

  lemma FoundersOneMore(rs: seq<IndexedRelease>, n: nat, tolerance: real)
    requires n < |rs|
    ensures Founders(rs, n + 1, tolerance)
         == Founders(rs, n, tolerance) + (if Founds(rs, n, tolerance) then [n] else [])
  {
    hide Founds;
  }

  /** Nobody joins a founder before it arrives, and it is the first to join itself. */
  lemma {:induction false} FounderLeads(rs: seq<IndexedRelease>, n: nat, f: nat, tolerance: real)
    requires n <= |rs| && f < |rs| && Founds(rs, f, tolerance)
    ensures n <= f ==> Members(rs, n, f, tolerance) == []
    ensures n > f ==> Members(rs, n, f, tolerance) != [] && Members(rs, n, f, tolerance)[0] == rs[f]
    decreases n
  {
    hide Founds, Joins, SameRelease;
    if n > 0 {
      FounderLeads(rs, n - 1, f, tolerance);
      MembersOneMore(rs, n - 1, f, tolerance);
      FounderJoins(rs, f, tolerance);
      hide Members;
    }
  }

  // ---- the loops ----

  /** The state of the groups after `n` arrivals. */
  ghost predicate Grouped(rs: seq<IndexedRelease>, n: nat, groups: seq<seq<IndexedRelease>>, tolerance: real)
    requires n <= |rs|
  {
    var founders := Founders(rs, n, tolerance);
    && |groups| == |founders|
    && forall k :: 0 <= k < |groups| ==> groups[k] == Members(rs, n, founders[k], tolerance)
  }

  lemma GroupedLeads(rs: seq<IndexedRelease>, n: nat, groups: seq<seq<IndexedRelease>>, tolerance: real, k: nat)
    requires n <= |rs| && Grouped(rs, n, groups, tolerance) && k < |groups|
    ensures Founders(rs, n, tolerance)[k] < n && Founds(rs, Founders(rs, n, tolerance)[k], tolerance)
    ensures groups[k] != [] && groups[k][0] == rs[Founders(rs, n, tolerance)[k]]
  {
    FoundersAre(rs, n, tolerance);
    var founders := Founders(rs, n, tolerance);
    assert founders[k] in founders;
    FounderLeads(rs, n, founders[k], tolerance);
  }

  /** The founder of the first group that takes the candidate is the earliest it matches. */
  lemma JoinsFounder(rs: seq<IndexedRelease>, n: nat, groups: seq<seq<IndexedRelease>>, tolerance: real, g: nat)
    requires n < |rs| && Grouped(rs, n, groups, tolerance) && g < |groups|
    requires forall k :: 0 <= k <= g ==> groups[k] != []
    requires SameRelease(rs[n].release, groups[g][0].release, tolerance)
    requires forall k :: 0 <= k < g ==> !SameRelease(rs[n].release, groups[k][0].release, tolerance)
    ensures !Founds(rs, n, tolerance) && Joins(rs, n, Founders(rs, n, tolerance)[g], tolerance)
  {
    var founders := Founders(rs, n, tolerance);
    FoundersAre(rs, n, tolerance);
    GroupedLeads(rs, n, groups, tolerance, g);
    forall j: nat | j < founders[g] && Founds(rs, j, tolerance)
      ensures !SameRelease(rs[n].release, rs[j].release, tolerance)
    {
      EarlierRefused(rs, n, groups, tolerance, g, j);
    }
    hide SameRelease, Founders, Grouped, Members;
    assert !Founds(rs, n, tolerance);
  }

  lemma EarlierRefused(rs: seq<IndexedRelease>, n: nat, groups: seq<seq<IndexedRelease>>, tolerance: real, g: nat, j: nat)
    requires n < |rs| && Grouped(rs, n, groups, tolerance) && g < |groups|
    requires forall k :: 0 <= k < g ==> groups[k] != []
    requires forall k :: 0 <= k < g ==> !SameRelease(rs[n].release, groups[k][0].release, tolerance)
    requires j < Founders(rs, n, tolerance)[g] && j < n && Founds(rs, j, tolerance)
    ensures !SameRelease(rs[n].release, rs[j].release, tolerance)
  {
    hide SameRelease, Founders, Founds, Members, Joins;
    var founders := Founders(rs, n, tolerance);
    FoundersAre(rs, n, tolerance);
    assert j in founders;
    var k :| 0 <= k < |founders| && founders[k] == j;
    Position(founders, k, g);
    GroupedLeads(rs, n, groups, tolerance, k);
  }

  lemma Position(founders: seq<nat>, k: nat, g: nat)
    requires k < |founders| && g < |founders| && founders[k] < founders[g]
    requires forall a, b :: 0 <= a < b < |founders| ==> founders[a] < founders[b]
    ensures k < g
  {
  }

  /** The candidate is added to the first group that takes it. */
  lemma JoinsGroup(rs: seq<IndexedRelease>, n: nat, groups: seq<seq<IndexedRelease>>, tolerance: real, g: nat)
    requires n < |rs| && Grouped(rs, n, groups, tolerance) && g < |groups|
    requires forall k :: 0 <= k <= g ==> groups[k] != []
    requires SameRelease(rs[n].release, groups[g][0].release, tolerance)
    requires forall k :: 0 <= k < g ==> !SameRelease(rs[n].release, groups[k][0].release, tolerance)
    ensures Grouped(rs, n + 1, groups[g := groups[g] + [rs[n]]], tolerance)
  {
    hide SameRelease, Joins, Founds, Members, Founders;
    var founders := Founders(rs, n, tolerance);
    JoinsFounder(rs, n, groups, tolerance, g);
    FoundersOneMore(rs, n, tolerance);
    forall k | 0 <= k < |groups|
      ensures Members(rs, n + 1, founders[k], tolerance) == groups[g := groups[g] + [rs[n]]][k]
    {
      MembersOneMore(rs, n, founders[k], tolerance);
      if k != g {
        FoundersApart(rs, n, tolerance, k, g);
        JoinsOnce(rs, n, founders[g], founders[k], tolerance);
      }
    }
  }

  lemma FoundersApart(rs: seq<IndexedRelease>, n: nat, tolerance: real, k: nat, g: nat)
    requires n <= |rs| && k < |Founders(rs, n, tolerance)| && g < |Founders(rs, n, tolerance)| && k != g
    ensures Founders(rs, n, tolerance)[k] != Founders(rs, n, tolerance)[g]
  {
    hide Founds, Founders;
    FoundersAre(rs, n, tolerance);
  }

  lemma JoinsOnce(rs: seq<IndexedRelease>, i: nat, f: nat, g: nat, tolerance: real)
    requires i < |rs| && f != g && Joins(rs, i, f, tolerance)
    ensures !Joins(rs, i, g, tolerance)
  {
  }

  /** The candidate no group takes founds one. */
  lemma FoundsGroup(rs: seq<IndexedRelease>, n: nat, groups: seq<seq<IndexedRelease>>, tolerance: real)
    requires n < |rs| && Grouped(rs, n, groups, tolerance)
    requires forall k :: 0 <= k < |groups| ==> groups[k] != []
    requires forall k :: 0 <= k < |groups| ==> !SameRelease(rs[n].release, groups[k][0].release, tolerance)
    ensures Grouped(rs, n + 1, groups + [[rs[n]]], tolerance)
  {
    var founders := Founders(rs, n, tolerance);
    FoundersAre(rs, n, tolerance);
    hide SameRelease;
    forall j: nat | j < n && Founds(rs, j, tolerance)
      ensures !SameRelease(rs[n].release, rs[j].release, tolerance)
    {
      assert j in founders;
      var k :| 0 <= k < |founders| && founders[k] == j;
      GroupedLeads(rs, n, groups, tolerance, k);
    }
    assert Founds(rs, n, tolerance);
    FounderLeads(rs, n, n, tolerance);
    forall k | 0 <= k < |groups| ensures !Joins(rs, n, founders[k], tolerance) {
      GroupedLeads(rs, n, groups, tolerance, k);
    }
  }

  function Everyone(groups: seq<seq<IndexedRelease>>): seq<IndexedRelease>
  {
    if groups == [] then [] else Everyone(groups[..|groups| - 1]) + groups[|groups| - 1]
  }

  lemma EveryoneLast(groups: seq<seq<IndexedRelease>>)
    requires groups != []
    ensures multiset(Everyone(groups))
         == multiset(Everyone(groups[..|groups| - 1])) + multiset(groups[|groups| - 1])
  {
  }

  lemma {:induction false} EveryoneOneMore(groups: seq<seq<IndexedRelease>>, g: nat, x: IndexedRelease)
    requires g < |groups|
    ensures multiset(Everyone(groups[g := groups[g] + [x]])) == multiset(Everyone(groups)) + multiset{x}
    decreases |groups|
  {
    hide Everyone;
    var front := groups[..|groups| - 1];
    var after := groups[g := groups[g] + [x]];
    EveryoneLast(groups);
    EveryoneLast(after);
    if g == |groups| - 1 {
      assert after[..|groups| - 1] == front;
      assert multiset(groups[g] + [x]) == multiset(groups[g]) + multiset{x};
    } else {
      assert after[..|groups| - 1] == front[g := front[g] + [x]];
      EveryoneOneMore(front, g, x);
    }
  }

  lemma EveryoneNew(groups: seq<seq<IndexedRelease>>, x: IndexedRelease)
    ensures multiset(Everyone(groups + [[x]])) == multiset(Everyone(groups)) + multiset{x}
  {
  }

  lemma OneMoreArrival(rs: seq<IndexedRelease>, n: nat)
    requires n < |rs|
    ensures multiset(rs[..n + 1]) == multiset(rs[..n]) + multiset{rs[n]}
  {
    assert rs[..n + 1] == rs[..n] + [rs[n]];
  }

  function Listed(group: ReleaseGroup): seq<IndexedRelease>
  {
    [group.primary] + group.alternates
  }

  function ListedAll(result: seq<ReleaseGroup>): seq<IndexedRelease>
  {
    if result == [] then [] else ListedAll(result[..|result| - 1]) + Listed(result[|result| - 1])
  }

  /** A group lists its members, the best first and the rest in order of rank. */
  lemma GroupOrders(members: seq<IndexedRelease>)
    requires members != []
    ensures multiset(Listed(Group(members))) == multiset(members)
    ensures BestFirst(Group(members))
  {
    hide RankLe, NotWorse, Sort;
    RankIsTotal();
    SortPermutes(RankLe, members);
    SortSorted(RankLe, members);
    var ordered := Sort(RankLe, members);
    assert ordered == [ordered[0]] + ordered[1..];
    forall i, j | 0 <= i < j < |ordered| ensures NotWorse(ordered[i], ordered[j]) { RankIs(ordered[i], ordered[j]); }
  }

  /** Group number `k` ranks exactly the arrivals whose earliest founder is founder number `k`. */
  ghost predicate Deduplicated(rs: seq<IndexedRelease>, result: seq<ReleaseGroup>, tolerance: real)
  {
    var founders := Founders(rs, |rs|, tolerance);
    && |result| == |founders|
    && forall k :: 0 <= k < |result| ==>
      var members := Members(rs, |rs|, founders[k], tolerance);
      members != [] && result[k] == Group(members)
  }

  /** First fit, then rank; and everybody is in some group. */
  method Deduplicate(releases: seq<IndexedRelease>, sizeTolerance: real) returns (result: seq<ReleaseGroup>)
    ensures Deduplicated(releases, result, sizeTolerance)
    ensures multiset(ListedAll(result)) == multiset(releases)
    ensures forall k :: 0 <= k < |result| ==> BestFirst(result[k])
  {
    var groups: seq<seq<IndexedRelease>> := [];
    assert releases[..0] == [];
    for n := 0 to |releases|
      invariant Taken(releases, n, groups, sizeTolerance)
    {
      hide Taken;
      groups := AddArrival(releases, n, groups, sizeTolerance);
    }
    assert releases[..|releases|] == releases;
    result := Ordered(groups);
    GroupedIs(releases, groups, result, sizeTolerance);
    hide Taken, BestFirst;
    forall k | 0 <= k < |result| ensures BestFirst(result[k]) {
      GroupOrders(Members(releases, |releases|, Founders(releases, |releases|, sizeTolerance)[k], sizeTolerance));
    }
  }

  /** The first `n` arrivals are in the groups, and nobody else is. */
  ghost predicate Taken(rs: seq<IndexedRelease>, n: nat, groups: seq<seq<IndexedRelease>>, tolerance: real)
    requires n <= |rs|
  {
    && Grouped(rs, n, groups, tolerance)
    && (forall k :: 0 <= k < |groups| ==> groups[k] != [])
    && multiset(Everyone(groups)) == multiset(rs[..n])
  }

  /** One round of the outer loop. */
  method AddArrival(releases: seq<IndexedRelease>, n: nat, groups: seq<seq<IndexedRelease>>, tolerance: real)
    returns (after: seq<seq<IndexedRelease>>)
    requires n < |releases| && Taken(releases, n, groups, tolerance)
    ensures Taken(releases, n + 1, after, tolerance)
  {
    hide Grouped, SameRelease, Everyone;
    var candidate := releases[n];
    OneMoreArrival(releases, n);
    var g := FirstFit(candidate, groups, tolerance);
    if g < |groups| {
      JoinsGroup(releases, n, groups, tolerance, g);
      EveryoneOneMore(groups, g, candidate);
      after := groups[g := groups[g] + [candidate]];
    } else {
      FoundsGroup(releases, n, groups, tolerance);
      EveryoneNew(groups, candidate);
      after := groups + [[candidate]];
    }
  }

  lemma GroupedIs(rs: seq<IndexedRelease>, groups: seq<seq<IndexedRelease>>, result: seq<ReleaseGroup>, tolerance: real)
    requires Grouped(rs, |rs|, groups, tolerance)
    requires |result| == |groups|
    requires forall k :: 0 <= k < |groups| ==> groups[k] != [] && result[k] == Group(groups[k])
    ensures Deduplicated(rs, result, tolerance)
  {
  }

  /** The inner loop: the first group whose founder is the same release, or one past the last group. */
  method FirstFit(candidate: IndexedRelease, groups: seq<seq<IndexedRelease>>, tolerance: real) returns (g: nat)
    requires forall k :: 0 <= k < |groups| ==> groups[k] != []
    ensures g <= |groups|
    ensures g < |groups| ==> SameRelease(candidate.release, groups[g][0].release, tolerance)
    ensures forall k :: 0 <= k < g ==> !SameRelease(candidate.release, groups[k][0].release, tolerance)
  {
    g := 0;
    while g < |groups| && !SameRelease(candidate.release, groups[g][0].release, tolerance)
      invariant g <= |groups|
      invariant forall k :: 0 <= k < g ==> !SameRelease(candidate.release, groups[k][0].release, tolerance)
    {
      g := g + 1;
    }
  }

  /** The closing comprehension: every group sorted by rank. */
  method Ordered(groups: seq<seq<IndexedRelease>>) returns (result: seq<ReleaseGroup>)
    requires forall k :: 0 <= k < |groups| ==> groups[k] != []
    ensures |result| == |groups| && forall k :: 0 <= k < |groups| ==> result[k] == Group(groups[k])
    ensures multiset(ListedAll(result)) == multiset(Everyone(groups))
  {
    result := [];
    hide Group, Listed;
    for k := 0 to |groups|
      invariant |result| == k
      invariant forall j :: 0 <= j < k ==> result[j] == Group(groups[j])
      invariant multiset(ListedAll(result)) == multiset(Everyone(groups[..k]))
    {
      GroupOrders(groups[k]);
      assert groups[..k + 1][..k] == groups[..k];
      assert (result + [Group(groups[k])])[..k] == result;
      result := result + [Group(groups[k])];
    }
    assert groups[..|groups|] == groups;
  }

  // ---- what a group says of its members ----

  /** `0.97` and `0.97`: a size within the tolerance is at least that part of the other. */
  lemma Scaled(t: real, x: real, y: real)
    requires 0.0 <= t <= 1.0 && 0.0 <= x && 0.0 <= y && Abs(x - y) <= Max(x, y) * t
    ensures (1.0 - t) * y <= x && (1.0 - t) * x <= y
  {
  }

  lemma Multiplied(k: real, a: real, b: real)
    requires 0.0 <= k && a <= b
    ensures k * a <= k * b
  {
  }

  lemma Associates(k: real, a: real, b: real)
    ensures k * a * b == k * (a * b)
  {
  }

  lemma SquaredTolerance(t: real, x: real, y: real, f: real)
    requires 0.0 <= t <= 1.0 && 0.0 <= x && 0.0 <= y && 0.0 <= f
    requires Abs(x - f) <= Max(x, f) * t && Abs(y - f) <= Max(y, f) * t
    ensures (1.0 - t) * (1.0 - t) * y <= x
  {
    Scaled(t, x, f);
    Scaled(t, y, f);
    hide Abs, Max;
    Multiplied(1.0 - t, (1.0 - t) * y, f);
    Associates(1.0 - t, 1.0 - t, y);
  }

  /** Two members that joined one founder by title and size differ by the square of the tolerance at most. */
  lemma SizesWithin(a: Release, b: Release, founder: Release, t: real)
    requires 0.0 <= t <= 1.0
    requires Alike(a, founder, t) && Alike(b, founder, t)
    requires a.size.value >= 0 && b.size.value >= 0 && founder.size.value >= 0
    ensures (1.0 - t) * (1.0 - t) * b.size.value as real <= a.size.value as real
  {
    hide Title, AgeClose, Abs, Max;
    SquaredTolerance(t, a.size.value as real, b.size.value as real, founder.size.value as real);
  }

  // ---- what it does not say ----

  function Plain(guid: string, size: int): IndexedRelease
  {
    IndexedRelease("i", 0, Release(guid, "t", None, None, Some(size), None, None))
  }

  lemma OfThree(rs: seq<IndexedRelease>, t: real)
    requires |rs| == 3 && SameRelease(rs[1].release, rs[0].release, t)
    ensures Founders(rs, 3, t) == if SameRelease(rs[2].release, rs[0].release, t) then [0] else [0, 2]
    ensures SameRelease(rs[2].release, rs[0].release, t) ==> Members(rs, 3, 0, t) == [rs[0], rs[1], rs[2]]
  {
    hide SameRelease;
    assert Founds(rs, 0, t);
    assert !Founds(rs, 1, t);
    assert Founds(rs, 2, t) <==> !SameRelease(rs[2].release, rs[0].release, t);
    assert Founders(rs, 1, t) == [0];
    assert Founders(rs, 2, t) == [0];
    assert Members(rs, 1, 0, t) == [rs[0]];
    assert Members(rs, 2, 0, t) == [rs[0], rs[1]];
  }

  /** Members of a group need not match one another, and arriving in another order regroups them. */
  lemma MembersNeedNotMatch()
    ensures var low, mid, high := Plain("l", 97), Plain("m", 100), Plain("h", 103);
      && !SameRelease(low.release, high.release, 0.03)
      && Founders([mid, low, high], 3, 0.03) == [0]
      && Members([mid, low, high], 3, 0, 0.03) == [mid, low, high]
      && Founders([low, mid, high], 3, 0.03) == [0, 2]
  {
    var low, mid, high := Plain("l", 97), Plain("m", 100), Plain("h", 103);
    assert SameRelease(low.release, mid.release, 0.03) && SameRelease(high.release, mid.release, 0.03);
    assert SameRelease(mid.release, low.release, 0.03) && !SameRelease(high.release, low.release, 0.03);
    hide SameRelease, Plain;
    OfThree([mid, low, high], 0.03);
    OfThree([low, mid, high], 0.03);
  }
}
