/** What the order of arrival does to the groups: nothing, exactly when being the same release is
    transitive on what arrived. */
module DedupOrder {

  import opened Dedup

  predicate Same(x: IndexedRelease, y: IndexedRelease, tolerance: real)
  {
    SameRelease(x.release, y.release, tolerance)
  }

  lemma SameSymmetric(x: IndexedRelease, y: IndexedRelease, tolerance: real)
    ensures Same(x, y, tolerance) <==> Same(y, x, tolerance)
  {
    hide Title;
    if x.release.size.Some? && y.release.size.Some? {
      var a, b := x.release.size.value as real, y.release.size.value as real;
      assert Abs(a - b) == Abs(b - a) && Max(a, b) == Max(b, a);
    }
  }

  /** Of any three arrivals, two matches make the third. */
  ghost predicate Transitive(arrivals: multiset<IndexedRelease>, tolerance: real)
  {
    forall x, y, z :: multiset{x, y, z} <= arrivals && Same(x, y, tolerance) && Same(y, z, tolerance) ==> Same(x, z, tolerance)
  }

  /** Arrivals number `i` and `j` end up in one group. */
  ghost predicate Joined(rs: seq<IndexedRelease>, i: nat, j: nat, tolerance: real)
    requires i < |rs| && j < |rs|
  {
    exists f: nat :: f < |rs| && Joins(rs, i, f, tolerance) && Joins(rs, j, f, tolerance)
  }

  /** In every order of arrival two releases share a group exactly when they match. */
  ghost predicate GroupsAreMatches(arrivals: multiset<IndexedRelease>, tolerance: real)
  {
    forall rs: seq<IndexedRelease>, i: nat, j: nat ::
      multiset(rs) == arrivals && i < |rs| && j < |rs| && i != j ==>
        (Joined(rs, i, j, tolerance) <==> Same(rs[i], rs[j], tolerance))
  }

  /** Whether two releases share a group is the same in every order of arrival. */
  ghost predicate OrderDoesNotMatter(arrivals: multiset<IndexedRelease>, tolerance: real)
  {
    forall rs: seq<IndexedRelease>, i: nat, j: nat, others: seq<IndexedRelease>, k: nat, l: nat ::
      && multiset(rs) == arrivals == multiset(others)
      && i < |rs| && j < |rs| && i != j && k < |others| && l < |others| && k != l
      && rs[i] == others[k] && rs[j] == others[l] ==>
        (Joined(rs, i, j, tolerance) <==> Joined(others, k, l, tolerance))
  }

  // ---- arrivals and positions ----

  lemma ThreeAscending(rs: seq<IndexedRelease>, a: nat, b: nat, c: nat)
    requires a < b < c < |rs|
    ensures multiset{rs[a]} + multiset{rs[b]} + multiset{rs[c]} <= multiset(rs)
  {
    var front, back := rs[..b], rs[b + 1..];
    assert rs == front + [rs[b]] + back;
    assert front[a] == rs[a] && back[c - b - 1] == rs[c];
    assert rs[a] in multiset(front) && rs[c] in multiset(back);
  }

  lemma ThreePositions(rs: seq<IndexedRelease>, i: nat, j: nat, k: nat)
    requires i < |rs| && j < |rs| && k < |rs| && i != j && j != k && i != k
    ensures multiset{rs[i], rs[j], rs[k]} <= multiset(rs)
  {
    if i < j < k {
      ThreeAscending(rs, i, j, k);
    } else if i < k < j {
      ThreeAscending(rs, i, k, j);
    } else if j < i < k {
      ThreeAscending(rs, j, i, k);
    } else if j < k < i {
      ThreeAscending(rs, j, k, i);
    } else if k < i < j {
      ThreeAscending(rs, k, i, j);
    } else {
      ThreeAscending(rs, k, j, i);
    }
  }

  lemma ThreeFirst(arrivals: multiset<IndexedRelease>, x: IndexedRelease, y: IndexedRelease, z: IndexedRelease)
    returns (rs: seq<IndexedRelease>)
    requires multiset{x, y, z} <= arrivals
    ensures multiset(rs) == arrivals && |rs| >= 3 && rs[0] == x && rs[1] == y && rs[2] == z
  {
    var rest := Listing(arrivals - multiset{x, y, z});
    rs := [x, y, z] + rest;
  }

  /** Some order of a multiset. */
  lemma Listing(m: multiset<IndexedRelease>) returns (rs: seq<IndexedRelease>)
    ensures multiset(rs) == m
    decreases |m|
  {
    if m == multiset{} {
      rs := [];
    } else {
      var x :| x in m;
      var rest := Listing(m - multiset{x});
      rs := [x] + rest;
    }
  }

  // ---- founders ----

  /** Everybody joins some founder. */
  lemma JoinsSome(rs: seq<IndexedRelease>, i: nat, tolerance: real) returns (f: nat)
    requires i < |rs|
    ensures f <= i && Joins(rs, i, f, tolerance) && Founds(rs, f, tolerance)
  {
    hide SameRelease;
    if Founds(rs, i, tolerance) {
      f := i;
    } else {
      f := 0;
      while !(Founds(rs, f, tolerance) && SameRelease(rs[i].release, rs[f].release, tolerance))
        invariant f < i
        invariant exists j: nat :: f <= j < i && Founds(rs, j, tolerance) && SameRelease(rs[i].release, rs[j].release, tolerance)
        invariant forall j: nat :: j < f && Founds(rs, j, tolerance) ==> !SameRelease(rs[i].release, rs[j].release, tolerance)
        decreases i - f
      {
        f := f + 1;
      }
    }
  }

  /** Two that join one founder match, one being the founder or both matching it. */
  lemma JoinedMatch(rs: seq<IndexedRelease>, i: nat, j: nat, tolerance: real)
    requires i < |rs| && j < |rs| && i != j
    requires Transitive(multiset(rs), tolerance) && Joined(rs, i, j, tolerance)
    ensures Same(rs[i], rs[j], tolerance)
  {
    hide SameRelease, Transitive;
    var f: nat :| f < |rs| && Joins(rs, i, f, tolerance) && Joins(rs, j, f, tolerance);
    SameSymmetric(rs[f], rs[j], tolerance);
    SameSymmetric(rs[i], rs[f], tolerance);
    if i != f && j != f {
      Third(rs, i, f, j, tolerance);
    }
  }

  lemma Third(rs: seq<IndexedRelease>, i: nat, j: nat, k: nat, tolerance: real)
    requires i < |rs| && j < |rs| && k < |rs| && i != j && j != k && i != k
    requires Transitive(multiset(rs), tolerance) && Same(rs[i], rs[j], tolerance) && Same(rs[j], rs[k], tolerance)
    ensures Same(rs[i], rs[k], tolerance)
  {
    hide Same;
    ThreePositions(rs, i, j, k);
  }

  /** The later of two that match joins the founder of the earlier. */
  lemma MatchJoins(rs: seq<IndexedRelease>, i: nat, j: nat, tolerance: real)
    requires i < j < |rs| && Transitive(multiset(rs), tolerance) && Same(rs[i], rs[j], tolerance)
    ensures Joined(rs, i, j, tolerance)
  {
    hide SameRelease, Transitive;
    var f := JoinsSome(rs, i, tolerance);
    SameSymmetric(rs[i], rs[j], tolerance);
    if f < i { Third(rs, j, i, f, tolerance); }
    assert !Founds(rs, j, tolerance);
    forall g: nat | g < f && Founds(rs, g, tolerance) ensures !Same(rs[j], rs[g], tolerance) {
      if Same(rs[j], rs[g], tolerance) { Third(rs, i, j, g, tolerance); }
    }
    assert Joins(rs, j, f, tolerance);
  }

  lemma JoinedSymmetric(rs: seq<IndexedRelease>, i: nat, j: nat, tolerance: real)
    requires i < |rs| && j < |rs|
    ensures Joined(rs, i, j, tolerance) <==> Joined(rs, j, i, tolerance)
  {
    hide Joins;
  }

  // ---- the results ----

  /** Every order of arrival groups exactly the releases that match, if and only if matching is
      transitive on what arrived. */
  lemma GroupsAreMatchesIff(arrivals: multiset<IndexedRelease>, tolerance: real)
    ensures GroupsAreMatches(arrivals, tolerance) <==> Transitive(arrivals, tolerance)
  {
    if Transitive(arrivals, tolerance) {
      hide Same, Joined, Transitive;
      forall rs: seq<IndexedRelease>, i: nat, j: nat | multiset(rs) == arrivals && i < |rs| && j < |rs| && i != j
        ensures Joined(rs, i, j, tolerance) <==> Same(rs[i], rs[j], tolerance)
      {
        SameSymmetric(rs[i], rs[j], tolerance);
        JoinedSymmetric(rs, i, j, tolerance);
        if Joined(rs, i, j, tolerance) { JoinedMatch(rs, i, j, tolerance); }
        if Same(rs[i], rs[j], tolerance) {
          if i < j { MatchJoins(rs, i, j, tolerance); } else { MatchJoins(rs, j, i, tolerance); }
        }
      }
    }
    if GroupsAreMatches(arrivals, tolerance) {
      hide Same, Joined, SameRelease;
      forall x, y, z | multiset{x, y, z} <= arrivals && Same(x, y, tolerance) && Same(y, z, tolerance)
        ensures Same(x, z, tolerance)
      {
        var rs := MiddleFirst(arrivals, x, y, z, tolerance);
        assert Joined(rs, 1, 2, tolerance) <==> Same(rs[1], rs[2], tolerance);
      }
    }
  }

  /** Where the middle one arrives first it founds the group of both the others. */
  lemma MiddleFirst(arrivals: multiset<IndexedRelease>, x: IndexedRelease, y: IndexedRelease, z: IndexedRelease, tolerance: real)
    returns (rs: seq<IndexedRelease>)
    requires multiset{x, y, z} <= arrivals && Same(x, y, tolerance) && Same(y, z, tolerance)
    ensures multiset(rs) == arrivals && |rs| >= 3 && rs[1] == x && rs[2] == z
    ensures Joined(rs, 1, 2, tolerance)
  {
    hide SameRelease;
    assert multiset{y, x, z} == multiset{x, y, z};
    rs := ThreeFirst(arrivals, y, x, z);
    SameSymmetric(y, z, tolerance);
    assert Founds(rs, 0, tolerance);
    assert Joins(rs, 1, 0, tolerance) && Joins(rs, 2, 0, tolerance);
  }

  /** Where it arrives last they found two. */
  lemma MiddleLast(arrivals: multiset<IndexedRelease>, x: IndexedRelease, y: IndexedRelease, z: IndexedRelease, tolerance: real)
    returns (rs: seq<IndexedRelease>)
    requires multiset{x, y, z} <= arrivals && !Same(x, z, tolerance)
    ensures multiset(rs) == arrivals && |rs| >= 3 && rs[0] == x && rs[1] == z
    ensures !Joined(rs, 0, 1, tolerance)
  {
    hide SameRelease;
    assert multiset{x, z, y} == multiset{x, y, z};
    rs := ThreeFirst(arrivals, x, z, y);
    SameSymmetric(x, z, tolerance);
    assert Founds(rs, 0, tolerance) && Founds(rs, 1, tolerance);
  }

  /** The partition is the same in every order of arrival exactly when matching is transitive on what arrived. */
  lemma OrderDoesNotMatterIff(arrivals: multiset<IndexedRelease>, tolerance: real)
    ensures OrderDoesNotMatter(arrivals, tolerance) <==> Transitive(arrivals, tolerance)
  {
    hide Same, Joined, SameRelease;
    if Transitive(arrivals, tolerance) {
      GroupsAreMatchesIff(arrivals, tolerance);
      hide Transitive;
    }
    if OrderDoesNotMatter(arrivals, tolerance) {
      forall x, y, z | multiset{x, y, z} <= arrivals && Same(x, y, tolerance) && Same(y, z, tolerance)
        ensures Same(x, z, tolerance)
      {
        if !Same(x, z, tolerance) {
          SplitsTheGroup(arrivals, x, y, z, tolerance);
        }
      }
    }
  }

  lemma SplitsTheGroup(arrivals: multiset<IndexedRelease>, x: IndexedRelease, y: IndexedRelease, z: IndexedRelease, tolerance: real)
    requires multiset{x, y, z} <= arrivals && Same(x, y, tolerance) && Same(y, z, tolerance) && !Same(x, z, tolerance)
    ensures !OrderDoesNotMatter(arrivals, tolerance)
  {
    hide Same, Joined, SameRelease;
    var together := MiddleFirst(arrivals, x, y, z, tolerance);
    var apart := MiddleLast(arrivals, x, y, z, tolerance);
  }
}
