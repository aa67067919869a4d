/** Python's `sorted`: a stable sort, and what determines its result. */
module Sorting {

  ghost predicate TotalPreorder<T(!new)>(le: (T, T) -> bool)
  {
    && (forall x, y :: le(x, y) || le(y, x))
    && (forall x, y, z :: le(x, y) && le(y, z) ==> le(x, z))
  }

  ghost predicate Sorted<T>(le: (T, T) -> bool, xs: seq<T>)
  {
    forall i, j :: 0 <= i < j < |xs| ==> le(xs[i], xs[j])
  }

  /** `x` came before everything in `xs`, so it goes in front of its equals. */
  function Insert<T>(le: (T, T) -> bool, x: T, xs: seq<T>): seq<T>
  {
    if xs == [] || le(x, xs[0]) then [x] + xs else [xs[0]] + Insert(le, x, xs[1..])
  }

  function Sort<T>(le: (T, T) -> bool, xs: seq<T>): seq<T>
  {
    if xs == [] then [] else Insert(le, xs[0], Sort(le, xs[1..]))
  }

  lemma {:induction false} InsertPermutes<T>(le: (T, T) -> bool, x: T, xs: seq<T>)
    ensures multiset(Insert(le, x, xs)) == multiset([x] + xs)
  {
    if xs == [] || le(x, xs[0]) {
    } else {
      InsertPermutes(le, x, xs[1..]);
      assert xs == [xs[0]] + xs[1..];
    }
  }

  lemma {:induction false} SortPermutes<T>(le: (T, T) -> bool, xs: seq<T>)
    ensures multiset(Sort(le, xs)) == multiset(xs)
    ensures |Sort(le, xs)| == |xs|
    ensures forall x :: x in Sort(le, xs) <==> x in xs
  {
    if xs != [] {
      SortPermutes(le, xs[1..]);
      InsertPermutes(le, xs[0], Sort(le, xs[1..]));
      assert xs == [xs[0]] + xs[1..];
    }
    SameElements(Sort(le, xs), xs);
  }

  lemma SameElements<T>(xs: seq<T>, ys: seq<T>)
    requires multiset(xs) == multiset(ys)
    ensures |xs| == |ys|
    ensures forall x :: x in xs <==> x in ys
  {
    assert |multiset(xs)| == |xs| && |multiset(ys)| == |ys|;
    forall x ensures x in xs <==> x in ys {
      assert x in xs <==> x in multiset(xs);
      assert x in ys <==> x in multiset(ys);
    }
  }

  lemma {:induction false} InsertSorted<T(!new)>(le: (T, T) -> bool, x: T, xs: seq<T>)
    requires TotalPreorder(le) && Sorted(le, xs)
    ensures Sorted(le, Insert(le, x, xs))
  {
    if xs == [] {
    } else if le(x, xs[0]) {
      forall j | 0 <= j < |xs| ensures le(x, xs[j]) { assert j > 0 ==> le(xs[0], xs[j]); }
    } else {
      InsertSorted(le, x, xs[1..]);
      InsertPermutes(le, x, xs[1..]);
      var rest := Insert(le, x, xs[1..]);
      SameElements(rest, [x] + xs[1..]);
      forall j | 0 <= j < |rest| ensures le(xs[0], rest[j]) {
        assert rest[j] in [x] + xs[1..];
      }
    }
  }

  lemma {:induction false} SortSorted<T(!new)>(le: (T, T) -> bool, xs: seq<T>)
    requires TotalPreorder(le)
    ensures Sorted(le, Sort(le, xs))
  {
    if xs != [] {
      SortSorted(le, xs[1..]);
      InsertSorted(le, xs[0], Sort(le, xs[1..]));
    }
  }

  lemma FirstIsLeast<T(!new)>(le: (T, T) -> bool, xs: seq<T>, x: T)
    requires TotalPreorder(le) && Sorted(le, xs) && x in xs
    ensures le(xs[0], x)
  {
  }

  lemma RestOf<T>(xs: seq<T>)
    requires xs != []
    ensures multiset(xs[1..]) == multiset(xs) - multiset{xs[0]}
    ensures forall x :: x in xs[1..] ==> x in xs
  {
    assert xs == [xs[0]] + xs[1..];
  }

  lemma RestSorted<T>(le: (T, T) -> bool, xs: seq<T>)
    requires xs != [] && Sorted(le, xs)
    ensures Sorted(le, xs[1..])
  {
  }

  lemma SameFirst<T(!new)>(le: (T, T) -> bool, xs: seq<T>, ys: seq<T>)
    requires TotalPreorder(le) && Sorted(le, xs) && Sorted(le, ys) && xs != [] && ys != []
    requires forall x :: x in xs <==> x in ys
    requires forall x, y :: x in xs && y in xs && le(x, y) && le(y, x) ==> x == y
    ensures xs[0] == ys[0]
  {
    hide TotalPreorder, Sorted;
    assert xs[0] in ys && ys[0] in xs;
    FirstIsLeast(le, xs, ys[0]);
    FirstIsLeast(le, ys, xs[0]);
  }

  lemma FirstAndRestEqual<T>(xs: seq<T>, ys: seq<T>)
    requires xs != [] && ys != [] && xs[0] == ys[0] && xs[1..] == ys[1..]
    ensures xs == ys
  {
    assert xs == [xs[0]] + xs[1..] && ys == [ys[0]] + ys[1..];
  }

  /** Elements the order tells apart have one sorted arrangement. */
  lemma {:induction false} SortedUnique<T(!new)>(le: (T, T) -> bool, xs: seq<T>, ys: seq<T>)
    requires TotalPreorder(le) && Sorted(le, xs) && Sorted(le, ys)
    requires multiset(xs) == multiset(ys)
    requires forall x, y :: x in xs && y in xs && le(x, y) && le(y, x) ==> x == y
    ensures xs == ys
    decreases |xs|
  {
    hide TotalPreorder, Sorted;
    SameElements(xs, ys);
    if xs != [] {
      SameFirst(le, xs, ys);
      RestOf(xs);
      RestOf(ys);
      RestSorted(le, xs);
      RestSorted(le, ys);
      SortedUnique(le, xs[1..], ys[1..]);
      FirstAndRestEqual(xs, ys);
    }
  }

  // ---- permutations ----

  function MapSeq<T, U>(f: T -> U, xs: seq<T>): (ys: seq<U>)
    ensures |ys| == |xs|
    ensures forall i :: 0 <= i < |xs| ==> ys[i] == f(xs[i])
  {
    if xs == [] then [] else [f(xs[0])] + MapSeq(f, xs[1..])
  }

  lemma {:induction false} MapConcat<T, U>(f: T -> U, xs: seq<T>, ys: seq<T>)
    ensures MapSeq(f, xs + ys) == MapSeq(f, xs) + MapSeq(f, ys)
  {
  }

  lemma TakeOut<T>(x: T, ys: seq<T>) returns (front: seq<T>, back: seq<T>)
    requires x in ys
    ensures ys == front + [x] + back
    ensures multiset(front + back) == multiset(ys) - multiset{x}
  {
    var i :| 0 <= i < |ys| && ys[i] == x;
    front, back := ys[..i], ys[i + 1..];
    assert ys == front + [x] + back;
    assert multiset(ys) == multiset(front) + multiset{x} + multiset(back);
  }

  lemma MapAround<T, U>(f: T -> U, front: seq<T>, x: T, back: seq<T>)
    ensures multiset(MapSeq(f, front + [x] + back)) == multiset(MapSeq(f, front + back)) + multiset{f(x)}
  {
    MapConcat(f, front + [x], back);
    MapConcat(f, front, [x]);
    MapConcat(f, front, back);
    assert MapSeq(f, [x]) == [f(x)];
    hide MapSeq;
  }

  lemma MapFirst<T, U>(f: T -> U, xs: seq<T>)
    requires xs != []
    ensures multiset(MapSeq(f, xs)) == multiset(MapSeq(f, xs[1..])) + multiset{f(xs[0])}
  {
  }

  lemma TakeOutMapped<T, U>(f: T -> U, x: T, ys: seq<T>) returns (rest: seq<T>)
    requires x in ys
    ensures multiset(rest) == multiset(ys) - multiset{x}
    ensures multiset(MapSeq(f, ys)) == multiset(MapSeq(f, rest)) + multiset{f(x)}
  {
    hide MapSeq;
    var front, back := TakeOut(x, ys);
    rest := front + back;
    MapAround(f, front, x, back);
  }

  lemma {:induction false} MapPermutes<T, U>(f: T -> U, xs: seq<T>, ys: seq<T>)
    requires multiset(xs) == multiset(ys)
    ensures multiset(MapSeq(f, xs)) == multiset(MapSeq(f, ys))
    decreases |xs|
  {
    SameElements(xs, ys);
    if xs != [] {
      hide MapSeq;
      var rest := TakeOutMapped(f, xs[0], ys);
      RestOf(xs);
      MapPermutes(f, xs[1..], rest);
      MapFirst(f, xs);
    }
  }

  predicate Distinct<T(==)>(xs: seq<T>)
  {
    forall i, j :: 0 <= i < j < |xs| ==> xs[i] != xs[j]
  }

  lemma {:induction false} DistinctCounts<T>(xs: seq<T>)
    ensures Distinct(xs) <==> forall x :: x in xs ==> multiset(xs)[x] == 1
  {
    if xs != [] {
      var rest := xs[1..];
      DistinctCounts(rest);
      assert xs == [xs[0]] + rest;
      assert multiset(xs) == multiset{xs[0]} + multiset(rest);
      if Distinct(xs) {
        assert xs[0] !in rest;
        assert Distinct(rest);
      }
      if forall x :: x in xs ==> multiset(xs)[x] == 1 {
        assert multiset(xs)[xs[0]] == 1;
        assert xs[0] !in multiset(rest) && xs[0] !in rest;
        forall x | x in rest ensures multiset(rest)[x] == 1 { assert x in multiset(rest); assert multiset(xs)[x] == 1; }
        forall i, j | 0 <= i < j < |xs| ensures xs[i] != xs[j] {
          assert xs[j] == rest[j - 1] && xs[j] in rest;
          if i > 0 { assert xs[i] == rest[i - 1]; }
        }
      }
    }
  }

  /** Without repetitions, having the same elements is being a permutation. */
  lemma SameDistinct<T>(xs: seq<T>, ys: seq<T>)
    requires Distinct(xs) && Distinct(ys) && forall x :: x in xs <==> x in ys
    ensures multiset(xs) == multiset(ys)
  {
    DistinctCounts(xs);
    DistinctCounts(ys);
    hide Distinct;
    forall x ensures multiset(xs)[x] == multiset(ys)[x] {
      assert x in multiset(xs) <==> x in xs;
      assert x in multiset(ys) <==> x in ys;
    }
  }

  // ---- lexicographic order ----

  predicate LexLe(a: seq<int>, b: seq<int>)
  {
    a == [] || (b != [] && (a[0] < b[0] || (a[0] == b[0] && LexLe(a[1..], b[1..]))))
  }

  lemma {:induction false} LexTotal(a: seq<int>, b: seq<int>)
    ensures LexLe(a, b) || LexLe(b, a)
    ensures LexLe(a, b) && LexLe(b, a) ==> a == b
  {
    if a != [] && b != [] {
      LexTotal(a[1..], b[1..]);
      assert a == [a[0]] + a[1..] && b == [b[0]] + b[1..];
    }
  }

  lemma {:induction false} LexTransitive(a: seq<int>, b: seq<int>, c: seq<int>)
    requires LexLe(a, b) && LexLe(b, c)
    ensures LexLe(a, c)
  {
    if a != [] && a[0] == b[0] == c[0] { LexTransitive(a[1..], b[1..], c[1..]); }
  }

  /** Text by code points, the order Python compares strings in. */
  function Codes(s: string): (cs: seq<int>)
    ensures |cs| == |s| && forall i :: 0 <= i < |s| ==> cs[i] == s[i] as int
  {
    seq(|s|, i requires 0 <= i < |s| => s[i] as int)
  }

  predicate TextLe(a: string, b: string)
  {
    LexLe(Codes(a), Codes(b))
  }

  lemma TextTotal(a: string, b: string)
    ensures TextLe(a, b) || TextLe(b, a)
    ensures TextLe(a, b) && TextLe(b, a) ==> a == b
  {
    LexTotal(Codes(a), Codes(b));
    if Codes(a) == Codes(b) {
      forall i | 0 <= i < |a| ensures a[i] == b[i] {
        assert Codes(a)[i] == Codes(b)[i];
      }
    }
  }

  lemma TextTransitive(a: string, b: string, c: string)
    requires TextLe(a, b) && TextLe(b, c)
    ensures TextLe(a, c)
  {
    LexTransitive(Codes(a), Codes(b), Codes(c));
  }
}
