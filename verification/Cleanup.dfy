/** The nightly reclaim of the transcode cache: what expired goes, then the oldest until the rest fits. */
module Cleanup {

  import opened Sorting

  datatype Directory = Directory(path: string, sessionId: string, modifiedAt: real, size: nat)

  datatype CleanupResult = CleanupResult(cacheBytes: int, removedDirectories: int, removedBytes: int, evictedDirectories: int)

  // ---- listings ----

  predicate DistinctPaths(ds: seq<Directory>)
  {
    forall i, j :: 0 <= i < j < |ds| ==> ds[i].path != ds[j].path
  }

  function Bytes(ds: seq<Directory>): int
  {
    if ds == [] then 0 else Bytes(ds[..|ds| - 1]) + ds[|ds| - 1].size
  }

  /** The listed directories that exist. */
  function Left(ds: seq<Directory>, present: set<string>): seq<Directory>
  {
    if ds == [] then []
    else Left(ds[..|ds| - 1], present) + if ds[|ds| - 1].path in present then [ds[|ds| - 1]] else []
  }

  /** The listed directories that are gone. */
  function Gone(ds: seq<Directory>, present: set<string>): seq<Directory>
  {
    if ds == [] then []
    else Gone(ds[..|ds| - 1], present) + if ds[|ds| - 1].path in present then [] else [ds[|ds| - 1]]
  }

  lemma {:induction false} LeftAre(ds: seq<Directory>, present: set<string>)
    ensures forall d :: d in Left(ds, present) <==> (d in ds && d.path in present)
    ensures DistinctPaths(ds) ==> DistinctPaths(Left(ds, present))
    decreases |ds|
  {
    if ds != [] {
      var front, last := ds[..|ds| - 1], ds[|ds| - 1];
      LeftAre(front, present);
      assert ds == front + [last];
      if DistinctPaths(ds) {
        forall d | d in front ensures d.path != last.path {
          var i :| 0 <= i < |front| && front[i] == d;
          assert ds[i] == d;
        }
      }
    }
  }

  lemma {:induction false} NotListed(ds: seq<Directory>, present: set<string>, path: string)
    requires forall d :: d in ds ==> d.path != path
    ensures Left(ds, present - {path}) == Left(ds, present) && Gone(ds, present - {path}) == Gone(ds, present)
  {
    if ds != [] {
      assert ds[|ds| - 1] in ds;
      NotListed(ds[..|ds| - 1], present, path);
    }
  }

  /** Removing one directory moves it, and only it, from the one side to the other. */
  lemma {:induction false} OneGone(ds: seq<Directory>, present: set<string>, d: Directory)
    requires DistinctPaths(ds) && d in ds && d.path in present
    ensures Bytes(Left(ds, present - {d.path})) == Bytes(Left(ds, present)) - d.size
    ensures Bytes(Gone(ds, present - {d.path})) == Bytes(Gone(ds, present)) + d.size
    ensures |Gone(ds, present - {d.path})| == |Gone(ds, present)| + 1
    decreases |ds|
  {
    hide Left, Gone, Bytes;
    var front, last, less := ds[..|ds| - 1], ds[|ds| - 1], present - {d.path};
    assert ds == front + [last];
    OneMoreListed(front, last, present);
    OneMoreListed(front, last, less);
    if d == last {
      assert forall i :: 0 <= i < |front| ==> front[i].path == ds[i].path != d.path;
      NotListed(front, present, d.path);
    } else {
      var i :| 0 <= i < |front| && front[i] == d;
      assert ds[i].path != ds[|ds| - 1].path;
      OneGone(front, present, d);
    }
  }

  lemma OneMoreListed(front: seq<Directory>, last: Directory, present: set<string>)
    ensures Bytes(Left(front + [last], present)) == Bytes(Left(front, present)) + if last.path in present then last.size else 0
    ensures Bytes(Gone(front + [last], present)) == Bytes(Gone(front, present)) + if last.path in present then 0 else last.size
    ensures |Gone(front + [last], present)| == |Gone(front, present)| + if last.path in present then 0 else 1
  {
    assert (front + [last])[..|front|] == front;
    BytesAppend(Left(front, present), last);
    BytesAppend(Gone(front, present), last);
    hide Bytes;
  }

  lemma {:induction false} AllLeft(ds: seq<Directory>, present: set<string>)
    requires forall d :: d in ds ==> d.path in present
    ensures Left(ds, present) == ds && Gone(ds, present) == []
  {
    if ds != [] { AllLeft(ds[..|ds| - 1], present); }
  }

  /** Nothing is lost or counted twice. */
  lemma {:induction false} BytesConserved(ds: seq<Directory>, present: set<string>)
    ensures Bytes(Left(ds, present)) + Bytes(Gone(ds, present)) == Bytes(ds)
  {
    if ds != [] {
      BytesConserved(ds[..|ds| - 1], present);
      var last := ds[|ds| - 1];
      BytesAppend(Left(ds[..|ds| - 1], present), last);
      BytesAppend(Gone(ds[..|ds| - 1], present), last);
    }
  }

  lemma BytesAppend(ds: seq<Directory>, d: Directory)
    ensures Bytes(ds + [d]) == Bytes(ds) + d.size
    ensures ds + [] == ds
  {
  }

  // ---- the order of eviction ----

  /** `(modified_at, str(path))`. */
  predicate OlderLe(a: Directory, b: Directory)
  {
    a.modifiedAt < b.modifiedAt || (a.modifiedAt == b.modifiedAt && TextLe(a.path, b.path))
  }

  lemma OlderIsTotal()
    ensures TotalPreorder(OlderLe)
  {
    forall a, b ensures OlderLe(a, b) || OlderLe(b, a) { TextTotal(a.path, b.path); }
    forall a, b, c | OlderLe(a, b) && OlderLe(b, c) ensures OlderLe(a, c) {
      if a.modifiedAt == b.modifiedAt == c.modifiedAt { TextTransitive(a.path, b.path, c.path); }
    }
  }

  // ---- what a run may do ----

  /** What the first pass takes away when removals of the `stubborn` paths fail. */
  function Expiring(ds: seq<Directory>, live: set<string>, minAgeSeconds: int, now: real, stubborn: set<string>): set<string>
  {
    set d | d in ds && d.sessionId !in live && now >= d.modifiedAt + minAgeSeconds as real && d.path !in stubborn :: d.path
  }

  /** What the second pass takes away in its first `n` rounds. */
  function Evicted(queue: seq<Directory>, n: nat, live: set<string>, stubborn: set<string>): set<string>
    requires n <= |queue|
  {
    set d | d in queue[..n] && d.sessionId !in live && d.path !in stubborn :: d.path
  }

  function Queue(listing: seq<Directory>, present: set<string>): seq<Directory>
  {
    Sort(OlderLe, Left(listing, present))
  }

  /** The second pass: oldest first through what is left, one round after another as long as the cache
      is over the cap. */
  ghost predicate Evicts(listing: seq<Directory>, live: set<string>, maxBytes: int, stubborn: set<string>,
                         before: set<string>, after: set<string>, rounds: nat)
  {
    var queue := Queue(listing, before);
    && rounds <= |queue|
    && after == before - Evicted(queue, rounds, live, stubborn)
    && (forall k: nat :: k < rounds ==> Bytes(Left(listing, before - Evicted(queue, k, live, stubborn))) > maxBytes)
    && (rounds < |queue| ==> Bytes(Left(listing, after)) <= maxBytes)
  }

  /** The counters say what is on disk. */
  predicate Counted(listing: seq<Directory>, present: set<string>, remaining: int, removedDirectories: int, removedBytes: int)
  {
    && remaining == Bytes(Left(listing, present))
    && removedDirectories == |Gone(listing, present)|
    && removedBytes == Bytes(Gone(listing, present))
  }

  lemma CountedOnce(listing: seq<Directory>, present: set<string>, remaining: int, removed: int, bytes: int, d: Directory)
    requires DistinctPaths(listing) && d in listing && d.path in present
    requires Counted(listing, present, remaining, removed, bytes)
    ensures Counted(listing, present - {d.path}, remaining - d.size, removed + 1, bytes + d.size)
  {
    hide Left, Gone, Bytes, DistinctPaths;
    OneGone(listing, present, d);
  }

  /** Modified earlier, or at the same time and first by path. */
  predicate WentBefore(gone: Directory, left: Directory)
  {
    if gone.modifiedAt == left.modifiedAt then TextLe(gone.path, left.path) && gone.path != left.path
    else left.modifiedAt > gone.modifiedAt
  }

  /** Whatever went in the second pass went before whatever it left and could have taken. */
  ghost predicate OldestWent(listing: seq<Directory>, live: set<string>, stubborn: set<string>, before: set<string>, after: set<string>)
  {
    forall gone, left ::
      (gone in listing && gone.path in before && gone.path !in after
      && left in listing && left.path in after && left.sessionId !in live && left.path !in stubborn) ==> WentBefore(gone, left)
  }

  lemma StrictlyOlder(a: Directory, b: Directory)
    requires OlderLe(a, b) && a.path != b.path
    ensures WentBefore(a, b)
  {
  }

  /** The queue of the second pass: what is left, in order. */
  lemma QueueIs(listing: seq<Directory>, present: set<string>)
    requires DistinctPaths(listing)
    ensures var queue := Queue(listing, present);
      && Sorted(OlderLe, queue) && DistinctPaths(queue)
      && forall d :: d in queue <==> (d in listing && d.path in present)
  {
    var left := Left(listing, present);
    LeftAre(listing, present);
    OlderIsTotal();
    SortSorted(OlderLe, left);
    SortPermutes(OlderLe, left);
    DistinctSorted(left, Sort(OlderLe, left));
  }

  lemma DistinctSorted(ds: seq<Directory>, sorted: seq<Directory>)
    requires DistinctPaths(ds) && multiset(sorted) == multiset(ds)
    ensures DistinctPaths(sorted)
  {
    assert Distinct(ds);
    DistinctCounts(ds);
    DistinctCounts(sorted);
    SameElements(ds, sorted);
    forall i, j | 0 <= i < j < |sorted| ensures sorted[i].path != sorted[j].path {
      assert sorted[i] in ds && sorted[j] in ds && sorted[i] != sorted[j];
      var k :| 0 <= k < |ds| && ds[k] == sorted[i];
      var l :| 0 <= l < |ds| && ds[l] == sorted[j];
      assert k < l || l < k;
    }
  }

  lemma ExpiringNext(ds: seq<Directory>, i: nat, live: set<string>, minAgeSeconds: int, now: real, stubborn: set<string>)
    requires i < |ds|
    ensures Expiring(ds[..i + 1], live, minAgeSeconds, now, stubborn)
         == Expiring(ds[..i], live, minAgeSeconds, now, stubborn)
            + if ds[i].sessionId !in live && now >= ds[i].modifiedAt + minAgeSeconds as real && ds[i].path !in stubborn
              then {ds[i].path} else {}
  {
    assert ds[..i + 1] == ds[..i] + [ds[i]];
  }

  lemma EvictedNext(queue: seq<Directory>, i: nat, live: set<string>, stubborn: set<string>)
    requires i < |queue|
    ensures Evicted(queue, i + 1, live, stubborn)
         == Evicted(queue, i, live, stubborn)
            + if queue[i].sessionId !in live && queue[i].path !in stubborn then {queue[i].path} else {}
  {
    assert queue[..i + 1] == queue[..i] + [queue[i]];
  }

  lemma NotYetExpired(ds: seq<Directory>, i: nat, live: set<string>, minAgeSeconds: int, now: real, stubborn: set<string>)
    requires DistinctPaths(ds) && i < |ds|
    ensures ds[i].path !in Expiring(ds[..i], live, minAgeSeconds, now, stubborn)
  {
    forall d | d in ds[..i] ensures d.path != ds[i].path {
      var k :| 0 <= k < i && ds[..i][k] == d;
    }
  }

  lemma NotYetEvicted(queue: seq<Directory>, i: nat, live: set<string>, stubborn: set<string>)
    requires DistinctPaths(queue) && i < |queue|
    ensures queue[i].path !in Evicted(queue, i, live, stubborn)
  {
    forall d | d in queue[..i] ensures d.path != queue[i].path {
      var k :| 0 <= k < i && queue[..i][k] == d;
    }
  }

  // ---- what follows for what is left ----

  /** The cap is met, or nothing is left but live sessions and directories that cannot be removed. */
  lemma CapOrStubborn(listing: seq<Directory>, live: set<string>, maxBytes: int, stubborn: set<string>,
                      before: set<string>, after: set<string>, rounds: nat)
    requires DistinctPaths(listing) && Evicts(listing, live, maxBytes, stubborn, before, after, rounds)
    ensures Bytes(Left(listing, after)) <= maxBytes
      || forall d :: d in Left(listing, after) ==> d.sessionId in live || d.path in stubborn
  {
    hide Bytes, Queue;
    QueueIs(listing, before);
    LeftAre(listing, after);
    var queue := Queue(listing, before);
    hide Left;
    assert queue[..|queue|] == queue;
  }

  /** Whatever was evicted is strictly older than whatever was left, unless that is live or cannot be removed. */
  lemma OldestFirst(listing: seq<Directory>, live: set<string>, maxBytes: int, stubborn: set<string>,
                    before: set<string>, after: set<string>, rounds: nat, gone: Directory, left: Directory)
    requires DistinctPaths(listing) && Evicts(listing, live, maxBytes, stubborn, before, after, rounds)
    requires gone in listing && gone.path in before && gone.path !in after
    requires left in listing && left.path in after && left.sessionId !in live && left.path !in stubborn
    ensures WentBefore(gone, left)
  {
    hide Bytes, Queue, OlderLe, Left;
    QueueIs(listing, before);
    var queue := Queue(listing, before);
    var i :| 0 <= i < |queue| && queue[i] == gone;
    var j :| 0 <= j < |queue| && queue[j] == left;
    EvictedAt(queue, rounds, live, stubborn, i);
    EvictedAt(queue, rounds, live, stubborn, j);
    assert OlderLe(queue[i], queue[j]);
    StrictlyOlder(gone, left);
  }

  lemma EvictedAt(queue: seq<Directory>, n: nat, live: set<string>, stubborn: set<string>, i: nat)
    requires DistinctPaths(queue) && n <= |queue| && i < |queue|
    ensures queue[i].path in Evicted(queue, n, live, stubborn)
        <==> (i < n && queue[i].sessionId !in live && queue[i].path !in stubborn)
  {
    if i < n { assert queue[..n][i] == queue[i]; }
    if queue[i].path in Evicted(queue, n, live, stubborn) {
      var d :| d in queue[..n] && d.sessionId !in live && d.path !in stubborn && d.path == queue[i].path;
      var k :| 0 <= k < n && queue[..n][k] == d;
      assert queue[k].path == queue[i].path;
    }
  }

  /** No live session loses its directory. */
  lemma LiveStay(listing: seq<Directory>, live: set<string>, minAgeSeconds: int, now: real, maxBytes: int,
                 first: set<string>, second: set<string>, before: set<string>, after: set<string>, rounds: nat, d: Directory)
    requires DistinctPaths(listing) && d in listing && d.path in before && d.sessionId in live
    requires Evicts(listing, live, maxBytes, second,
      before - Expiring(listing, live, minAgeSeconds, now, first), after, rounds)
    ensures d.path in after
  {
    hide Bytes, OlderLe, Left, Queue;
    var middle := before - Expiring(listing, live, minAgeSeconds, now, first);
    QueueIs(listing, middle);
    OnePathOne(listing);
    var queue := Queue(listing, middle);
    forall x | x in queue[..rounds] ensures x in listing { assert x in queue; }
  }

  lemma OnePathOne(ds: seq<Directory>)
    requires DistinctPaths(ds)
    ensures forall x, y :: x in ds && y in ds && x.path == y.path ==> x == y
  {
  }

  lemma NothingCounted(listing: seq<Directory>, present: set<string>)
    requires forall d :: d in listing ==> d.path in present
    ensures Counted(listing, present, Bytes(listing), 0, 0)
  {
    AllLeft(listing, present);
  }

  lemma NothingExpiring(live: set<string>, minAgeSeconds: int, now: real, stubborn: set<string>)
    ensures Expiring([], live, minAgeSeconds, now, stubborn) == {}
  {
  }

  lemma NothingEvicted(queue: seq<Directory>, live: set<string>, stubborn: set<string>)
    ensures Evicted(queue, 0, live, stubborn) == {}
  {
  }

  lemma OverTheCap(listing: seq<Directory>, present: set<string>, remaining: int, removed: int, bytes: int)
    requires Counted(listing, present, remaining, removed, bytes)
    ensures Bytes(Left(listing, present)) == remaining
  {
  }

  lemma ExpiredGone(listing: seq<Directory>, live: set<string>, minAgeSeconds: int, now: real, maxBytes: int,
                    first: set<string>, second: set<string>, before: set<string>, after: set<string>, rounds: nat)
    requires Evicts(listing, live, maxBytes, second,
      before - Expiring(listing, live, minAgeSeconds, now, first), after, rounds)
    ensures forall d :: d in Left(listing, after) && now - d.modifiedAt >= minAgeSeconds as real ==> d.sessionId in live || d.path in first
  {
    hide Bytes, Queue, Evicted;
    LeftAre(listing, after);
  }

  class TranscodeCache {
    var present: set<string>

    /** `rmtree` ignoring errors, then a look at whether it worked: not for the `stubborn` paths. */
    method Remove(path: string, stubborn: set<string>) returns (gone: bool)
      modifies this
      ensures present == if path in stubborn then old(present) else old(present) - {path}
      ensures gone <==> path !in present
    {
      if path !in stubborn {
        present := present - {path};
      }
      gone := path !in present;
    }

    /** The first pass: every expired directory of no live session goes, unless it cannot be removed. */
    method Expire(listing: seq<Directory>, live: set<string>, minAgeSeconds: int, now: real, stubborn: set<string>)
      returns (remaining: int, removedDirectories: int, removedBytes: int)
      requires DistinctPaths(listing) && forall d :: d in listing ==> d.path in present
      modifies this
      ensures present == old(present) - Expiring(listing, live, minAgeSeconds, now, stubborn)
      ensures Counted(listing, present, remaining, removedDirectories, removedBytes)
    {
      hide Left, Gone, Bytes, Counted, Expiring;
      remaining := Bytes(listing);
      removedDirectories := 0;
      removedBytes := 0;
      ghost var before := present;
      NothingCounted(listing, present);
      assert Expiring(listing[..0], live, minAgeSeconds, now, stubborn) == {} by { NothingExpiring(live, minAgeSeconds, now, stubborn); }
      for i := 0 to |listing|
        invariant present == before - Expiring(listing[..i], live, minAgeSeconds, now, stubborn)
        invariant Counted(listing, present, remaining, removedDirectories, removedBytes)
      {
        var directory := listing[i];
        ExpiringNext(listing, i, live, minAgeSeconds, now, stubborn);
        if directory.sessionId in live {
          continue;
        }
        if now - directory.modifiedAt < minAgeSeconds as real {
          continue;
        }
        NotYetExpired(listing, i, live, minAgeSeconds, now, stubborn);
        CountedOnce(listing, present, remaining, removedDirectories, removedBytes, directory);
        var gone := Remove(directory.path, stubborn);
        if gone {
          remaining := remaining - directory.size;
          removedDirectories := removedDirectories + 1;
          removedBytes := removedBytes + directory.size;
        }
      }
      assert listing[..|listing|] == listing;
    }

    /** The second pass, over what is left, oldest first. */
    method Evict(listing: seq<Directory>, live: set<string>, maxBytes: int, stubborn: set<string>,
                 remaining0: int, removed0: int, bytes0: int)
      returns (remaining: int, removedDirectories: int, removedBytes: int, evicted: int, ghost rounds: nat)
      requires DistinctPaths(listing) && Counted(listing, present, remaining0, removed0, bytes0)
      modifies this
      ensures Evicts(listing, live, maxBytes, stubborn, old(present), present, rounds)
      ensures Counted(listing, present, remaining, removedDirectories, removedBytes)
      ensures evicted == |Evicted(Queue(listing, old(present)), rounds, live, stubborn)|
    {
      hide Counted, Sort, Left, Gone, Bytes, OlderLe, Evicted, DistinctPaths, Sorted, Queue;
      remaining, removedDirectories, removedBytes, evicted := remaining0, removed0, bytes0, 0;
      ghost var before := present;
      var queue := Queue(listing, present);
      QueueIs(listing, present);
      NothingEvicted(queue, live, stubborn);
      rounds := 0;
      var i := 0;
      while i < |queue| && remaining > maxBytes
        invariant 0 <= i <= |queue| && rounds == i
        invariant present == before - Evicted(queue, i, live, stubborn) && Evicted(queue, i, live, stubborn) <= before
        invariant evicted == |Evicted(queue, i, live, stubborn)|
        invariant Counted(listing, present, remaining, removedDirectories, removedBytes)
        invariant forall k: nat :: k < i ==> Bytes(Left(listing, before - Evicted(queue, k, live, stubborn))) > maxBytes
      {
        var directory := queue[i];
        OverTheCap(listing, present, remaining, removedDirectories, removedBytes);
        EvictedNext(queue, i, live, stubborn);
        NotYetEvicted(queue, i, live, stubborn);
        i, rounds := i + 1, rounds + 1;
        if directory.sessionId in live {
          continue;
        }
        assert directory in listing && directory.path in present;
        CountedOnce(listing, present, remaining, removedDirectories, removedBytes, directory);
        var gone := Remove(directory.path, stubborn);
        if gone {
          remaining := remaining - directory.size;
          removedDirectories := removedDirectories + 1;
          removedBytes := removedBytes + directory.size;
          evicted := evicted + 1;
        }
      }
      OverTheCap(listing, present, remaining, removedDirectories, removedBytes);
    }

    /**
     * Expiry, then eviction. The removals that fail are those of the `first`
     * paths in the first pass and of the `second` paths in the second;
     * `middle` is what the first pass leaves.
     */
    method CleanUp(listing: seq<Directory>, live: set<string>, minAgeSeconds: int, maxBytes: int, now: real,
                   first: set<string>, second: set<string>)
      returns (result: CleanupResult, ghost middle: set<string>, ghost rounds: nat)
      requires DistinctPaths(listing) && forall d :: d in listing ==> d.path in present
      modifies this
      ensures middle == old(present) - Expiring(listing, live, minAgeSeconds, now, first)
      ensures Evicts(listing, live, maxBytes, second, middle, present, rounds)
      ensures result.cacheBytes == Bytes(Left(listing, present))
      ensures result.removedBytes == Bytes(Gone(listing, present))
      ensures result.removedDirectories == |Gone(listing, present)|
      ensures result.evictedDirectories == |Evicted(Queue(listing, middle), rounds, live, second)|
      ensures result.cacheBytes + result.removedBytes == Bytes(listing)
      ensures forall d :: d in listing && d.sessionId in live ==> d.path in present
      ensures forall d :: d in Left(listing, present) && now - d.modifiedAt >= minAgeSeconds as real ==>
        d.sessionId in live || d.path in first
      ensures result.cacheBytes <= maxBytes || forall d :: d in Left(listing, present) ==> d.sessionId in live || d.path in second
      ensures OldestWent(listing, live, second, middle, present)
    {
      hide Bytes, Gone, OlderLe, Evicts, Evicted, DistinctPaths, Queue, Expiring;
      ghost var before := present;
      var remaining, removedDirectories, removedBytes := Expire(listing, live, minAgeSeconds, now, first);
      middle := present;
      var evicted: int;
      remaining, removedDirectories, removedBytes, evicted, rounds :=
        Evict(listing, live, maxBytes, second, remaining, removedDirectories, removedBytes);
      result := CleanupResult(remaining, removedDirectories, removedBytes, evicted);
      BytesConserved(listing, present);
      CapOrStubborn(listing, live, maxBytes, second, middle, present, rounds);
      forall d | d in listing && d.sessionId in live ensures d.path in present {
        LiveStay(listing, live, minAgeSeconds, now, maxBytes, first, second, before, present, rounds, d);
      }
      ExpiredGone(listing, live, minAgeSeconds, now, maxBytes, first, second, before, present, rounds);
      forall gone, left | gone in listing && gone.path in middle && gone.path !in present
          && left in listing && left.path in present && left.sessionId !in live && left.path !in second
        ensures WentBefore(gone, left)
      {
        OldestFirst(listing, live, maxBytes, second, middle, present, rounds, gone, left);
      }
    }
  }
}
