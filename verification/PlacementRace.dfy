/** The other half: where the rollbacks of others can remove a directory a placement counts on, there is a run in
    which they do, between two of its calls, and it fails although none of its own calls did. */
module PlacementRace {
  import opened FileSystem
  import opened Placement
  import opened PlacementSafety
  import opened PlacementTheorems
  import opened PlacementProgress
  import opened PlacementSuccess
  import opened PlacementNeighbour
  import opened PlacementAlone

  // ---- the others come and go, one after the other ----

  /** No file is below `q`, and every directory from `q` down is on the way of somebody who has yet to come and go,
      or of somebody kept back. */
  ghost predicate Clearing(init: Disk, s: State, waiting: set<nat>, kept: set<nat>, a: nat, q: Path)
  {
    && Inv(init, s) && LaidOut(init, s.placers) && s.disk.files == init.files
    && a in s.placers && a !in waiting && waiting !! kept
    && (forall p :: p in init.files ==> !(q < p))
    && (forall c :: c in waiting ==> Waits(s, c, q))
    && (forall p :: p in s.disk.dirs && q <= p ==> OnSomeWay(s.placers, waiting + kept, p))
  }

  predicate Waits(s: State, c: nat, q: Path)
  {
    && c in s.placers && s.placers[c].pc == MakingDirectories(|s.placers[c].job.dir|, true)
    && s.placers[c].job.root < q <= s.placers[c].job.dir
  }

  predicate OnSomeWay(placers: map<nat, Placer>, ids: set<nat>, p: Path)
  {
    exists c :: c in ids && c in placers && p <= placers[c].job.dir
  }

  lemma ClearingFacts(init: Disk, s: State, waiting: set<nat>, kept: set<nat>, a: nat, q: Path)
    requires Clearing(init, s, waiting, kept, a, q)
    ensures Inv(init, s) && s.disk.Valid() && a in s.placers && a !in waiting && waiting !! kept
    ensures forall c :: c in waiting ==> Waits(s, c, q)
  {
  }

  lemma NextCanCome(init: Disk, s: State, waiting: set<nat>, kept: set<nat>, a: nat, q: Path, c: nat)
    requires Clearing(init, s, waiting, kept, a, q) && c in waiting
    ensures CanCome(s, c)
  {
    var job := s.placers[c].job;
    ClearingFacts(init, s, waiting, kept, a, q);
    assert Waits(s, c, q) && [] in s.disk.dirs;
    hide Inv, OnSomeWay;
    var p := Candidate(job, 1);
    assert q < p;
    if p in s.disk.dirs {
      assert OnSomeWay(s.placers, waiting + kept, p);
      TooDeep(init, s.placers, waiting + kept, c, p);
    }
  }

  lemma TooDeep(init: Disk, placers: map<nat, Placer>, ids: set<nat>, c: nat, p: Path)
    requires LaidOut(init, placers) && c in placers && OnSomeWay(placers, ids, p)
    ensures |p| <= |placers[c].job.dir|
  {
  }

  /** A directory below `q` that is still there once `c` has come and gone is on the way of somebody else. */
  lemma OthersLeft(init: Disk, s: State, waiting: set<nat>, kept: set<nat>, a: nat, q: Path, c: nat, s': State, stop: Path, p: Path)
    requires Clearing(init, s, waiting, kept, a, q) && c in waiting && c in s.placers && ComeAndGone(s, s', c, stop)
    requires p in s'.disk.dirs && q <= p && !(p <= s.placers[c].job.dir)
    ensures OnSomeWay(s.placers, waiting - {c} + kept, p)
  {
    hide Inv, LaidOut, Waits;
    assert p !in Prefixes(s.placers[c].job.dir, |s.placers[c].job.dir|);
    var d :| d in waiting + kept && d in s.placers && p <= s.placers[d].job.dir;
    assert d in waiting - {c} + kept;
  }

  /** Where the rollback of `c` stopped there is something on nobody's way but others'. */
  lemma LeftAbove(s: State, c: nat, s': State, stop: Path, q: Path, p: Path) returns (x: Path)
    requires c in s.placers && ComeAndGone(s, s', c, stop) && s.placers[c].job.root < q
    requires p in s'.disk.dirs && q <= p <= s.placers[c].job.dir
    requires forall f :: f in s.disk.files ==> !(q < f)
    ensures x in s'.disk.dirs && p < x && !(x <= s.placers[c].job.dir)
  {
    var dir := s.placers[c].job.dir;
    assert p == dir[..|p|] && stop == dir[..|stop|];
    assert p !in Between(stop, dir);
    assert p <= stop;
    assert stop in Prefixes(dir, |dir|) && stop in s'.disk.dirs;
    ChildOf(s'.disk, stop);
    x :| x != [] && Parent(x) == stop && (x in s'.disk.files || x in s'.disk.dirs);
    assert q < x;
    NextBetween(stop, dir, x);
  }

  lemma WayLeft(init: Disk, s: State, waiting: set<nat>, kept: set<nat>, a: nat, q: Path, c: nat, s': State, stop: Path, p: Path)
    requires Clearing(init, s, waiting, kept, a, q) && c in waiting && c in s.placers && ComeAndGone(s, s', c, stop)
    requires p in s'.disk.dirs && q <= p <= s.placers[c].job.dir
    ensures OnSomeWay(s.placers, waiting - {c} + kept, p)
  {
    hide Inv, LaidOut, ComeAndGone;
    assert Waits(s, c, q);
    var x := LeftAbove(s, c, s', stop, q, p);
    OthersLeft(init, s, waiting, kept, a, q, c, s', stop, x);
    var d :| d in waiting - {c} + kept && d in s.placers && x <= s.placers[d].job.dir;
    assert p <= s.placers[d].job.dir;
  }

  lemma NextBetween(low: Path, high: Path, p: Path)
    requires |p| == |low| + 1
    ensures p <= high ==> p in Between(low, high)
  {
    assert p <= high ==> p == high[..|low| + 1];
  }

  lemma ChildOf(d: Disk, q: Path)
    requires q in d.dirs && !d.EmptyDirectory(q)
    ensures exists x :: x != [] && Parent(x) == q && (x in d.files || x in d.dirs)
  {
  }

  lemma SameWay(placers: map<nat, Placer>, placers': map<nat, Placer>, ids: set<nat>, p: Path)
    requires placers'.Keys == placers.Keys && forall b :: b in placers ==> placers'[b].job == placers[b].job
    requires OnSomeWay(placers, ids, p)
    ensures OnSomeWay(placers', ids, p)
  {
    var d :| d in ids && d in placers && p <= placers[d].job.dir;
    assert p <= placers'[d].job.dir;
  }

  lemma OneFewer(init: Disk, s: State, waiting: set<nat>, kept: set<nat>, a: nat, q: Path, c: nat, s': State, stop: Path)
    requires Clearing(init, s, waiting, kept, a, q) && c in waiting && c in s.placers && ComeAndGone(s, s', c, stop)
    requires Inv(init, s')
    ensures Clearing(init, s', waiting - {c}, kept, a, q)
  {
    hide Inv, OnSomeWay;
    forall p | p in s'.disk.dirs && q <= p ensures OnSomeWay(s'.placers, waiting - {c} + kept, p) {
      if p <= s.placers[c].job.dir {
        WayLeft(init, s, waiting, kept, a, q, c, s', stop, p);
      } else {
        OthersLeft(init, s, waiting, kept, a, q, c, s', stop, p);
      }
      SameWay(s.placers, s'.placers, waiting - {c} + kept, p);
    }
    assert forall b :: b in s.placers ==> s'.placers[b].job == s.placers[b].job;
  }

  lemma GoneFacts(s: State, s': State, c: nat, stop: Path)
    requires c in s.placers && ComeAndGone(s, s', c, stop)
    ensures s'.placers.Keys == s.placers.Keys && forall b :: b in s.placers && b != c ==> s'.placers[b] == s.placers[b]
  {
  }

  lemma CanComeIs(s: State, c: nat)
    requires CanCome(s, c)
    ensures c in s.placers
  {
  }

  lemma InvAfter(init: Disk, s: State, schedule: Schedule)
    requires Inv(init, s) && Schedulable(s, schedule)
    ensures Inv(init, Run(s, schedule))
  {
    RunKeeps(init, s, schedule);
  }

  lemma {:induction false} OthersComeAndGo(init: Disk, s: State, waiting: set<nat>, kept: set<nat>, a: nat, q: Path)
    returns (schedule: Schedule, s': State)
    requires Clearing(init, s, waiting, kept, a, q)
    ensures OnlyOf(schedule, waiting) && Schedulable(s, schedule) && Run(s, schedule) == s'
    ensures Clearing(init, s', {}, kept, a, q)
    ensures s'.placers.Keys == s.placers.Keys && forall b :: b in s.placers && b !in waiting ==> s'.placers[b] == s.placers[b]
    decreases |waiting|
  {
    hide Clearing, Run, Schedulable, Inv, CanCome, Disk.Valid, ComeAndGone, Waits;
    if waiting == {} {
      schedule, s' := [], s;
      NoCalls(s);
    } else {
      var c :| c in waiting;
      ClearingFacts(init, s, waiting, kept, a, q);
      NextCanCome(init, s, waiting, kept, a, q, c);
      CanComeIs(s, c);
      var mine, stop, s1 := ComesAndGoes(s, c);
      InvAfter(init, s, mine);
      GoneFacts(s, s1, c, stop);
      OneFewer(init, s, waiting, kept, a, q, c, s1, stop);
      var theirs;
      theirs, s' := OthersComeAndGo(init, s1, waiting - {c}, kept, a, q);
      Twice(s, mine, theirs);
      schedule := mine + theirs;
    }
  }

  /** Nothing is left from `q` down. */
  ghost predicate Cleared(s: State, q: Path)
  {
    && (forall p :: p in s.disk.dirs ==> !(q <= p))
    && (forall p :: p in s.disk.files ==> !(q < p))
  }

  lemma ClearedFacts(init: Disk, s: State, a: nat, q: Path)
    requires Clearing(init, s, {}, {}, a, q)
    ensures Cleared(s, q)
  {
    hide Inv, LaidOut;
  }

  // ---- and the placement is stranded ----

  lemma Stranded(s: State, a: nat, q: Path, n: nat)
    requires a in s.placers && q <= s.placers[a].job.dir && s.placers[a].pc == Deeper(s.placers[a].job, |q|) && Cleared(s, q)
    ensures Schedulable(s, Calls(a, n + 1)) && Run(s, Calls(a, n + 1)).placers.Keys == s.placers.Keys
    ensures Run(s, Calls(a, n + 1)).placers[a].pc == Failed
  {
    hide Run, Schedulable;
    var job := s.placers[a].job;
    CallsSplit(a, n + 1);
    var p := if |q| == |job.dir| then Candidate(job, 1) else job.dir[..|q| + 1];
    assert q == job.dir[..|q|];
    assert q < p && Parent(p) == q;
    OneCall(s, a, OK, Go(Failed));
    var s1 := After(s, a, Go(Failed));
    FailedIdles(s1, a, n);
    Twice(s, [(a, OK)], Calls(a, n));
  }

  // ---- counting turns ----

  lemma {:induction false} TurnsSum(x: Schedule, y: Schedule, a: nat)
    ensures Turns(x + y, a) == Turns(x, a) + Turns(y, a)
    decreases |x|
  {
    if x == [] {
      assert x + y == y;
    } else {
      assert (x + y)[1..] == x[1..] + y;
      TurnsSum(x[1..], y, a);
    }
  }

  lemma {:induction false} TurnsOfCalls(a: nat, n: nat)
    ensures Turns(Calls(a, n), a) == n
  {
    if n > 0 {
      assert Calls(a, n)[1..] == Calls(a, n - 1);
      TurnsOfCalls(a, n - 1);
    }
  }

  predicate Works(schedule: Schedule, a: nat)
  {
    forall k :: 0 <= k < |schedule| && schedule[k].0 == a ==> schedule[k].1.Proceed?
  }

  lemma {:induction false} WorksHarmless(s: State, schedule: Schedule, a: nat)
    requires Schedulable(s, schedule) && a in s.placers && Works(schedule, a)
    ensures HarmlessFor(s, schedule, a)
    decreases |schedule|
  {
    hide Step;
    if schedule != [] {
      var (id, c) := schedule[0];
      StepSame(s, id, c);
      WorksHarmless(Step(s, id, c), schedule[1..], a);
    }
  }

  lemma CallsWork(a: nat, n: nat)
    ensures Works(Calls(a, n), a)
  {
    CallsAre(a, n);
  }

  lemma OthersWork(schedule: Schedule, ids: set<nat>, a: nat)
    requires OnlyOf(schedule, ids) && a !in ids
    ensures Works(schedule, a)
  {
  }

  /** A run after which `a` stands below a directory that has gone, and only has to go on. */
  ghost predicate Leads(s: State, schedule: Schedule, f: State, a: nat, q: Path)
  {
    && Schedulable(s, schedule) && Run(s, schedule) == f && Works(schedule, a)
    && a in f.placers && q <= f.placers[a].job.dir && f.placers[a].pc == Deeper(f.placers[a].job, |q|) && Cleared(f, q)
  }

  lemma ThenStranded(s: State, first: Schedule, f: State, a: nat, q: Path, n: nat) returns (schedule: Schedule)
    requires Leads(s, first, f, a, q)
    ensures Schedulable(s, schedule) && Works(schedule, a) && Turns(schedule, a) >= n
    ensures a in Run(s, schedule).placers && Run(s, schedule).placers[a].pc == Failed
  {
    hide Run, Schedulable, Turns, Cleared, Deeper;
    Stranded(f, a, q, n);
    Twice(s, first, Calls(a, n + 1));
    schedule := first + Calls(a, n + 1);
    CallsWork(a, n + 1);
    TurnsSum(first, Calls(a, n + 1), a);
    TurnsOfCalls(a, n + 1);
  }

  // ---- one removal is enough ----

  /** Those whose rollbacks would remove `q`. */
  function Removers(jobs: Jobs, a: nat, q: Path): set<nat>
  {
    set c | c in jobs && c != a && Removes(jobs, c, q)
  }

  /** Whoever would remove a directory below `q` would go on to remove `q`. */
  lemma RemoverBelow(jobs: Jobs, a: nat, b: nat, q: Path, c: nat, p: Path)
    requires Unnested(jobs) && Removes(jobs, b, q) && Removes(jobs, c, p) && c != a && q <= p
    ensures c in Removers(jobs, a, q)
  {
    SameLibrary(jobs, b, c, q);
  }

  /** At the start of the clearing, `s` is the initial state but for `a` and directories on its way down to `q`. */
  ghost predicate Fresh(start: State, s: State, a: nat, q: Path)
  {
    && Initial(start) && LaidOut(start.disk, start.placers) && Unnested(JobsOf(start.placers)) && Inv(start.disk, s)
    && a in start.placers && s.placers.Keys == start.placers.Keys && s.disk.files == start.disk.files
    && (forall b :: b in start.placers && b != a ==> s.placers[b] == start.placers[b])
    && s.placers[a].job == start.placers[a].job
    && (forall p :: p in s.disk.dirs && q < p ==> p in start.disk.dirs)
    && Removable(JobsOf(start.placers), a, q) && Clearable(start.disk, JobsOf(start.placers), a, q)
  }

  lemma FreshWay(start: State, s: State, a: nat, q: Path, p: Path) returns (c: nat)
    requires Fresh(start, s, a, q) && p in s.disk.dirs && q <= p
    ensures c in Removers(JobsOf(start.placers), a, q) && Removes(JobsOf(start.placers), c, p)
  {
    var jobs := JobsOf(start.placers);
    hide Inv, Initial, LaidOut, Unnested, Removes;
    var b :| b in jobs && b != a && Removes(jobs, b, q);
    if p == q {
      c := b;
    } else {
      assert Removable(jobs, a, p);
      c :| c in jobs && c != a && Removes(jobs, c, p);
      RemoverBelow(jobs, a, b, q, c, p);
    }
  }

  lemma FreshWaits(start: State, s: State, a: nat, q: Path, c: nat)
    requires Fresh(start, s, a, q) && c in Removers(JobsOf(start.placers), a, q)
    ensures Waits(s, c, q) && c != a && c in start.placers
  {
    hide Inv, LaidOut, Unnested, Removable, Clearable, JobsOk;
    var jobs := JobsOf(start.placers);
    assert c in jobs && c != a && Removes(jobs, c, q);
    assert s.placers[c] == start.placers[c];
    assert jobs[c] == start.placers[c].job;
  }

  lemma FreshFacts(start: State, s: State, a: nat, q: Path)
    requires Fresh(start, s, a, q)
    ensures Inv(start.disk, s) && s.disk.files == start.disk.files && a in s.placers
    ensures forall p :: p in start.disk.files ==> !(q < p)
    ensures s.placers.Keys == start.placers.Keys && forall b :: b in start.placers ==> s.placers[b].job == start.placers[b].job
    ensures LaidOut(start.disk, start.placers)
  {
    hide Inv, LaidOut, Unnested, Removable, Initial;
  }

  lemma SameLayout(d: Disk, placers: map<nat, Placer>, placers': map<nat, Placer>)
    requires LaidOut(d, placers) && placers'.Keys == placers.Keys
    requires forall b :: b in placers ==> placers'[b].job == placers[b].job
    ensures LaidOut(d, placers')
  {
  }

  /** Any choice of whom to keep back will do, as long as every directory is on the way of a remover. */
  lemma FreshClearing(start: State, s: State, waiting: set<nat>, kept: set<nat>, a: nat, q: Path)
    requires Fresh(start, s, a, q) && waiting !! kept && waiting <= Removers(JobsOf(start.placers), a, q)
    requires forall p :: p in s.disk.dirs && q <= p ==> OnSomeWay(start.placers, waiting + kept, p)
    ensures Clearing(start.disk, s, waiting, kept, a, q)
  {
    hide Fresh, LaidOut, Inv, OnSomeWay, Waits, Removers;
    FreshFacts(start, s, a, q);
    SameLayout(start.disk, start.placers, s.placers);
    forall p | p in s.disk.dirs && q <= p ensures OnSomeWay(s.placers, waiting + kept, p) {
      SameWay(start.placers, s.placers, waiting + kept, p);
    }
    forall c | c in waiting ensures Waits(s, c, q) && c != a { FreshWaits(start, s, a, q, c); }
  }

  lemma StartFacts(s: State, a: nat)
    requires Initial(s) && LaidOut(s.disk, s.placers) && a in s.placers
    ensures Inv(s.disk, s) && s.disk.Valid() && s.placers[a].pc == MakingDirectories(|s.placers[a].job.dir|, true)
    ensures Passable(s.disk, s.placers[a].job.dir)
  {
    InitialInv(s);
    hide Inv;
  }

  /** The last directory, or one that has to be made: `a` makes it, everybody else comes and goes. */
  lemma OneRemoval(s: State, a: nat, q: Path) returns (schedule: Schedule, f: State)
    requires Initial(s) && LaidOut(s.disk, s.placers) && Unnested(JobsOf(s.placers))
    requires a in s.placers && q <= s.placers[a].job.dir
    requires Removable(JobsOf(s.placers), a, q) && Clearable(s.disk, JobsOf(s.placers), a, q)
    requires q == s.placers[a].job.dir || q !in s.disk.dirs
    ensures Leads(s, schedule, f, a, q)
  {
    hide Run, Schedulable, Inv, Initial, LaidOut, Clearing, Removable, Clearable, Prefixes, Unnested, Disk.Valid, Cleared,
      Passable, Deeper, Removers;
    var dir := s.placers[a].job.dir;
    assert q == dir[..|q|];
    StartFacts(s, a);
    var n, s1 := MakesDirectories(s, a, |q|);
    CallsAre(a, n);
    InvAfter(s.disk, s, Calls(a, n));
    var waiting := Removers(JobsOf(s.placers), a, q);
    MadeFresh(s, s1, a, q);
    forall p | p in s1.disk.dirs && q <= p ensures OnSomeWay(s.placers, waiting + {}, p) {
      var c := FreshWay(s, s1, a, q, p);
      RemoverOnWay(s.placers, c, waiting + {}, p);
    }
    hide Fresh;
    FreshClearing(s, s1, waiting, {}, a, q);
    var theirs, s2 := OthersComeAndGo(s.disk, s1, waiting, {}, a, q);
    ClearedFacts(s.disk, s2, a, q);
    Twice(s, Calls(a, n), theirs);
    schedule, f := Calls(a, n) + theirs, s2;
    NotAmong(JobsOf(s.placers), a, q);
    OthersWork(theirs, waiting, a);
  }

  lemma NotAmong(jobs: Jobs, a: nat, q: Path)
    ensures a !in Removers(jobs, a, q)
  {
  }

  lemma RemoverOnWay(placers: map<nat, Placer>, c: nat, ids: set<nat>, p: Path)
    requires c in ids && Removes(JobsOf(placers), c, p)
    ensures OnSomeWay(placers, ids, p)
  {
    assert c in placers && p <= placers[c].job.dir;
  }

  lemma MadeFresh(s: State, s1: State, a: nat, q: Path)
    requires Initial(s) && LaidOut(s.disk, s.placers) && Unnested(JobsOf(s.placers)) && Inv(s.disk, s1)
    requires a in s.placers && q <= s.placers[a].job.dir
    requires Removable(JobsOf(s.placers), a, q) && Clearable(s.disk, JobsOf(s.placers), a, q)
    requires s1 == At(s, a, Deeper(s.placers[a].job, |q|), s.disk.(dirs := s.disk.dirs + Prefixes(s.placers[a].job.dir, |q|)))
    ensures Fresh(s, s1, a, q)
  {
    hide Inv, Initial, LaidOut, Unnested, Removable, Clearable, Deeper;
    assert forall p :: p in Prefixes(s.placers[a].job.dir, |q|) ==> |p| <= |q|;
  }

  // ---- two removals, one after the other ----

  lemma StartIsFresh(s: State, a: nat, q: Path)
    requires Initial(s) && LaidOut(s.disk, s.placers) && Unnested(JobsOf(s.placers)) && a in s.placers
    requires Removable(JobsOf(s.placers), a, q) && Clearable(s.disk, JobsOf(s.placers), a, q)
    ensures Fresh(s, s, a, q)
  {
    hide Inv, LaidOut, Unnested, Removable, Clearable, Initial;
    InitialInv(s);
    ValidFiles(s);
  }

  lemma ValidFiles(s: State)
    requires Initial(s)
    ensures s.disk.Valid()
  {
  }

  /** Once all is cleared `a` makes its directories down to `q`, and nothing else is there. */
  lemma MakesAgain(init: Disk, s: State, a: nat, q: Path) returns (n: nat, s': State)
    requires Clearing(init, s, {}, {}, a, q) && q <= s.placers[a].job.dir
    requires s.placers[a].pc == MakingDirectories(|s.placers[a].job.dir|, true)
    ensures Schedulable(s, Calls(a, n)) && Run(s, Calls(a, n)) == s'
    ensures s' == At(s, a, Deeper(s.placers[a].job, |q|), s'.disk) && Inv(init, s') && s'.disk.files == init.files
    ensures forall p :: p in s'.disk.dirs && q <= p ==> p == q
    ensures q in s'.disk.dirs
  {
    hide Run, Schedulable, Inv, Clearing, Passable, Disk.Valid, Deeper;
    ClearedFacts(init, s, a, q);
    ClearingFacts(init, s, {}, {}, a, q);
    WayIsPassable(init, s, a, q);
    var dir := s.placers[a].job.dir;
    assert q == dir[..|q|];
    n, s' := MakesDirectories(s, a, |q|);
    InvAfter(init, s, Calls(a, n));
    assert q in Prefixes(dir, |q|) && forall p :: p in Prefixes(dir, |q|) ==> |p| <= |q|;
  }

  lemma WayIsPassable(init: Disk, s: State, a: nat, q: Path)
    requires Clearing(init, s, {}, {}, a, q)
    ensures Passable(s.disk, s.placers[a].job.dir) && s.disk.files == init.files
    ensures forall p :: p in s.disk.files ==> !(q < p)
  {
    assert [] in s.disk.dirs;
    hide Inv;
  }

  lemma LastOne(init: Disk, s: State, s': State, a: nat, q: Path, b: nat)
    requires Clearing(init, s, {}, {}, a, q) && Inv(init, s') && s'.disk.files == init.files
    requires s'.placers.Keys == s.placers.Keys && forall c :: c in s.placers ==> s'.placers[c].job == s.placers[c].job
    requires Waits(s', b, q) && b != a && forall p :: p in s'.disk.dirs && q <= p ==> p == q
    ensures Clearing(init, s', {b}, {}, a, q)
  {
    hide Inv, LaidOut;
    SameLayout(init, s.placers, s'.placers);
    assert forall p :: p in s'.disk.dirs && q <= p ==> OnSomeWay(s'.placers, {b} + {}, p) by { assert b in {b} + {}; }
    hide OnSomeWay, Waits;
  }

  /** `b` has no directory of its own, so it can come last: the others clear `q`, `a` makes it again, `b` takes it away. */
  lemma OneMoreComes(s: State, a: nat, q: Path, b: nat, c: nat) returns (schedule: Schedule, f: State)
    requires Initial(s) && LaidOut(s.disk, s.placers) && Unnested(JobsOf(s.placers))
    requires a in s.placers && q <= s.placers[a].job.dir
    requires Removable(JobsOf(s.placers), a, q) && Clearable(s.disk, JobsOf(s.placers), a, q)
    requires b != a && c != a && b != c && Removes(JobsOf(s.placers), b, q) && Removes(JobsOf(s.placers), c, q)
    requires !HasPrivate(s.disk, JobsOf(s.placers), a, b, q)
    ensures Leads(s, schedule, f, a, q)
  {
    hide Run, Schedulable, Inv, Initial, LaidOut, Clearing, Removable, Clearable, Unnested, Disk.Valid, Cleared, Passable, Deeper,
      Removers, HasPrivate, Fresh, Waits, Removes;
    var jobs := JobsOf(s.placers);
    var all := Removers(jobs, a, q);
    var waiting := all - {b};
    StartFacts(s, a);
    StartIsFresh(s, a, q);
    AreRemovers(jobs, a, q, b, c);
    forall p | p in s.disk.dirs && q <= p ensures OnSomeWay(s.placers, waiting + {}, p) {
      var d := AnotherWay(s, a, q, b, c, p);
      RemoverOnWay(s.placers, d, waiting + {}, p);
    }
    FreshClearing(s, s, waiting, {}, a, q);
    var first, s1 := OthersComeAndGo(s.disk, s, waiting, {}, a, q);
    NotAmong(jobs, a, q);
    FreshWaits(s, s, a, q, b);
    var n, s2 := MakesAgain(s.disk, s1, a, q);
    StillWaits(s, s2, b, q);
    LastOne(s.disk, s1, s2, a, q, b);
    var last, s3 := OthersComeAndGo(s.disk, s2, {b}, {}, a, q);
    ClearedFacts(s.disk, s3, a, q);
    Twice(s, first, Calls(a, n));
    Twice(s, first + Calls(a, n), last);
    schedule, f := first + Calls(a, n) + last, s3;
    CallsWork(a, n);
    OthersWork(first, waiting, a);
    OthersWork(last, {b}, a);
  }

  lemma StillWaits(s: State, s': State, b: nat, q: Path)
    requires Waits(s, b, q) && b in s'.placers && s'.placers[b] == s.placers[b]
    ensures Waits(s', b, q)
  {
  }

  lemma AreRemovers(jobs: Jobs, a: nat, q: Path, b: nat, c: nat)
    requires b != a && c != a && Removes(jobs, b, q) && Removes(jobs, c, q)
    ensures b in Removers(jobs, a, q) && c in Removers(jobs, a, q)
  {
  }

  /** Where `b` has nothing of its own every directory is on the way of another remover. */
  lemma AnotherWay(s: State, a: nat, q: Path, b: nat, c: nat, p: Path) returns (d: nat)
    requires Fresh(s, s, a, q) && p in s.disk.dirs && q <= p
    requires b != a && c != a && b != c && Removes(JobsOf(s.placers), b, q) && Removes(JobsOf(s.placers), c, q)
    requires !HasPrivate(s.disk, JobsOf(s.placers), a, b, q)
    ensures d in Removers(JobsOf(s.placers), a, q) && d != b && Removes(JobsOf(s.placers), d, p)
  {
    var jobs := JobsOf(s.placers);
    d := FreshWay(s, s, a, q, p);
    assert Unnested(jobs);
    hide Fresh, Unnested, Removers;
    if d == b {
      if p == q {
        d := c;
        AreRemovers(jobs, a, q, b, c);
      } else {
        assert q < p && !Private(s.disk, jobs, a, b, p);
        d :| d in jobs && d != a && d != b && Removes(jobs, d, p);
        RemoverBelow(jobs, a, b, q, d, p);
      }
    }
  }

  // ---- two removals, one begun before the other ----

  lemma WaitingNext(init: Disk, s: State, b: nat, c: nat, a: nat, q: Path)
    requires Clearing(init, s, {}, {b, c}, a, q) && Waits(s, c, q) && c != a && b != c
    ensures Clearing(init, s, {c}, {b}, a, q)
  {
    hide Inv, LaidOut, OnSomeWay, Waits;
    assert {} + {b, c} == {c} + {b};
  }

  lemma WayOfTwo(init: Disk, s: State, b: nat, c: nat, a: nat, q: Path, p: Path)
    requires Clearing(init, s, {}, {b, c}, a, q) && p in s.disk.dirs && q <= p && b in s.placers && c in s.placers
    ensures p <= s.placers[b].job.dir || p <= s.placers[c].job.dir
  {
    hide Inv, LaidOut;
    assert OnSomeWay(s.placers, {} + {b, c}, p);
    var d :| d in {} + {b, c} && d in s.placers && p <= s.placers[d].job.dir;
  }

  lemma WayOfOne(init: Disk, s: State, b: nat, c: nat, a: nat, q: Path, p: Path)
    requires Clearing(init, s, {}, {b, c}, a, q) && Waits(s, b, q) && Waits(s, c, q) && PartAt(JobsOf(s.placers), b, c, q)
    requires p in s.disk.dirs && q < p && p[|q|] == s.placers[c].job.dir[|q|]
    ensures p <= s.placers[c].job.dir
  {
    hide Clearing;
    WayOfTwo(init, s, b, c, a, q, p);
  }

  lemma MadeWay(d: Disk, d': Disk, dir: Path)
    requires d'.dirs == d.dirs + Prefixes(dir, |dir|)
    ensures forall p :: p in d'.dirs && p !in d.dirs ==> p <= dir
    ensures forall k :: 0 <= k <= |dir| ==> dir[..k] in d'.dirs
  {
  }

  /** Where the two ways part, `c` has its own to itself. */
  lemma OwnWay(init: Disk, s: State, s': State, b: nat, c: nat, a: nat, q: Path)
    requires Clearing(init, s, {}, {b, c}, a, q) && Waits(s, b, q) && Waits(s, c, q) && PartAt(JobsOf(s.placers), b, c, q)
    requires s'.disk.files == s.disk.files
    requires s'.disk.dirs == s.disk.dirs + Prefixes(s.placers[c].job.dir, |s.placers[c].job.dir|)
    ensures OnlyWay(s'.disk, q, s.placers[c].job.dir)
  {
    hide Clearing, Prefixes, PartAt;
    var dir := s.placers[c].job.dir;
    NoFilesBelow(init, s, {}, {b, c}, a, q);
    MadeWay(s.disk, s'.disk, dir);
    forall p | p in s'.disk.dirs && |q| < |dir| && |q| < |p| && q < p && p[|q|] == dir[|q|] ensures p <= dir {
      if p in s.disk.dirs { WayOfOne(init, s, b, c, a, q, p); }
    }
  }

  lemma NoFilesBelow(init: Disk, s: State, waiting: set<nat>, kept: set<nat>, a: nat, q: Path)
    requires Clearing(init, s, waiting, kept, a, q)
    ensures s.disk.files == init.files && forall p :: p in s.disk.files ==> !(q < p)
  {
    hide Inv, LaidOut, OnSomeWay, Waits;
  }

  lemma LayoutHere(init: Disk, s: State, waiting: set<nat>, kept: set<nat>, a: nat, q: Path)
    requires Clearing(init, s, waiting, kept, a, q)
    ensures LaidOut(init, s.placers) && a in s.placers && forall p :: p in init.files ==> !(q < p)
  {
    hide Inv, LaidOut, OnSomeWay, Waits;
  }

  lemma NotBetween(dirs: set<Path>, dir: Path, q: Path, p: Path)
    requires q <= p && p in dirs + Prefixes(dir, |dir|) - Between(q, dir)
    ensures p == q || (p in dirs && !(p <= dir))
  {
    if p <= dir { assert p == dir[..|p|]; }
  }

  /** Then only the way of `b` is left. */
  lemma OneWayLeft(init: Disk, s: State, s': State, b: nat, c: nat, a: nat, q: Path)
    requires Clearing(init, s, {}, {b, c}, a, q) && Waits(s, b, q) && Waits(s, c, q) && b != a && b != c && Inv(init, s')
    requires s'.placers == s.placers[c := s.placers[c].(pc := RemovingParents(q))] && s'.disk.files == s.disk.files
    requires
      var dir := s.placers[c].job.dir;
      s'.disk.dirs == s.disk.dirs + Prefixes(dir, |dir|) - Between(q, dir)
    ensures Clearing(init, s', {b}, {}, a, q)
  {
    hide Inv, LaidOut, Clearing, Prefixes, Between, OnSomeWay;
    var dir := s.placers[c].job.dir;
    NoFilesBelow(init, s, {}, {b, c}, a, q);
    LayoutHere(init, s, {}, {b, c}, a, q);
    SameLayout(init, s.placers, s'.placers);
    StillWaits(s, s', b, q);
    forall p | p in s'.disk.dirs && q <= p ensures OnSomeWay(s'.placers, {b} + {}, p) {
      NotBetween(s.disk.dirs, dir, q, p);
      if p != q { WayOfTwo(init, s, b, c, a, q, p); }
      WaiterOnWay(s', b, q, p);
    }
    Assembled(init, s', {b}, {}, a, q);
  }

  lemma WaiterOnWay(s: State, b: nat, q: Path, p: Path)
    requires Waits(s, b, q) && (p == q || p <= s.placers[b].job.dir)
    ensures OnSomeWay(s.placers, {b} + {}, p)
  {
    assert b in {b} + {};
  }

  lemma Assembled(init: Disk, s: State, waiting: set<nat>, kept: set<nat>, a: nat, q: Path)
    requires Inv(init, s) && LaidOut(init, s.placers) && s.disk.files == init.files
    requires a in s.placers && a !in waiting && waiting !! kept
    requires forall p :: p in init.files ==> !(q < p)
    requires forall c :: c in waiting ==> Waits(s, c, q)
    requires forall p :: p in s.disk.dirs && q <= p ==> OnSomeWay(s.placers, waiting + kept, p)
    ensures Clearing(init, s, waiting, kept, a, q)
  {
    hide Inv, LaidOut, OnSomeWay, Waits;
  }

  /** Both rollbacks come up to `q`; that of `c` waits there while `b` removes it and `a` makes it again. */
  lemma OneHasWaited(s: State, c: nat, q: Path) returns (schedule: Schedule, s': State)
    requires c in s.placers && s.placers[c].pc == RemovingParents(q) && s.placers[c].job.root < q
    requires forall p :: p in s.disk.dirs && q <= p ==> p == q
    requires forall p :: p in s.disk.files ==> !(q < p)
    ensures OnlyOf(schedule, {c}) && Schedulable(s, schedule) && Run(s, schedule) == s'
    ensures s' == At(s, c, Failed, s'.disk) && Cleared(s', q)
  {
    hide Run, Schedulable;
    var stop;
    stop, s' := Climbs(s, c, q, |q| + 1);
    schedule := Calls(c, |q| + 1);
    CallsAre(c, |q| + 1);
    assert q == q[..|q|];
    if stop == q {
      if q in s.disk.dirs { ChildOf(s'.disk, q); }
    }
  }

  /** The ways of `b` and `c` part at `q`: `c` can come up to `q` and wait, `b` removes it, `a` makes it again, `c` goes on. */
  lemma OneWaits(s: State, a: nat, q: Path, b: nat, c: nat) returns (schedule: Schedule, f: State)
    requires Initial(s) && LaidOut(s.disk, s.placers) && Unnested(JobsOf(s.placers))
    requires a in s.placers && q <= s.placers[a].job.dir
    requires Removable(JobsOf(s.placers), a, q) && Clearable(s.disk, JobsOf(s.placers), a, q)
    requires b != a && c != a && b != c && Removes(JobsOf(s.placers), b, q) && Removes(JobsOf(s.placers), c, q)
    requires PartAt(JobsOf(s.placers), b, c, q)
    ensures Leads(s, schedule, f, a, q)
  {
    hide Run, Schedulable, Inv, Initial, LaidOut, Clearing, Removable, Clearable, Unnested, Disk.Valid, Cleared, Passable, Deeper,
      Removers, HasPrivate, Fresh, Removes, CanCome, OnlyWay, Prefixes, Between, PartAt;
    var jobs := JobsOf(s.placers);
    var waiting := Removers(jobs, a, q) - {b, c};
    StartFacts(s, a);
    StartIsFresh(s, a, q);
    AreRemovers(jobs, a, q, b, c);
    forall p | p in s.disk.dirs && q <= p ensures OnSomeWay(s.placers, waiting + {b, c}, p) {
      var d := FreshWay(s, s, a, q, p);
      RemoverOnWay(s.placers, d, waiting + {b, c}, p);
    }
    FreshClearing(s, s, waiting, {b, c}, a, q);
    NotAmong(jobs, a, q);
    FreshWaits(s, s, a, q, b);
    FreshWaits(s, s, a, q, c);
    var one, s1 := OthersComeAndGo(s.disk, s, waiting, {b, c}, a, q);
    StillWaits(s, s1, b, q);
    StillWaits(s, s1, c, q);
    var two, s3 := ComesAndWaits(s.disk, s1, b, c, a, q, jobs);
    var three, s4 := OthersComeAndGo(s.disk, s3, {b}, {}, a, q);
    var n, s5 := MakesAgain(s.disk, s4, a, q);
    NoFilesBelow(s.disk, s4, {}, {}, a, q);
    var five, s6 := OneHasWaited(s5, c, q);
    Twice(s, one, two);
    Twice(s, one + two, three);
    Twice(s, one + two + three, Calls(a, n));
    Twice(s, one + two + three + Calls(a, n), five);
    schedule, f := one + two + three + Calls(a, n) + five, s6;
    CallsWork(a, n);
    OthersWork(one, waiting, a);
    OthersWork(two, {c}, a);
    OthersWork(three, {b}, a);
    OthersWork(five, {c}, a);
  }

  lemma ComesAndWaits(init: Disk, s: State, b: nat, c: nat, a: nat, q: Path, jobs: Jobs) returns (schedule: Schedule, s': State)
    requires Clearing(init, s, {}, {b, c}, a, q) && Waits(s, b, q) && Waits(s, c, q) && b != a && c != a && b != c
    requires b in jobs && c in jobs && PartAt(jobs, b, c, q) && jobs[b] == s.placers[b].job && jobs[c] == s.placers[c].job
    ensures OnlyOf(schedule, {c}) && Schedulable(s, schedule) && Run(s, schedule) == s'
    ensures Clearing(init, s', {b}, {}, a, q)
    ensures s'.placers == s.placers[c := s.placers[c].(pc := RemovingParents(q))]
  {
    hide Run, Schedulable, Inv, Clearing, Disk.Valid, CanCome, OnlyWay, Prefixes, Between;
    ClearingFacts(init, s, {}, {b, c}, a, q);
    WaitingNext(init, s, b, c, a, q);
    NextCanCome(init, s, {c}, {b}, a, q, c);
    var dir := s.placers[c].job.dir;
    var one, s1 := ComesAndFails(s, c);
    OwnWay(init, s, s1, b, c, a, q);
    var n;
    n, s' := ClimbsTo(s1, c, dir, q);
    CallsAre(c, n);
    Twice(s, one, Calls(c, n));
    schedule := one + Calls(c, n);
    AtTwice(s, c, s1.placers[c].pc, s1.disk, RemovingParents(q), s'.disk);
    InvAfter(init, s, schedule);
    OneWayLeft(init, s, s', b, c, a, q);
  }

  // ---- exactly when ----

  lemma TwoRemovers(init: Disk, jobs: Jobs, a: nat, q: Path) returns (b: nat, c: nat)
    requires RemovableTwice(init, jobs, a, q)
    ensures b != a && c != a && b != c && Removes(jobs, b, q) && Removes(jobs, c, q) && b in jobs && c in jobs
    ensures PartAt(jobs, b, c, q) || !HasPrivate(init, jobs, a, b, q)
  {
    b, c :| b != a && c != a && b != c && Removes(jobs, b, q) && Removes(jobs, c, q)
      && (PartAt(jobs, b, c, q) || !HasPrivate(init, jobs, a, b, q));
  }

  /** Wherever others can endanger a directory on its way, there is a run in which all calls of the placement
      work and it fails. */
  lemma Strands(s: State, a: nat, n: nat) returns (schedule: Schedule)
    requires Initial(s) && LaidOut(s.disk, s.placers) && Unnested(JobsOf(s.placers))
    requires a in s.placers && Vulnerable(s.disk, JobsOf(s.placers), a)
    ensures Schedulable(s, schedule) && Works(schedule, a) && Turns(schedule, a) >= n
    ensures a in Run(s, schedule).placers && Run(s, schedule).placers[a].pc == Failed
  {
    hide Run, Schedulable, Initial, LaidOut, Removable, Clearable, Unnested, Leads, Removes, PartAt, HasPrivate, Turns;
    var jobs := JobsOf(s.placers);
    var k :| 0 <= k <= |jobs[a].dir| && Endangered(s.disk, jobs, a, jobs[a].dir[..k]);
    var q := jobs[a].dir[..k];
    var first, f;
    if q == jobs[a].dir || q !in s.disk.dirs {
      first, f := OneRemoval(s, a, q);
    } else {
      var b, c := TwoRemovers(s.disk, jobs, a, q);
      if PartAt(jobs, b, c, q) {
        first, f := OneWaits(s, a, q, b, c);
      } else {
        first, f := OneMoreComes(s, a, q, b, c);
      }
    }
    schedule := ThenStranded(s, first, f, a, q, n);
  }

  /** Whatever others do and whatever fails for them, `a` imports when given its turns and no call of its own fails. */
  ghost predicate AlwaysImports(s: State, a: nat)
    requires a in s.placers
  {
    forall schedule ::
      Schedulable(s, schedule) && HarmlessFor(s, schedule, a)
      && Turns(schedule, a) >= Rank(s.disk, s.placers[a], |s.disk.Content(s.placers[a].job.source)|) ==>
        a in Run(s, schedule).placers && Run(s, schedule).placers[a].pc.Placed?
  }

  /** A placement none of whose own calls fails is sure to import exactly when no directory it will count on can be
      removed by the rollbacks of others. */
  lemma AlwaysImportsIff(s: State, a: nat)
    requires Initial(s) && Roomy(s.disk, s.placers) && Unnested(JobsOf(s.placers)) && a in s.placers
    ensures AlwaysImports(s, a) <==> !Vulnerable(s.disk, JobsOf(s.placers), a)
  {
    hide Initial, Roomy, LaidOut, Unnested, Vulnerable, Rank, Run, HarmlessFor, Turns, Works, Disk.Content;
    RoomyIsLaidOut(s.disk, s.placers);
    if Vulnerable(s.disk, JobsOf(s.placers), a) {
      var n := Rank(s.disk, s.placers[a], |s.disk.Content(s.placers[a].job.source)|);
      var schedule := Strands(s, a, n);
      WorksHarmless(s, schedule, a);
    } else {
      forall schedule | Schedulable(s, schedule) && HarmlessFor(s, schedule, a)
        && Turns(schedule, a) >= Rank(s.disk, s.placers[a], |s.disk.Content(s.placers[a].job.source)|)
        ensures a in Run(s, schedule).placers && Run(s, schedule).placers[a].pc.Placed?
      {
        UndisturbedImports(s, schedule, a);
      }
    }
  }

  /** Any two that share a directory below their library with nothing in it are not safe from each other. */
  lemma SharedEmptyDirectory(init: Disk, jobs: Jobs, a: nat, b: nat)
    requires a in jobs && b in jobs && a != b && jobs[a].dir == jobs[b].dir && jobs[b].root < jobs[b].dir
    requires forall p :: p in init.files || p in init.dirs ==> !(jobs[a].dir < p)
    ensures Vulnerable(init, jobs, a)
  {
    var dir := jobs[a].dir;
    assert Removes(jobs, b, dir) && dir[..|dir|] == dir;
    assert Endangered(init, jobs, a, dir[..|dir|]);
  }

  // ---- two downloads into an empty library ----

  const LIBRARY: Path := ["library"]

  function RaceJob(source: string): Job
  {
    Job([source], LIBRARY, LIBRARY + ["studio"], source, ".mkv", false)
  }

  function RaceStart(): State
  {
    State(
      Disk({[], LIBRARY}, map[["a"] := 0, ["b"] := 1], map[0 := [1], 1 := [2]], 2),
      map[0 := Placer(RaceJob("a"), MakingDirectories(2, true)), 1 := Placer(RaceJob("b"), MakingDirectories(2, true))],
      {})
  }

  lemma RaceDiskValid()
    ensures RaceStart().disk.Valid()
  {
  }

  lemma RaceJobIs(source: string)
    requires source == "a" || source == "b"
    ensures JobOk(RaceStart().disk, RaceJob(source)) && !(LIBRARY <= [source])
    ensures RaceJob(source).root == LIBRARY && RaceJob(source).source == [source]
  {
    assert LIBRARY[0][0] == 'l' && [source][0][0] == source[0];
  }

  lemma RaceJobsOk()
    ensures JobsOk(RaceStart().disk, RaceStart().placers)
  {
    hide RaceJob, JobOk, LIBRARY;
    RaceJobIs("a");
    RaceJobIs("b");
    assert ["a"][0] == "a" && ["b"][0] == "b" && "a"[0] == 'a' && "b"[0] == 'b';
  }

  lemma RaceInitial()
    ensures Initial(RaceStart())
  {
    hide Disk.Valid, JobsOk;
    RaceDiskValid();
    RaceJobsOk();
  }

  lemma RaceLaidOut()
    ensures LaidOut(RaceStart().disk, RaceStart().placers) && Unnested(JobsOf(RaceStart().placers))
  {
    var s := RaceStart();
    assert s.placers.Keys == {0, 1};
    assert LIBRARY[0][0] == 'l' && ["a"][0][0] == 'a' && ["b"][0][0] == 'b';
    forall a, k | a in s.placers && 0 <= k <= |s.placers[a].job.dir| ensures s.placers[a].job.dir[..k] !in s.disk.files {
      assert s.placers[a].job.dir[..k] != [] ==> s.placers[a].job.dir[..k][0] == "library";
    }
  }

  /** The second import fails, although each of its calls works: the first one's rollback takes the
      directory they share. */
  lemma RollbackBreaksNeighbour() returns (s: State, schedule: Schedule)
    ensures Initial(s) && Schedulable(s, schedule) && Works(schedule, 1)
    ensures 1 in Run(s, schedule).placers && Run(s, schedule).placers[1].pc == Failed
  {
    hide Run, Initial, LaidOut, Unnested;
    s := RaceStart();
    RaceInitial();
    RaceLaidOut();
    SharedEmptyDirectory(s.disk, JobsOf(s.placers), 1, 0);
    schedule := Strands(s, 1, 0);
  }
}
