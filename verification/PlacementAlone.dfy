/** What one placement does by itself: makes its directories, reserves, fails, and takes everything away again. */
module PlacementAlone {
  import opened FileSystem
  import opened Placement
  import opened PlacementSafety
  import opened PlacementTheorems
  import opened PlacementSuccess

  const OK: Choice := Proceed(0)

  type Schedule = seq<(nat, Choice)>

  /** `n` calls of one placement in a row, all of which work. */
  function Calls(id: nat, n: nat): Schedule
  {
    if n == 0 then [] else [(id, OK)] + Calls(id, n - 1)
  }

  predicate OnlyOf(schedule: Schedule, ids: set<nat>)
  {
    forall k :: 0 <= k < |schedule| ==> schedule[k].0 in ids
  }

  lemma {:induction false} CallsAre(id: nat, n: nat)
    ensures |Calls(id, n)| == n && forall k :: 0 <= k < n ==> Calls(id, n)[k] == (id, OK)
  {
    if n > 0 { CallsAre(id, n - 1); }
  }

  /** One call, as `Step`, and the rest. */
  lemma OneCall(s: State, id: nat, c: Choice, m: Action)
    requires id in s.placers && m == Advance(s.placers[id].job, s.placers[id].pc, s.disk, c)
    ensures Schedulable(s, [(id, c)]) && Run(s, [(id, c)]) == After(s, id, m)
  {
    hide Advance, After;
    assert [(id, c)][1..] == [];
  }

  lemma Twice(s: State, first: Schedule, later: Schedule)
    requires Schedulable(s, first) && Schedulable(Run(s, first), later)
    ensures Schedulable(s, first + later) && Run(s, first + later) == Run(Run(s, first), later)
  {
    hide Run;
    RunSame(s, first);
    RunSplit(s, first, later);
  }

  lemma CallsSplit(id: nat, n: nat)
    requires n > 0
    ensures Calls(id, n) == [(id, OK)] + Calls(id, n - 1)
  {
  }

  function At(s: State, id: nat, pc: Pc, d: Disk): State
    requires id in s.placers
  {
    State(d, s.placers[id := s.placers[id].(pc := pc)], s.abandoned)
  }

  // ---- a placement that has failed does nothing ----

  lemma {:induction false} FailedIdles(s: State, id: nat, n: nat)
    requires id in s.placers && s.placers[id].pc == Failed
    ensures Schedulable(s, Calls(id, n)) && Run(s, Calls(id, n)) == s
  {
    if n > 0 {
      OneCall(s, id, OK, Go(Failed));
      assert After(s, id, Go(Failed)) == s by { assert s.placers[id := s.placers[id].(pc := Failed)] == s.placers; }
      FailedIdles(s, id, n - 1);
      Twice(s, [(id, OK)], Calls(id, n - 1));
      CallsSplit(id, n);
    }
  }

  // ---- making directories ----

  function Prefixes(dir: Path, n: nat): set<Path>
    requires n <= |dir|
  {
    set k | 0 <= k <= n :: dir[..k]
  }

  predicate Passable(d: Disk, dir: Path)
  {
    [] in d.dirs && forall k :: 0 <= k <= |dir| ==> dir[..k] !in d.files
  }

  lemma OneDirectory(s: State, id: nat, depth: nat, parents: bool) returns (s': State)
    requires id in s.placers && s.placers[id].pc == MakingDirectories(depth, parents) && depth <= |s.placers[id].job.dir|
    requires Passable(s.disk, s.placers[id].job.dir) && (depth > 0 ==> Prefixes(s.placers[id].job.dir, depth - 1) <= s.disk.dirs)
    ensures
      var job := s.placers[id].job;
      s' == At(s, id, Deeper(job, depth), s.disk.(dirs := s.disk.dirs + Prefixes(job.dir, depth)))
    ensures Schedulable(s, [(id, OK)]) && Run(s, [(id, OK)]) == s'
  {
    var job := s.placers[id].job;
    var p := job.dir[..depth];
    assert depth > 0 ==> Parent(p) == job.dir[..depth - 1] && Parent(p) in Prefixes(job.dir, depth - 1);
    var m := MakeDirectory(job, depth, parents, s.disk, OK);
    assert m == if p in s.disk.dirs then Go(Deeper(job, depth)) else Go(Deeper(job, depth), Mkdir(p));
    OneCall(s, id, OK, m);
    s' := After(s, id, m);
    assert Prefixes(job.dir, depth) == (if depth > 0 then Prefixes(job.dir, depth - 1) else {}) + {p};
    assert s'.disk.dirs == s.disk.dirs + Prefixes(job.dir, depth);
  }

  lemma AtTwice(s: State, id: nat, pc: Pc, d: Disk, pc': Pc, d': Disk)
    requires id in s.placers
    ensures At(At(s, id, pc, d), id, pc', d') == At(s, id, pc', d')
  {
  }

  lemma AtSame(s: State, id: nat)
    requires id in s.placers
    ensures At(s, id, s.placers[id].pc, s.disk) == s
  {
    assert s.placers[id := s.placers[id].(pc := s.placers[id].pc)] == s.placers;
  }

  lemma MorePrefixes(d: Disk, dir: Path, k: nat, n: nat)
    requires k <= n <= |dir|
    ensures d.dirs + Prefixes(dir, k) + Prefixes(dir, n) == d.dirs + Prefixes(dir, n)
    ensures Prefixes(dir, k) <= d.dirs + Prefixes(dir, k)
    ensures Prefixes(dir, k) <= d.dirs ==> d.(dirs := d.dirs + Prefixes(dir, k)) == d
  {
    assert Prefixes(dir, k) <= d.dirs ==> d.dirs + Prefixes(dir, k) == d.dirs;
  }

  lemma NoCalls(s: State)
    ensures Schedulable(s, []) && Run(s, []) == s
  {
  }

  lemma AllPrefixes(d: Disk, dir: Path, k: nat)
    requires d.Valid() && k <= |dir| && dir[..k] in d.dirs
    ensures Prefixes(dir, k) <= d.dirs
  {
    forall j | 0 <= j <= k ensures dir[..j] in d.dirs {
      Above(d, dir[..k], j);
      assert dir[..k][..j] == dir[..j];
    }
  }

  lemma OneUpwards(s: State, id: nat, depth: nat) returns (s': State)
    requires id in s.placers && s.disk.Valid() && 0 < depth <= |s.placers[id].job.dir|
    requires s.placers[id].pc == MakingDirectories(depth, true) && Passable(s.disk, s.placers[id].job.dir)
    requires s.placers[id].job.dir[..depth - 1] !in s.disk.dirs
    ensures s' == At(s, id, MakingDirectories(depth - 1, true), s.disk)
    ensures Schedulable(s, [(id, OK)]) && Run(s, [(id, OK)]) == s'
  {
    var job := s.placers[id].job;
    var p := job.dir[..depth];
    assert Parent(p) == job.dir[..depth - 1];
    var m := Go(MakingDirectories(depth - 1, true));
    assert MakeDirectory(job, depth, true, s.disk, OK) == m;
    OneCall(s, id, OK, m);
    s' := After(s, id, m);
  }

  /** Up to the first directory whose parent is there; it ends no deeper than any that is missing. */
  lemma {:induction false} GoesUp(s: State, id: nat, depth: nat) returns (j: nat, n: nat, s': State)
    requires id in s.placers && s.disk.Valid() && depth <= |s.placers[id].job.dir|
    requires s.placers[id].pc == MakingDirectories(depth, true) && Passable(s.disk, s.placers[id].job.dir)
    ensures
      var job := s.placers[id].job;
      && j <= depth && (forall k :: 0 <= k <= |job.dir| && job.dir[..k] !in s.disk.dirs ==> j <= k)
      && s' == At(s, id, Deeper(job, j), s.disk.(dirs := s.disk.dirs + Prefixes(job.dir, j)))
    ensures Schedulable(s, Calls(id, n)) && Run(s, Calls(id, n)) == s'
    decreases depth
  {
    hide Schedulable, Run, Advance, Step, Apply, Disk.Valid;
    var job := s.placers[id].job;
    if depth == 0 || job.dir[..depth - 1] in s.disk.dirs {
      if depth > 0 { AllPrefixes(s.disk, job.dir, depth - 1); }
      j, n := depth, 1;
      s' := OneDirectory(s, id, depth, true);
      OneIsCalls(id);
      NotBelow(s.disk, job.dir, depth);
    } else {
      var s1 := OneUpwards(s, id, depth);
      j, n, s' := GoesUp(s1, id, depth - 1);
      Twice(s, [(id, OK)], Calls(id, n));
      CallsSplit(id, n + 1);
      n := n + 1;
      AtTwice(s, id, MakingDirectories(depth - 1, true), s.disk, Deeper(job, j), s'.disk);
    }
  }

  lemma NotBelow(d: Disk, dir: Path, depth: nat)
    requires depth <= |dir| && (depth > 0 ==> Prefixes(dir, depth - 1) <= d.dirs)
    ensures forall k :: 0 <= k <= |dir| && dir[..k] !in d.dirs ==> depth <= k
  {
    forall k | 0 <= k < depth ensures dir[..k] in d.dirs { assert dir[..k] in Prefixes(dir, depth - 1); }
  }

  lemma OneIsCalls(id: nat)
    ensures Calls(id, 1) == [(id, OK)]
  {
  }

  /** And down again. */
  lemma {:induction false} GoesDown(s: State, id: nat, j: nat, n: nat) returns (s': State)
    requires id in s.placers && j + n <= |s.placers[id].job.dir| && s.placers[id].pc == Deeper(s.placers[id].job, j)
    requires Passable(s.disk, s.placers[id].job.dir) && Prefixes(s.placers[id].job.dir, j) <= s.disk.dirs
    ensures
      var job := s.placers[id].job;
      s' == At(s, id, Deeper(job, j + n), s.disk.(dirs := s.disk.dirs + Prefixes(job.dir, j + n)))
    ensures Schedulable(s, Calls(id, n)) && Run(s, Calls(id, n)) == s'
    decreases n
  {
    hide Schedulable, Prefixes;
    var job := s.placers[id].job;
    if n == 0 {
      s' := s;
      NoCalls(s);
      AtSame(s, id);
      MorePrefixes(s.disk, job.dir, j, j);
    } else {
      hide Run, Advance, Step, Apply;
      var s1 := OneDirectory(s, id, j + 1, false);
      MorePrefixes(s.disk, job.dir, j + 1, j + n);
      s' := GoesDown(s1, id, j + 1, n - 1);
      Twice(s, [(id, OK)], Calls(id, n - 1));
      CallsSplit(id, n);
      AtTwice(s, id, Deeper(job, j + 1), s1.disk, Deeper(job, j + n), s'.disk);
    }
  }

  lemma {:induction false} CallsSum(id: nat, m: nat, n: nat)
    ensures Calls(id, m) + Calls(id, n) == Calls(id, m + n)
    decreases m
  {
    if m == 0 {
      assert [] + Calls(id, n) == Calls(id, n);
    } else {
      CallsSum(id, m - 1, n);
      CallsSplit(id, m);
      CallsSplit(id, m + n);
      assert [(id, OK)] + Calls(id, m - 1) + Calls(id, n) == [(id, OK)] + (Calls(id, m - 1) + Calls(id, n));
    }
  }

  /** By itself a placement makes its directories down to the last one, or down to one that is missing. */
  lemma MakesDirectories(s: State, id: nat, t: nat) returns (n: nat, s': State)
    requires id in s.placers && s.disk.Valid() && t <= |s.placers[id].job.dir|
    requires s.placers[id].pc == MakingDirectories(|s.placers[id].job.dir|, true) && Passable(s.disk, s.placers[id].job.dir)
    requires t == |s.placers[id].job.dir| || s.placers[id].job.dir[..t] !in s.disk.dirs
    ensures
      var job := s.placers[id].job;
      s' == At(s, id, Deeper(job, t), s.disk.(dirs := s.disk.dirs + Prefixes(job.dir, t)))
    ensures Schedulable(s, Calls(id, n)) && Run(s, Calls(id, n)) == s'
  {
    hide Schedulable, Run, Prefixes, Disk.Valid, Deeper;
    var job := s.placers[id].job;
    var j, m, s1 := GoesUp(s, id, |job.dir|);
    MorePrefixes(s.disk, job.dir, j, t);
    s' := GoesDown(s1, id, j, t - j);
    Twice(s, Calls(id, m), Calls(id, t - j));
    CallsSum(id, m, t - j);
    n := m + (t - j);
    AtTwice(s, id, Deeper(job, j), s1.disk, Deeper(job, t), s'.disk);
  }

  // ---- taking them away again ----

  /** `_remove_empty_parents` by itself: it stops below the library, or at the first directory that is not empty. */
  lemma {:induction false} Climbs(s: State, id: nat, path: Path, n: nat) returns (stop: Path, s': State)
    requires id in s.placers && s.placers[id].pc == RemovingParents(path) && s.placers[id].job.root <= path && n > |path|
    ensures s.placers[id].job.root <= stop <= path
    ensures s' == At(s, id, Failed, s.disk.(dirs := s.disk.dirs - Between(stop, path)))
    ensures stop == s.placers[id].job.root || !s'.disk.EmptyDirectory(stop)
    ensures Schedulable(s, Calls(id, n)) && Run(s, Calls(id, n)) == s'
    decreases n
  {
    hide Run, Schedulable;
    var job := s.placers[id].job;
    var m := RemoveParent(job, path, s.disk, OK);
    OneCall(s, id, OK, m);
    var s1 := After(s, id, m);
    CallsSplit(id, n);
    if path == job.root || !Permitted(s.disk, Rmdir(path)) {
      stop, s' := path, s1;
      FailedIdles(s1, id, n - 1);
      assert s.disk.dirs - Between(path, path) == s.disk.dirs;
    } else {
      assert s1 == At(s, id, RemovingParents(Parent(path)), s.disk.(dirs := s.disk.dirs - {path}));
      stop, s' := Climbs(s1, id, Parent(path), n - 1);
      BetweenMore(stop, path);
      assert s.disk.dirs - {path} - Between(stop, Parent(path)) == s.disk.dirs - Between(stop, path);
    }
    Twice(s, [(id, OK)], Calls(id, n - 1));
  }

  // ---- one placement that comes and goes ----

  /** It reserves the name it wants. */
  lemma Reserves(s: State, id: nat, schedule: Schedule, s1: State) returns (t: Path, schedule': Schedule, s': State)
    requires id in s.placers && Schedulable(s, schedule) && Run(s, schedule) == s1 && OnlyOf(schedule, {id})
    requires id in s1.placers && s1.placers[id].pc == Reserving(1)
    requires s1.placers[id].job.dir in s1.disk.dirs && !s1.disk.Exists(Candidate(s1.placers[id].job, 1))
    ensures Schedulable(s, schedule') && Run(s, schedule') == s' && OnlyOf(schedule', {id})
    ensures t == Candidate(s1.placers[id].job, 1) && Parent(t) == s1.placers[id].job.dir
    ensures s' == At(s1, id, Start(s1.placers[id].job, t), Apply(s1.disk, Create(t)))
  {
    hide Run, Schedulable;
    var job := s1.placers[id].job;
    t := Candidate(job, 1);
    var m := Go(Start(job, t), Create(t));
    assert Parent(t) == job.dir;
    assert ReservePath(job, 1, s1.disk, OK) == m;
    OneCall(s1, id, OK, m);
    s' := After(s1, id, m);
    Twice(s, schedule, [(id, OK)]);
    schedule' := schedule + [(id, OK)];
  }

  /** The next call fails, and the reservation is given up. */
  lemma GivesUp(s: State, id: nat, t: Path, schedule: Schedule, s1: State) returns (schedule': Schedule, s': State)
    requires id in s.placers && Schedulable(s, schedule) && Run(s, schedule) == s1 && OnlyOf(schedule, {id})
    requires id in s1.placers && s1.placers[id].pc == Start(s1.placers[id].job, t)
    ensures Schedulable(s, schedule') && Run(s, schedule') == s' && OnlyOf(schedule', {id})
    ensures s' == At(s1, id, RemovingParents(Parent(t)), Apply(s1.disk, Unlink(t)))
  {
    hide Run, Schedulable;
    var m := Go(UndoingTarget(t));
    OneCall(s1, id, Fault(false), m);
    var s2 := After(s1, id, m);
    Twice(s, schedule, [(id, Fault(false))]);
    var m' := Go(RemovingParents(Parent(t)), Unlink(t));
    OneCall(s2, id, OK, m');
    s' := After(s2, id, m');
    Twice(s, schedule + [(id, Fault(false))], [(id, OK)]);
    schedule' := schedule + [(id, Fault(false))] + [(id, OK)];
    assert s'.placers == s1.placers[id := s1.placers[id].(pc := RemovingParents(Parent(t)))];
  }

  /** A placement that can start and would have its way. */
  predicate CanCome(s: State, id: nat)
  {
    && id in s.placers && s.placers[id].pc == MakingDirectories(|s.placers[id].job.dir|, true)
    && s.placers[id].job.root <= s.placers[id].job.dir
    && Passable(s.disk, s.placers[id].job.dir) && !s.disk.Exists(Candidate(s.placers[id].job, 1))
  }

  lemma Arrives(s: State, id: nat) returns (t: Path, schedule: Schedule, s': State)
    requires CanCome(s, id) && s.disk.Valid()
    ensures OnlyOf(schedule, {id}) && Schedulable(s, schedule) && Run(s, schedule) == s'
    ensures t !in s.disk.files && Parent(t) == s.placers[id].job.dir
    ensures s' == At(s, id, Start(s.placers[id].job, t), s'.disk) && s'.disk.files == s.disk.files[t := s.disk.next]
    ensures s'.disk.dirs == s.disk.dirs + Prefixes(s.placers[id].job.dir, |s.placers[id].job.dir|)
  {
    hide Run, Schedulable, Disk.Valid;
    var job := s.placers[id].job;
    var dir := job.dir;
    var n, s1 := MakesDirectories(s, id, |dir|);
    CallsAre(id, n);
    assert dir == dir[..|dir|] && dir in Prefixes(dir, |dir|);
    assert |Candidate(job, 1)| > |dir| && forall p :: p in Prefixes(dir, |dir|) ==> |p| <= |dir|;
    t, schedule, s' := Reserves(s, id, Calls(id, n), s1);
    AtTwice(s, id, s1.placers[id].pc, s1.disk, Start(job, t), s'.disk);
  }

  /** It makes its directories and its reservation, fails, and gives the reservation up. */
  lemma ComesAndFails(s: State, id: nat) returns (schedule: Schedule, s': State)
    requires CanCome(s, id) && s.disk.Valid()
    ensures OnlyOf(schedule, {id}) && Schedulable(s, schedule) && Run(s, schedule) == s'
    ensures s' == At(s, id, RemovingParents(s.placers[id].job.dir), s'.disk) && s'.disk.files == s.disk.files
    ensures s'.disk.dirs == s.disk.dirs + Prefixes(s.placers[id].job.dir, |s.placers[id].job.dir|)
  {
    hide Run, Schedulable, Candidate, Passable, Prefixes, Disk.Valid;
    var t, schedule1, s1 := Arrives(s, id);
    schedule, s' := GivesUp(s, id, t, schedule1, s1);
    assert s'.disk.files == s.disk.files;
    AtTwice(s, id, s1.placers[id].pc, s1.disk, RemovingParents(Parent(t)), s'.disk);
  }

  /** What is left once it has taken everything away again, down to `stop`. */
  ghost predicate ComeAndGone(s: State, s': State, id: nat, stop: Path)
    requires id in s.placers
  {
    var job := s.placers[id].job;
    && s' == At(s, id, Failed, s'.disk)
    && s'.disk.files == s.disk.files
    && s'.disk.dirs == s.disk.dirs + Prefixes(job.dir, |job.dir|) - Between(stop, job.dir)
    && job.root <= stop <= job.dir
    && (stop == job.root || !s'.disk.EmptyDirectory(stop))
  }

  lemma ComesAndGoes(s: State, id: nat) returns (schedule: Schedule, stop: Path, s': State)
    requires CanCome(s, id) && s.disk.Valid()
    ensures OnlyOf(schedule, {id}) && Schedulable(s, schedule) && Run(s, schedule) == s'
    ensures ComeAndGone(s, s', id, stop)
  {
    hide Run, Schedulable, Candidate, Passable, Prefixes, Disk.Valid;
    var dir := s.placers[id].job.dir;
    var schedule1, s1 := ComesAndFails(s, id);
    stop, s' := Climbs(s1, id, dir, |dir| + 1);
    CallsAre(id, |dir| + 1);
    Twice(s, schedule1, Calls(id, |dir| + 1));
    schedule := schedule1 + Calls(id, |dir| + 1);
    AtTwice(s, id, s1.placers[id].pc, s1.disk, Failed, s'.disk);
  }

  // ---- one that waits before it takes `q` away ----

  /** Nothing is below `q` on the way to `path` but that way. */
  ghost predicate OnlyWay(d: Disk, q: Path, path: Path)
  {
    && q <= path
    && (forall p :: p in d.files ==> !(q < p))
    && (forall p :: p in d.dirs && |q| < |path| && |q| < |p| && q < p && p[|q|] == path[|q|] ==> p <= path)
    && (forall k :: |q| < k <= |path| ==> path[..k] in d.dirs)
  }

  lemma LastIsEmpty(d: Disk, q: Path, path: Path)
    requires OnlyWay(d, q, path) && q != path
    ensures path != [] && d.EmptyDirectory(path) && q <= Parent(path)
    ensures OnlyWay(d.(dirs := d.dirs - {path}), q, Parent(path))
  {
    assert path == path[..|path|];
    forall p | p != [] && Parent(p) == path ensures q < p && p[|q|] == path[|q|] && !(p <= path) {}
    var up, d' := Parent(path), d.(dirs := d.dirs - {path});
    forall k | |q| < k <= |up| ensures up[..k] in d'.dirs { assert up[..k] == path[..k]; }
    forall p | p in d'.dirs && |q| < |up| && |q| < |p| && q < p && p[|q|] == up[|q|] ensures p <= up {
      assert path[|q|] == up[|q|];
      assert p <= path && p != path;
      assert |p| < |path|;
    }
  }

  lemma OneClimb(s: State, id: nat, path: Path) returns (s': State)
    requires id in s.placers && s.placers[id].pc == RemovingParents(path) && path != s.placers[id].job.root
    requires path != [] && s.disk.EmptyDirectory(path)
    ensures s' == At(s, id, RemovingParents(Parent(path)), s.disk.(dirs := s.disk.dirs - {path}))
    ensures Schedulable(s, [(id, OK)]) && Run(s, [(id, OK)]) == s'
  {
    hide Run, Disk.EmptyDirectory;
    var m := Go(RemovingParents(Parent(path)), Rmdir(path));
    assert RemoveParent(s.placers[id].job, path, s.disk, OK) == m;
    OneCall(s, id, OK, m);
    s' := After(s, id, m);
  }

  lemma BetweenLess(d: Disk, low: Path, high: Path)
    requires high != [] && low <= Parent(high)
    ensures d.dirs - {high} - Between(low, Parent(high)) == d.dirs - Between(low, high)
  {
    BetweenMore(low, high);
  }

  lemma {:induction false} ClimbsTo(s: State, id: nat, path: Path, q: Path) returns (n: nat, s': State)
    requires id in s.placers && s.placers[id].pc == RemovingParents(path) && s.placers[id].job.root <= q && OnlyWay(s.disk, q, path)
    ensures s' == At(s, id, RemovingParents(q), s.disk.(dirs := s.disk.dirs - Between(q, path)))
    ensures Schedulable(s, Calls(id, n)) && Run(s, Calls(id, n)) == s'
    decreases |path|
  {
    hide Run, Schedulable, OnlyWay, Disk.EmptyDirectory, Between, Advance, Step, Apply;
    WayIsBelow(s.disk, q, path);
    if path == q {
      n, s' := 0, s;
      NoCalls(s);
      AtSame(s, id);
      assert s.disk.dirs - Between(q, q) == s.disk.dirs by { NothingLess(q); }
    } else {
      LastIsEmpty(s.disk, q, path);
      var s1 := OneClimb(s, id, path);
      n, s' := ClimbsTo(s1, id, Parent(path), q);
      BetweenLess(s.disk, q, path);
      Twice(s, [(id, OK)], Calls(id, n));
      CallsSplit(id, n + 1);
      n := n + 1;
      AtTwice(s, id, s1.placers[id].pc, s1.disk, RemovingParents(q), s'.disk);
    }
  }

  lemma NothingLess(q: Path)
    ensures Between(q, q) == {}
  {
  }

  lemma WayIsBelow(d: Disk, q: Path, path: Path)
    requires OnlyWay(d, q, path)
    ensures q <= path
  {
  }
}
