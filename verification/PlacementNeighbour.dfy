/** A placement among others whose calls may fail: it imports for certain when no rollback of theirs can
    remove a directory it counts on. */
module PlacementNeighbour {
  import opened FileSystem
  import opened Placement
  import opened PlacementSafety
  import opened PlacementTheorems
  import opened PlacementProgress
  import opened PlacementSuccess

  // ---- the condition, on the initial disk and the jobs ----

  type Jobs = map<nat, Job>

  function JobsOf(placers: map<nat, Placer>): Jobs
  {
    map b | b in placers :: placers[b].job
  }

  /** No library lies inside another. */
  predicate Unnested(jobs: Jobs)
  {
    forall a, b :: a in jobs && b in jobs ==> !(jobs[a].root < jobs[b].root)
  }

  /** A rollback of `b` would remove `p`, were it empty. */
  predicate Removes(jobs: Jobs, b: nat, p: Path)
  {
    b in jobs && jobs[b].root < p <= jobs[b].dir
  }

  /** So would that of somebody other than `a`. */
  predicate Removable(jobs: Jobs, a: nat, p: Path)
  {
    exists b :: b in jobs && b != a && Removes(jobs, b, p)
  }

  /** Nothing that is below `q` at the start is sure to stay: no file, and no directory that others do not remove. */
  ghost predicate Clearable(init: Disk, jobs: Jobs, a: nat, q: Path)
  {
    && (forall p :: p in init.files ==> !(q < p))
    && (forall p :: p in init.dirs && q < p ==> Removable(jobs, a, p))
  }

  /** A directory that is there at the start and that only `b` of all others would remove. */
  ghost predicate Private(init: Disk, jobs: Jobs, a: nat, b: nat, p: Path)
  {
    && p in init.dirs && Removes(jobs, b, p)
    && forall c :: c in jobs && c != a && c != b ==> !Removes(jobs, c, p)
  }

  ghost predicate HasPrivate(init: Disk, jobs: Jobs, a: nat, b: nat, q: Path)
  {
    exists p :: q < p && Private(init, jobs, a, b, p)
  }

  /** The ways of the two part at `q`. */
  predicate PartAt(jobs: Jobs, b: nat, c: nat, q: Path)
    requires b in jobs && c in jobs
  {
    |q| < |jobs[b].dir| && |q| < |jobs[c].dir| && jobs[b].dir[|q|] != jobs[c].dir[|q|]
  }

  /** Two rollbacks can remove `q` one after the other, with `q` made again in between: their ways part there, so that
      one can wait at `q` for the other, or one has no directory of its own below, so that it can come last. */
  ghost predicate RemovableTwice(init: Disk, jobs: Jobs, a: nat, q: Path)
  {
    exists b, c :: b != a && c != a && b != c && Removes(jobs, b, q) && Removes(jobs, c, q)
      && (PartAt(jobs, b, c, q) || !HasPrivate(init, jobs, a, b, q))
  }

  /** The rollbacks of others can remove `q` when `a` counts on it: for the last directory it is enough to remove
      it once; one above it that was there at the start is looked at only after it went missing. */
  ghost predicate Endangered(init: Disk, jobs: Jobs, a: nat, q: Path)
    requires a in jobs
  {
    && Removable(jobs, a, q) && Clearable(init, jobs, a, q)
    && (q == jobs[a].dir || q !in init.dirs || RemovableTwice(init, jobs, a, q))
  }

  ghost predicate Vulnerable(init: Disk, jobs: Jobs, a: nat)
    requires a in jobs
  {
    exists k :: 0 <= k <= |jobs[a].dir| && Endangered(init, jobs, a, jobs[a].dir[..k])
  }

  lemma JobsStay(s: State, id: nat, c: Choice)
    requires id in s.placers
    ensures JobsOf(Step(s, id, c).placers) == JobsOf(s.placers)
  {
    StepSame(s, id, c);
    hide Step;
  }

  // ---- what the rollbacks of others have removed so far ----

  type Removals = set<(nat, Path)>

  function Noted(r: Removals, id: nat, call: Call): Removals
  {
    if call.Rmdir? then r + {(id, call.path)} else r
  }

  predicate Removed(r: Removals, p: Path)
  {
    exists x :: x in r && x.1 == p
  }

  /** The rollback is past `p`. */
  predicate Past(pc: Pc, p: Path)
  {
    pc.Failed? || (pc.RemovingParents? && |pc.path| < |p|)
  }

  ghost predicate RemovedByOthers(s: State, r: Removals, a: nat)
  {
    forall b, p :: (b, p) in r ==> b in s.placers && b != a && Removes(JobsOf(s.placers), b, p) && Past(s.placers[b].pc, p)
  }

  /** `b` has removed all of `dir` deeper than `n`. */
  predicate Stripped(r: Removals, b: nat, dir: Path, n: nat)
  {
    forall k :: n < k <= |dir| ==> (b, dir[..k]) in r
  }

  /** A rollback removes from its file's directory upwards. */
  ghost predicate Climbed(s: State, r: Removals, a: nat)
  {
    && (forall b, p :: (b, p) in r && b in s.placers ==> Stripped(r, b, s.placers[b].job.dir, |p|))
    && (forall b :: b in s.placers && b != a && s.placers[b].pc.RemovingParents? ==>
          Stripped(r, b, s.placers[b].job.dir, |s.placers[b].pc.path|))
  }

  ghost predicate MissingRemoved(init: Disk, s: State, r: Removals)
  {
    forall p :: p in init.dirs && p !in s.disk.dirs ==> Removed(r, p)
  }

  /** The shallowest directory a placement has found missing. */
  function FoundMissing(pc: Pc): nat
    requires pc.MakingDirectories?
  {
    if pc.parents || pc.depth == 0 then pc.depth else pc.depth - 1
  }

  /** What `a` found missing and was there at the start had been removed. */
  ghost predicate MissingSeen(init: Disk, s: State, r: Removals, a: nat)
  {
    a in s.placers && s.placers[a].pc.MakingDirectories? ==>
      forall j :: FoundMissing(s.placers[a].pc) <= j < |s.placers[a].job.dir| && s.placers[a].job.dir[..j] in init.dirs ==>
        Removed(r, s.placers[a].job.dir[..j])
  }

  /** Everybody who would remove `x` has a directory of his own to remove before. */
  ghost predicate Once(init: Disk, jobs: Jobs, a: nat, x: Path)
  {
    forall d :: d in jobs && d != a && Removes(jobs, d, x) ==> exists p :: x <= p && Private(init, jobs, a, d, p)
  }

  predicate NotYetMade(pl: Placer, x: Path)
  {
    x <= pl.job.dir ==> pl.pc.MakingDirectories? && (pl.pc.parents || pl.pc.depth <= |x|)
  }

  predicate OneRemover(r: Removals, x: Path)
  {
    forall y, z :: y in r && z in r && y.1 == x && z.1 == x ==> y == z
  }

  /** Such a directory is removed once at most, and nobody but `a` makes it again. */
  ghost predicate RemovedOnce(init: Disk, s: State, r: Removals, a: nat)
  {
    a in s.placers ==>
      forall x :: x in init.dirs && Once(init, JobsOf(s.placers), a, x) && NotYetMade(s.placers[a], x) && Removed(r, x) ==>
        x !in s.disk.dirs && OneRemover(r, x)
  }

  ghost predicate Tracked(init: Disk, s: State, r: Removals, a: nat)
  {
    && RemovedByOthers(s, r, a) && Climbed(s, r, a)
    && MissingRemoved(init, s, r) && MissingSeen(init, s, r, a) && RemovedOnce(init, s, r, a)
  }

  // ---- the steps that matter ----

  lemma RmdirStep(init: Disk, s: State, id: nat, c: Choice)
    requires Inv(init, s) && id in s.placers && NextCall(s, id, c).Rmdir?
    ensures
      var path := NextCall(s, id, c).path;
      && s.placers[id].pc == RemovingParents(path) && Removes(JobsOf(s.placers), id, path)
      && path in s.disk.dirs && s.disk.EmptyDirectory(path)
      && id in Step(s, id, c).placers && Step(s, id, c).placers[id].pc == RemovingParents(Parent(path))
  {
    hide Inv, Disk.EmptyDirectory;
    var path := NextCall(s, id, c).path;
    RmdirWhileRemoving(s.placers[id].job, s.placers[id].pc, s.disk, c, path);
    RmdirBelowRoot(init, s, id, c, path);
    EmptyIsDirectory(s.disk, path);
    assert RemoveParent(s.placers[id].job, path, s.disk, c).call == Rmdir(path);
    StepActs(s, id, c);
  }

  lemma EmptyIsDirectory(d: Disk, p: Path)
    requires d.EmptyDirectory(p)
    ensures p in d.dirs
  {
  }

  lemma MakingStep(s: State, id: nat, c: Choice)
    requires id in s.placers
    ensures NextCall(s, id, c).Mkdir? ==>
      var pl := s.placers[id];
      && pl.pc.MakingDirectories? && pl.pc.depth <= |pl.job.dir| && NextCall(s, id, c).path == pl.job.dir[..pl.pc.depth]
      && id in Step(s, id, c).placers && Step(s, id, c).placers[id].pc == Deeper(pl.job, pl.pc.depth)
    ensures id in Step(s, id, c).placers
    ensures Step(s, id, c).placers[id].pc.MakingDirectories? ==>
      var pc, pc' := s.placers[id].pc, Step(s, id, c).placers[id].pc;
      && pc.MakingDirectories? && pc.depth <= |s.placers[id].job.dir|
      && (pc'.parents ==> pc.parents && pc.depth == pc'.depth + 1 && s.placers[id].job.dir[..pc'.depth] !in s.disk.dirs)
      && (!pc'.parents ==> pc'.depth == pc.depth + 1)
  {
    hide ReservePath, LinkTemporary, OpenTemporary, CopyMore, ReplaceTarget, UnlinkSource, Undo, RemoveParent, Apply;
    StepActs(s, id, c);
    if !s.placers[id].pc.MakingDirectories? {
      OnlyMakes(s.placers[id].job, s.placers[id].pc, s.disk, c);
    } else {
      var dir, depth := s.placers[id].job.dir, s.placers[id].pc.depth;
      assert 0 < depth <= |dir| ==> Parent(dir[..depth]) == dir[..depth - 1];
    }
  }

  lemma OnlyMakes(job: Job, pc: Pc, d: Disk, c: Choice)
    requires !pc.MakingDirectories?
    ensures !Advance(job, pc, d, c).call.Mkdir? && !Advance(job, pc, d, c).pc.MakingDirectories?
  {
    hide Temporary, Candidate, CopyStep, Disk.Content, Permitted;
  }

  lemma RemovingStep(init: Disk, s: State, id: nat, c: Choice)
    requires Inv(init, s) && id in s.placers
    ensures id in Step(s, id, c).placers
    ensures
      var pc, pc' := s.placers[id].pc, Step(s, id, c).placers[id].pc;
      && (pc'.RemovingParents? ==>
            || (pc'.path == s.placers[id].job.dir)
            || (NextCall(s, id, c).Rmdir? && pc == RemovingParents(NextCall(s, id, c).path)))
      && forall p :: Past(pc, p) ==> Past(pc', p)
  {
    StepActs(s, id, c);
    InvLocal(init, s, id);
    hide Inv, Step;
    RemovingNext(init, s.disk, s.placers[id], c);
  }

  lemma RemovingNext(init: Disk, d: Disk, pl: Placer, c: Choice)
    requires Local(init, d, pl)
    ensures
      var m := Advance(pl.job, pl.pc, d, c);
      && (m.pc.RemovingParents? ==>
            || m.pc.path == pl.job.dir
            || (m.call.Rmdir? && pl.pc == RemovingParents(m.call.path) && m.pc.path == Parent(m.call.path)))
      && forall p :: Past(pl.pc, p) ==> Past(m.pc, p)
  {
    assert pl.pc.UndoingTarget? ==> Parent(pl.pc.target) == pl.job.dir;
    hide Temporary, Candidate, CopyStep, Disk.Content, Disk.EmptyDirectory, Local;
  }

  // ---- every step keeps track ----

  lemma StepRemovedByOthers(init: Disk, s: State, r: Removals, id: nat, c: Choice, a: nat)
    requires Inv(init, s) && id in s.placers && RemovedByOthers(s, r, a)
    requires id == a ==> !NextCall(s, id, c).Rmdir?
    ensures RemovedByOthers(Step(s, id, c), Noted(r, id, NextCall(s, id, c)), a)
  {
    hide Inv, Step, NextCall, Removes, Disk.EmptyDirectory;
    StepSame(s, id, c);
    JobsStay(s, id, c);
    RemovingStep(init, s, id, c);
    if NextCall(s, id, c).Rmdir? {
      RmdirStep(init, s, id, c);
      RemovesIsPrefix(JobsOf(s.placers), id, NextCall(s, id, c).path);
    }
  }

  lemma StepClimbed(init: Disk, s: State, r: Removals, id: nat, c: Choice, a: nat)
    requires Inv(init, s) && id in s.placers && Climbed(s, r, a)
    requires id == a ==> !NextCall(s, id, c).Rmdir?
    ensures Climbed(Step(s, id, c), Noted(r, id, NextCall(s, id, c)), a)
  {
    hide Inv, Step, NextCall, Removes, Disk.EmptyDirectory;
    StepSame(s, id, c);
    RemovingStep(init, s, id, c);
    var r' := Noted(r, id, NextCall(s, id, c));
    assert forall b, dir, n :: Stripped(r, b, dir, n) ==> Stripped(r', b, dir, n);
    if NextCall(s, id, c).Rmdir? {
      RmdirStep(init, s, id, c);
      RemovesIsPrefix(JobsOf(s.placers), id, NextCall(s, id, c).path);
      OneFurther(r, id, s.placers[id].job.dir, NextCall(s, id, c).path);
    }
    hide Stripped;
  }

  lemma RemovesIsPrefix(jobs: Jobs, b: nat, p: Path)
    requires Removes(jobs, b, p)
    ensures b in jobs && p <= jobs[b].dir && p != []
  {
  }

  lemma OneFurther(r: Removals, b: nat, dir: Path, p: Path)
    requires p <= dir && p != []
    ensures Stripped(r, b, dir, |p|) ==> Stripped(r + {(b, p)}, b, dir, |p|) && Stripped(r + {(b, p)}, b, dir, |Parent(p)|)
  {
    assert p == dir[..|p|];
  }

  lemma StepMissingRemoved(init: Disk, s: State, r: Removals, id: nat, c: Choice)
    requires id in s.placers && MissingRemoved(init, s, r)
    ensures MissingRemoved(init, Step(s, id, c), Noted(r, id, NextCall(s, id, c)))
  {
    StepDirectories(s, id, c);
    hide Step, NextCall;
    MoreRemoved(r, id, NextCall(s, id, c));
    hide Removed, Noted;
  }

  lemma MoreRemoved(r: Removals, id: nat, call: Call)
    ensures forall p :: Removed(r, p) ==> Removed(Noted(r, id, call), p)
    ensures call.Rmdir? ==> Removed(Noted(r, id, call), call.path)
    ensures forall p :: Removed(Noted(r, id, call), p) ==> Removed(r, p) || (call.Rmdir? && call.path == p)
  {
    var r' := Noted(r, id, call);
    assert call.Rmdir? ==> (id, call.path) in r';
    forall p | Removed(r, p) ensures Removed(r', p) {
      var x :| x in r && x.1 == p;
      assert x in r';
    }
    forall p | Removed(r', p) ensures Removed(r, p) || (call.Rmdir? && call.path == p) {
      var x :| x in r' && x.1 == p;
      assert x in r || x == (id, call.path);
    }
  }

  lemma StepMissingSeen(init: Disk, s: State, r: Removals, id: nat, c: Choice, a: nat)
    requires Inv(init, s) && id in s.placers && a in s.placers && MissingRemoved(init, s, r) && MissingSeen(init, s, r, a)
    ensures MissingSeen(init, Step(s, id, c), Noted(r, id, NextCall(s, id, c)), a)
  {
    hide Inv, Step, NextCall, Removed, Noted;
    StepSame(s, id, c);
    MoreRemoved(r, id, NextCall(s, id, c));
    if id == a { MakingStep(s, a, c); }
  }

  /** What `a` has not made after its step it had not made before, and what it makes it has made. */
  lemma StepNotYetMade(s: State, id: nat, c: Choice, a: nat, x: Path)
    requires id in s.placers && a in s.placers && a in Step(s, id, c).placers && NotYetMade(Step(s, id, c).placers[a], x)
    ensures NotYetMade(s.placers[a], x)
    ensures !(id == a && NextCall(s, id, c) == Mkdir(x))
  {
    hide Step, NextCall;
    StepSame(s, id, c);
    if id == a { MakingStep(s, a, c); }
  }

  /** Once such a directory is gone, everybody who would remove it is past a directory of his own below. */
  lemma OthersPast(init: Disk, s: State, r: Removals, a: nat, d: nat, x: Path)
    requires s.disk.Valid() && d in s.placers && d != a
    requires RemovedByOthers(s, r, a) && MissingRemoved(init, s, r)
    requires Once(init, JobsOf(s.placers), a, x) && Removes(JobsOf(s.placers), d, x) && x !in s.disk.dirs
    ensures s.placers[d].pc.Failed? || s.placers[d].pc.RemovingParents?
  {
    hide Disk.Valid, Once;
    var p := OwnBelow(init, JobsOf(s.placers), a, d, x);
    StillMissing(s.disk, x, p);
    var z :| z in r && z.1 == p;
    assert (z.0, p) in r;
  }

  lemma NotRemade(init: Disk, s: State, r: Removals, id: nat, c: Choice, a: nat, x: Path)
    requires Inv(init, s) && id in s.placers && id != a && Unnested(JobsOf(s.placers))
    requires RemovedByOthers(s, r, a) && MissingRemoved(init, s, r)
    requires Once(init, JobsOf(s.placers), a, x) && Removed(r, x) && x !in s.disk.dirs
    ensures NextCall(s, id, c) != Mkdir(x)
  {
    hide Inv, NextCall, Step, Disk.Valid, Unnested, Once, MissingRemoved, Removes, JobOk;
    MakingStep(s, id, c);
    if NextCall(s, id, c) == Mkdir(x) {
      JobFacts(init, s, id);
      RootAbove(init, s.placers[id].job);
      var y :| y in r && y.1 == x;
      assert (y.0, x) in r;
      SameLibrary(JobsOf(s.placers), y.0, id, x);
      hide RemovedByOthers;
      OthersPast(init, s, r, a, id, x);
    }
  }

  lemma RootAbove(init: Disk, job: Job)
    requires JobOk(init, job)
    ensures job.root <= job.dir
  {
  }

  lemma OwnBelow(init: Disk, jobs: Jobs, a: nat, d: nat, x: Path) returns (p: Path)
    requires Once(init, jobs, a, x) && d != a && Removes(jobs, d, x)
    ensures x <= p && Private(init, jobs, a, d, p)
  {
    p :| x <= p && Private(init, jobs, a, d, p);
  }

  /** In libraries that do not nest, whoever passes through a removable directory would remove it too. */
  lemma SameLibrary(jobs: Jobs, b: nat, d: nat, x: Path)
    requires Unnested(jobs) && Removes(jobs, b, x) && d in jobs && x <= jobs[d].dir && jobs[d].root <= jobs[d].dir
    ensures Removes(jobs, d, x)
  {
    var m, n := jobs[b].root, jobs[d].root;
    assert m < n || n < m || m == n;
  }

  lemma StillMissing(d: Disk, x: Path, p: Path)
    requires d.Valid() && x <= p && x !in d.dirs
    ensures p !in d.dirs
  {
    assert p[..|x|] == x;
    if p in d.dirs { Above(d, p, |x|); }
  }

  lemma StepRemovedOnce(init: Disk, s: State, r: Removals, id: nat, c: Choice, a: nat)
    requires Inv(init, s) && id in s.placers && a in s.placers && Unnested(JobsOf(s.placers))
    requires RemovedByOthers(s, r, a) && MissingRemoved(init, s, r) && RemovedOnce(init, s, r, a)
    ensures RemovedOnce(init, Step(s, id, c), Noted(r, id, NextCall(s, id, c)), a)
  {
    hide Inv, Step, NextCall, Removed, Noted, Once, NotYetMade, OneRemover, Unnested, RemovedByOthers, MissingRemoved;
    var s', r' := Step(s, id, c), Noted(r, id, NextCall(s, id, c));
    StepSame(s, id, c);
    JobsStay(s, id, c);
    MoreRemoved(r, id, NextCall(s, id, c));
    forall x | x in init.dirs && Once(init, JobsOf(s'.placers), a, x) && NotYetMade(s'.placers[a], x) && Removed(r', x)
      ensures x !in s'.disk.dirs && OneRemover(r', x)
    {
      StepNotYetMade(s, id, c, a, x);
      if Removed(r, x) && id != a { NotRemade(init, s, r, id, c, a, x); }
      if NextCall(s, id, c).Rmdir? { RmdirStep(init, s, id, c); }
      OneMoreRemover(r, id, NextCall(s, id, c), x);
      StepDirectories(s, id, c);
    }
  }

  lemma OneMoreRemover(r: Removals, id: nat, call: Call, x: Path)
    ensures OneRemover(r, x) && call != Rmdir(x) ==> OneRemover(Noted(r, id, call), x)
    ensures !Removed(r, x) ==> OneRemover(Noted(r, id, call), x)
  {
    if !Removed(r, x) { assert forall y :: y in r ==> y.1 != x; }
  }

  lemma StepTracked(init: Disk, s: State, r: Removals, id: nat, c: Choice, a: nat)
    requires Inv(init, s) && id in s.placers && a in s.placers && Unnested(JobsOf(s.placers)) && Tracked(init, s, r, a)
    requires id == a ==> !NextCall(s, id, c).Rmdir?
    ensures Tracked(init, Step(s, id, c), Noted(r, id, NextCall(s, id, c)), a)
  {
    hide Inv, Step, NextCall, Noted, Unnested, RemovedByOthers, Climbed, MissingRemoved, MissingSeen, RemovedOnce;
    StepRemovedByOthers(init, s, r, id, c, a);
    StepClimbed(init, s, r, id, c, a);
    StepMissingRemoved(init, s, r, id, c);
    StepMissingSeen(init, s, r, id, c, a);
    StepRemovedOnce(init, s, r, id, c, a);
  }

  lemma StartsTracked(s: State, a: nat)
    requires Initial(s) && a in s.placers
    ensures Tracked(s.disk, s, {}, a)
  {
    hide Disk.Valid, JobsOk, Once, NotYetMade;
  }

  // ---- no step removes what the placement counts on ----

  /** A directory with something below it is not empty. */
  lemma {:induction false} NotEmpty(d: Disk, q: Path, p: Path)
    requires d.Valid() && q < p && (p in d.files || p in d.dirs)
    ensures !d.EmptyDirectory(q)
    decreases |p|
  {
    if Parent(p) != q {
      NotEmpty(d, q, Parent(p));
    }
  }

  /** A file below another's library is no placement's source, so it stays. */
  lemma LibraryFileStays(init: Disk, s: State, b: nat, p: Path)
    requires Inv(init, s) && b in s.placers && s.placers[b].job.root <= p && p in init.files
    ensures p in s.disk.files
  {
    hide NewInodesUnshared, BytesKept, Exclusive, EveryFileAccounted, PlacerOk;
    assert forall x :: x in s.placers ==> !(s.placers[b].job.root <= s.placers[x].job.source);
  }

  lemma RemovedIsRemovable(s: State, r: Removals, a: nat, p: Path)
    requires RemovedByOthers(s, r, a) && Removed(r, p)
    ensures Removable(JobsOf(s.placers), a, p)
  {
    hide Removes;
    var y :| y in r && y.1 == p;
    assert (y.0, p) in r;
  }

  lemma UnremovableStays(init: Disk, s: State, r: Removals, a: nat, p: Path)
    requires RemovedByOthers(s, r, a) && MissingRemoved(init, s, r)
    requires p in init.dirs && !Removable(JobsOf(s.placers), a, p)
    ensures p in s.disk.dirs
  {
    hide Removable, RemovedByOthers, Removed;
    if Removed(r, p) { RemovedIsRemovable(s, r, a, p); }
  }

  /** A directory that cannot be cleared by others is never empty. */
  lemma UnclearableStays(init: Disk, s: State, r: Removals, a: nat, q: Path)
    requires Inv(init, s) && RemovedByOthers(s, r, a) && MissingRemoved(init, s, r)
    requires Removable(JobsOf(s.placers), a, q) && !Clearable(init, JobsOf(s.placers), a, q)
    ensures !s.disk.EmptyDirectory(q)
  {
    hide Inv, Disk.EmptyDirectory, RemovedByOthers, MissingRemoved, Disk.Valid;
    var jobs := JobsOf(s.placers);
    var b :| b in jobs && b != a && Removes(jobs, b, q);
    JobFacts(init, s, b);
    if p :| p in init.files && q < p {
      LibraryFileStays(init, s, b, p);
      NotEmpty(s.disk, q, p);
    } else {
      var p :| p in init.dirs && q < p && !Removable(jobs, a, p);
      UnremovableStays(init, s, r, a, p);
      NotEmpty(s.disk, q, p);
    }
  }

  ghost predicate OneDepthBelowRoots(jobs: Jobs)
  {
    forall x, y :: x in jobs && y in jobs ==> |jobs[x].dir| == |jobs[y].dir| && jobs[x].root <= jobs[x].dir
  }

  lemma NotApart(init: Disk, jobs: Jobs, a: nat, q: Path, b: nat, c: nat)
    requires Removes(jobs, b, q) && Removes(jobs, c, q) && b != c && b != a && c != a
    requires !RemovableTwice(init, jobs, a, q)
    ensures !PartAt(jobs, b, c, q) && HasPrivate(init, jobs, a, b, q) && HasPrivate(init, jobs, a, c, q)
  {
    hide HasPrivate, PartAt;
  }

  lemma NextIsShared(jobs: Jobs, b: nat, c: nat, q: Path)
    requires Removes(jobs, b, q) && Removes(jobs, c, q) && OneDepthBelowRoots(jobs)
    requires |q| < |jobs[b].dir| && !PartAt(jobs, b, c, q)
    ensures jobs[c].dir[..|q| + 1] == jobs[b].dir[..|q| + 1]
    ensures Removes(jobs, b, jobs[b].dir[..|q| + 1]) && Removes(jobs, c, jobs[b].dir[..|q| + 1])
  {
    var x := jobs[b].dir[..|q| + 1];
    assert jobs[c].dir[..|q| + 1] == x;
    assert q < x && x <= jobs[b].dir && x <= jobs[c].dir;
  }

  lemma OwnUnderNext(init: Disk, jobs: Jobs, a: nat, d: nat, q: Path, x: Path)
    requires HasPrivate(init, jobs, a, d, q) && d in jobs && |q| < |jobs[d].dir| && x == jobs[d].dir[..|q| + 1]
    ensures exists p :: x <= p && Private(init, jobs, a, d, p)
  {
    var p :| q < p && Private(init, jobs, a, d, p);
    assert x <= p;
  }

  /** Where nobody can remove a directory twice, all who would share the next one down, and each has one of his own. */
  lemma NotTwice(init: Disk, jobs: Jobs, a: nat, q: Path, b: nat, c: nat)
    requires Removes(jobs, b, q) && Removes(jobs, c, q) && b != c && b != a && c != a
    requires !RemovableTwice(init, jobs, a, q) && Unnested(jobs) && OneDepthBelowRoots(jobs)
    requires |q| < |jobs[b].dir|
    ensures jobs[c].dir[..|q| + 1] == jobs[b].dir[..|q| + 1]
    ensures
      var x := jobs[b].dir[..|q| + 1];
      Removes(jobs, b, x) && Removes(jobs, c, x) && Once(init, jobs, a, x)
  {
    var x := jobs[b].dir[..|q| + 1];
    NotApart(init, jobs, a, q, b, c);
    NextIsShared(jobs, b, c, q);
    hide RemovableTwice, Unnested, HasPrivate, PartAt, Private;
    forall d | d in jobs && d != a && Removes(jobs, d, x) ensures exists p :: x <= p && Private(init, jobs, a, d, p) {
      assert q <= jobs[d].dir && x == jobs[d].dir[..|q| + 1];
      SameLibrary(jobs, b, d, q);
      NotApart(init, jobs, a, q, d, if d == b then c else b);
      OwnUnderNext(init, jobs, a, d, q, x);
    }
  }

  lemma OnceIsThere(init: Disk, jobs: Jobs, a: nat, b: nat, x: Path)
    requires init.Valid() && Once(init, jobs, a, x) && b != a && Removes(jobs, b, x)
    ensures x in init.dirs
  {
    hide Disk.Valid, Once;
    var p := OwnBelow(init, jobs, a, b, x);
    assert p[..|x|] == x;
    Above(init, p, |x|);
  }

  lemma BothRemoved(s: State, r: Removals, b: nat, c: nat, a: nat, q: Path, x: Path)
    requires Climbed(s, r, a) && b in s.placers && c in s.placers && c != a
    requires (b, q) in r && s.placers[c].pc == RemovingParents(q)
    requires |q| < |s.placers[b].job.dir| && |q| < |s.placers[c].job.dir|
    requires x == s.placers[b].job.dir[..|q| + 1] == s.placers[c].job.dir[..|q| + 1]
    ensures (b, x) in r && (c, x) in r
  {
    assert Stripped(r, b, s.placers[b].job.dir, |q|) && Stripped(r, c, s.placers[c].job.dir, |q|);
  }

  lemma OneRemoved(init: Disk, s: State, r: Removals, a: nat, b: nat, c: nat, x: Path)
    requires a in s.placers && RemovedOnce(init, s, r, a) && x in init.dirs && Once(init, JobsOf(s.placers), a, x)
    requires NotYetMade(s.placers[a], x) && (b, x) in r && (c, x) in r
    ensures b == c
  {
    hide Once;
    assert (b, x).1 == x && (c, x).1 == x && Removed(r, x);
  }

  /** Whoever is about to remove such a directory is the first. */
  lemma FirstToRemove(init: Disk, s: State, r: Removals, id: nat, a: nat, q: Path)
    requires init.Valid() && id in s.placers && a in s.placers && id != a
    requires Unnested(JobsOf(s.placers)) && OneDepthBelowRoots(JobsOf(s.placers))
    requires RemovedByOthers(s, r, a) && Climbed(s, r, a) && RemovedOnce(init, s, r, a)
    requires s.placers[id].pc == RemovingParents(q) && Removes(JobsOf(s.placers), id, q)
    requires q < s.placers[a].job.dir && !RemovableTwice(init, JobsOf(s.placers), a, q)
    requires s.placers[a].pc.MakingDirectories? && s.placers[a].pc.depth == |q| + 1
    ensures !Removed(r, q)
  {
    hide Unnested, RemovableTwice, Once, Disk.Valid, Climbed, RemovedOnce;
    if Removed(r, q) {
      var jobs := JobsOf(s.placers);
      var y :| y in r && y.1 == q;
      var b := y.0;
      assert (b, q) in r;
      assert |jobs[b].dir| == |jobs[a].dir|;
      NotTwice(init, jobs, a, q, b, id);
      var x := jobs[b].dir[..|q| + 1];
      OnceIsThere(init, jobs, a, b, x);
      BothRemoved(s, r, b, id, a, q, x);
      OneRemoved(init, s, r, a, b, id, x);
    }
  }

  lemma WayFacts(init: Disk, s: State, h: History, a: nat, q: Path)
    requires OnItsWay(init, s, h, a) && CountsOn(s.placers[a].job, s.placers[a].pc, q) && q != s.placers[a].job.dir
    ensures q == s.placers[a].job.dir[..|q|] && q < s.placers[a].job.dir
    ensures s.placers[a].pc.Reserving? ==> s.placers[a].job.dir in s.disk.dirs
    ensures !s.placers[a].pc.Reserving? ==>
      && s.placers[a].pc.MakingDirectories? && FoundMissing(s.placers[a].pc) == s.placers[a].pc.depth - 1
      && (|q| + 1 == s.placers[a].pc.depth || s.placers[a].job.dir[..|q| + 1] in s.disk.dirs)
  {
  }

  lemma RootsAbove(init: Disk, s: State)
    requires Inv(init, s) && Roomy(init, s.placers)
    ensures OneDepthBelowRoots(JobsOf(s.placers)) && init.Valid() && s.disk.Valid()
  {
    hide NewInodesUnshared, BytesKept, Exclusive, InitialFilesKept, EveryFileAccounted, PlacerOk, Disk.Valid;
    OneDepth(init, s.placers);
    hide Roomy;
  }

  /** What keeps a placement undisturbed. */
  ghost predicate Undisturbed(init: Disk, s: State, h: History, r: Removals, a: nat)
  {
    && World(init, s, h) && OnItsWay(init, s, h, a) && Tracked(init, s, r, a)
    && a in s.placers && Unnested(JobsOf(s.placers)) && !Vulnerable(init, JobsOf(s.placers), a)
  }

  lemma UndisturbedFacts(init: Disk, s: State, h: History, r: Removals, a: nat)
    requires Undisturbed(init, s, h, r, a)
    ensures Inv(init, s) && Roomy(init, s.placers)
  {
  }

  lemma SafeDirectory(init: Disk, jobs: Jobs, a: nat, q: Path)
    requires a in jobs && !Vulnerable(init, jobs, a) && q <= jobs[a].dir && Removable(jobs, a, q)
    ensures Clearable(init, jobs, a, q) ==> q != jobs[a].dir && q in init.dirs && !RemovableTwice(init, jobs, a, q)
  {
    hide Removable, Clearable, RemovableTwice;
    assert q == jobs[a].dir[..|q|];
  }

  lemma OthersSpare(init: Disk, s: State, h: History, r: Removals, id: nat, c: Choice, a: nat)
    requires Undisturbed(init, s, h, r, a) && id in s.placers && id != a && a in s.placers
    ensures Spares(NextCall(s, id, c), s.placers[a])
  {
    hide Inv, World, Roomy, OnItsWay, NextCall, Vulnerable, Unnested, Disk.Valid, Disk.EmptyDirectory, Removes, Removable,
      Clearable, RemovableTwice, Removed, RemovedByOthers, Climbed, RemovedOnce, MissingRemoved, OneDepthBelowRoots, CountsOn, Step;
    var call, pl := NextCall(s, id, c), s.placers[a];
    if call.Rmdir? && CountsOn(pl.job, pl.pc, call.path) {
      var q, jobs := call.path, JobsOf(s.placers);
      UndisturbedFacts(init, s, h, r, a);
      RootsAbove(init, s);
      RmdirStep(init, s, id, c);
      IsRemovable(jobs, id, a, q);
      CountsOnWay(pl, q);
      SafeDirectory(init, jobs, a, q);
      if !Clearable(init, jobs, a, q) {
        UnclearableStays(init, s, r, a, q);
      } else {
        WayFacts(init, s, h, a, q);
        if pl.pc.Reserving? {
          NotEmpty(s.disk, q, pl.job.dir);
        } else if pl.job.dir[..|q| + 1] in s.disk.dirs {
          assert q < pl.job.dir[..|q| + 1];
          NotEmpty(s.disk, q, pl.job.dir[..|q| + 1]);
        } else {
          FirstToRemove(init, s, r, id, a, q);
        }
      }
    }
  }

  lemma IsRemovable(jobs: Jobs, b: nat, a: nat, p: Path)
    requires Removes(jobs, b, p) && b != a
    ensures Removable(jobs, a, p)
  {
    assert b in jobs;
  }

  lemma CountsOnWay(pl: Placer, p: Path)
    requires CountsOn(pl.job, pl.pc, p)
    ensures p <= pl.job.dir
  {
  }

  lemma UndisturbedStep(init: Disk, s: State, h: History, r: Removals, id: nat, c: Choice, a: nat)
    requires Undisturbed(init, s, h, r, a) && a in s.placers && id in s.placers && (id == a ==> Harmless(s, a, c))
    ensures id in Step(s, id, c).placers
    ensures Undisturbed(init, Step(s, id, c), Remember(h, id, Step(s, id, c).placers[id].pc), Noted(r, id, NextCall(s, id, c)), a)
  {
    hide World, OnItsWay, Tracked, Unnested, Vulnerable, Step, Remember, Harmless, Spares, NextCall, Inv, Noted;
    UndisturbedFacts(init, s, h, r, a);
    StepSame(s, id, c);
    JobsStay(s, id, c);
    WorldStep(init, s, h, id, c);
    if id != a { OthersSpare(init, s, h, r, id, c, a); }
    WayStep(init, s, h, id, c, a);
    StepTracked(init, s, r, id, c, a);
  }

  lemma {:induction false} StaysOnItsWay(init: Disk, s: State, h: History, r: Removals, schedule: seq<(nat, Choice)>, a: nat)
    returns (h': History, r': Removals)
    requires Undisturbed(init, s, h, r, a)
    requires Schedulable(s, schedule) && a in s.placers && HarmlessFor(s, schedule, a)
    ensures Undisturbed(init, Run(s, schedule), h', r', a)
    decreases |schedule|
  {
    hide Undisturbed, Step, Harmless, Remember, Noted, NextCall;
    if schedule == [] {
      h', r' := h, r;
    } else {
      var (id, c) := schedule[0];
      StepSame(s, id, c);
      UndisturbedStep(init, s, h, r, id, c, a);
      var s' := Step(s, id, c);
      h', r' := StaysOnItsWay(init, s', Remember(h, id, s'.placers[id].pc), Noted(r, id, NextCall(s, id, c)), schedule[1..], a);
    }
  }

  // ---- the theorems ----

  /** Whatever fails for others, a placement they cannot disturb imports when given its turns, unless a
      call of its own fails. */
  lemma UndisturbedImports(s: State, schedule: seq<(nat, Choice)>, a: nat)
    requires Initial(s) && Roomy(s.disk, s.placers) && Unnested(JobsOf(s.placers))
    requires a in s.placers && !Vulnerable(s.disk, JobsOf(s.placers), a)
    requires Schedulable(s, schedule) && HarmlessFor(s, schedule, a)
    requires Turns(schedule, a) >= Rank(s.disk, s.placers[a], |s.disk.Content(s.placers[a].job.source)|)
    ensures a in Run(s, schedule).placers && Run(s, schedule).placers[a].pc.Placed?
  {
    hide Inv, Initial, Roomy, Rank, Run, HarmlessFor, World, OnItsWay, Vulnerable, Tracked, Unnested;
    InitialInv(s);
    StartsOnItsWay(s, a);
    StartsTracked(s, a);
    var h, r := StaysOnItsWay(s.disk, s, NOTHING_YET, {}, schedule, a);
    EveryPlacementStops(s.disk, s, schedule, a);
    ArrivedIsPlaced(s.disk, Run(s, schedule), h, a);
  }

  lemma UndisturbedImportsIff(s: State, schedule: seq<(nat, Choice)>, a: nat)
    requires Initial(s) && Roomy(s.disk, s.placers) && Unnested(JobsOf(s.placers))
    requires a in s.placers && !Vulnerable(s.disk, JobsOf(s.placers), a)
    requires Schedulable(s, schedule)
    requires Turns(schedule, a) >= Rank(s.disk, s.placers[a], |s.disk.Content(s.placers[a].job.source)|)
    ensures a in Run(s, schedule).placers
    ensures Run(s, schedule).placers[a].pc.Placed? <==> HarmlessFor(s, schedule, a)
  {
    hide Initial, Roomy, Rank, Run, HarmlessFor, Vulnerable, Unnested;
    RunSame(s, schedule);
    if HarmlessFor(s, schedule, a) { UndisturbedImports(s, schedule, a); } else { OwnFaultDooms(s, schedule, a); }
  }

  /** One file in the directory of a placement is enough: nobody can disturb it. */
  lemma FileInDirectoryProtects(init: Disk, jobs: Jobs, a: nat, p: Path)
    requires a in jobs && p in init.files && p != [] && Parent(p) == jobs[a].dir
    ensures !Vulnerable(init, jobs, a)
  {
    var dir := jobs[a].dir;
    forall k | 0 <= k <= |dir| ensures !Clearable(init, jobs, a, dir[..k]) {
      assert dir[..k] < p;
    }
  }
}
