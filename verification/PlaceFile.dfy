/** `place_file` as written, call by call; its ghost state retraces the steps of the protocol. */
module PlaceFile {

  import opened Numerals
  import opened Optional
  import opened FileSystem
  import opened Placement
  import opened PlacementSafety
  import opened PlacementTheorems
  import opened PlacementSuccess

  /** How a system call returns. */
  datatype Outcome = Done | AlreadyExists | NotFound | OtherError(crossDevice: bool)

  datatype Result = Success(path: Path, how: Method) | Raised

  lemma RunOneMore(s: State, schedule: seq<(nat, Choice)>, id: nat, c: Choice)
    requires Schedulable(s, schedule) && id in s.placers
    ensures Schedulable(s, schedule + [(id, c)])
    ensures id in Run(s, schedule).placers
    ensures Run(s, schedule + [(id, c)]) == Step(Run(s, schedule), id, c)
  {
    RunSplit(s, schedule, [(id, c)]);
    var r := Run(s, schedule);
    hide Step;
    assert Run(r, [(id, c)]) == Run(Step(r, id, c), [(id, c)][1..]);
  }

  lemma {:induction false} HarmlessOneMore(s: State, schedule: seq<(nat, Choice)>, id: nat, c: Choice)
    requires Schedulable(s, schedule) && id in s.placers && id in Run(s, schedule).placers
    requires HarmlessRun(s, schedule) && Harmless(Run(s, schedule), id, c)
    ensures Schedulable(s, schedule + [(id, c)]) && HarmlessRun(s, schedule + [(id, c)])
    decreases |schedule|
  {
    hide Step, Harmless;
    if schedule == [] {
      StepSame(s, id, c);
      assert [] + [(id, c)] == [(id, c)];
      assert [(id, c)][1..] == [];
    } else {
      StepSame(s, schedule[0].0, schedule[0].1);
      assert (schedule + [(id, c)])[1..] == schedule[1..] + [(id, c)];
      HarmlessOneMore(Step(s, schedule[0].0, schedule[0].1), schedule[1..], id, c);
    }
  }

  /** In a run without failing calls nobody rolls back. */
  lemma HarmlessArrives(s: State, schedule: seq<(nat, Choice)>, a: nat)
    requires Initial(s) && Roomy(s.disk, s.placers) && Schedulable(s, schedule) && HarmlessRun(s, schedule)
    requires a in s.placers
    ensures a in Run(s, schedule).placers && !Doomed(Run(s, schedule).placers[a].pc)
  {
    assert s.abandoned == {};
    hide Initial, Roomy, Run, HarmlessRun, World, OnItsWay, Doomed;
    RunSame(s, schedule);
    forall b | b in s.placers ensures World(s.disk, s, NOTHING_YET) && OnItsWay(s.disk, s, NOTHING_YET, b) {
      StartsOnItsWay(s, b);
    }
    StartsOnItsWay(s, a);
    var h := AllRun(s.disk, s, NOTHING_YET, schedule);
    WayNotDoomed(s.disk, Run(s, schedule), h, a);
  }

  lemma WayNotDoomed(init: Disk, s: State, h: History, a: nat)
    requires OnItsWay(init, s, h, a)
    ensures !Doomed(s.placers[a].pc)
  {
  }

  /** Names enough for one importer. */
  ghost predicate RoomFor(d: Disk, job: Job)
  {
    Roomy(d, map[0 := Placer(job, MakingDirectories(|job.dir|, true))])
  }

  /** The names once `p` is renamed over `to`. */
  function Renamed(files: map<Path, Inode>, p: Path, to: Path): map<Path, Inode>
    requires p in files
  {
    (files - {p})[to := files[p]]
  }

  /** `p` carries the smallest number whose name was not there. */
  ghost predicate FirstFree(job: Job, d: Disk, p: Path)
  {
    exists n: nat :: n < 9999 && Numbered(job, n, p) && !d.Exists(p) && TakenBelow(job, d, n)
  }

  ghost predicate TakenBelow(job: Job, d: Disk, n: nat)
  {
    forall m: nat, q :: m < n && Numbered(job, m, q) ==> d.Exists(q)
  }

  /** The same for the temporaries of a name, which count from 1. */
  ghost predicate FirstFreeTemporary(target: Path, d: Disk, p: Path)
    requires target != []
  {
    exists n: nat :: 1 <= n < 10000 && NumberedTemporary(target, n, p) && !d.Exists(p) && TemporariesBelow(target, d, n)
  }

  ghost predicate TemporariesBelow(target: Path, d: Disk, n: nat)
    requires target != []
  {
    forall m: nat, q :: 1 <= m < n && NumberedTemporary(target, m, q) ==> d.Exists(q)
  }

  lemma NoneBelow(job: Job, target: Path, d: Disk)
    requires target != []
    ensures TakenBelow(job, d, 0) && TemporariesBelow(target, d, 1)
  {
  }

  /** The attempt at a name tells whether it is taken. */
  lemma CandidateTaken(job: Job, d: Disk, index: nat)
    requires 1 <= index < NAME_LIMIT && TakenBelow(job, d, index - 1)
    ensures d.Exists(Candidate(job, index)) ==> TakenBelow(job, d, index)
    ensures !d.Exists(Candidate(job, index)) ==> FirstFree(job, d, Candidate(job, index))
  {
    hide Numbered, Candidate;
    var n := index - 1;
    forall q ensures Numbered(job, n, q) <==> q == Candidate(job, index) { CandidateIsNumbered(job, n, q); }
  }

  lemma TemporaryTaken(target: Path, d: Disk, index: nat)
    requires target != [] && 1 <= index < NAME_LIMIT && TemporariesBelow(target, d, index)
    ensures d.Exists(Temporary(target, index)) ==> TemporariesBelow(target, d, index + 1)
    ensures !d.Exists(Temporary(target, index)) ==> FirstFreeTemporary(target, d, Temporary(target, index))
  {
    hide NumberedTemporary, Temporary;
    forall q ensures NumberedTemporary(target, index, q) <==> q == Temporary(target, index) { TemporaryIsNumbered(target, index, q); }
  }

  /** Directories made down to the wanted one take none of its names. */
  lemma FreeBefore(job: Job, d: Disk, d': Disk, p: Path)
    requires d'.files == d.files && d.dirs <= d'.dirs && forall q :: q in d'.dirs && q !in d.dirs ==> q <= job.dir
    requires FirstFree(job, d', p)
    ensures FirstFree(job, d, p)
  {
    hide Writes;
    var n: nat :| n < 9999 && Numbered(job, n, p) && !d'.Exists(p) && TakenBelow(job, d', n);
    forall m: nat, q | m < n && Numbered(job, m, q) ensures d.Exists(q) {
      assert d'.Exists(q) && |q| == |job.dir| + 1;
    }
    assert TakenBelow(job, d, n);
  }

  /** The call would create a name that exists. */
  predicate Clashes(d: Disk, call: Call)
  {
    (call.Create? || call.Mkdir? || (call.Link? && call.source in d.files)) && d.Exists(call.path)
  }

  /** The call would make a directory in one that does not exist. */
  predicate Lacks(d: Disk, call: Call)
  {
    call.Mkdir? && !d.Exists(call.path) && !d.Exists(Parent(call.path))
  }

  class Importer {
    var disk: Disk
    const job: Job
    /** What the operating system does with the call of each number, and whether the library is on another file system. */
    const will: nat -> Choice
    const otherDevice: bool
    var calls: nat
    ghost const start: State
    ghost var schedule: seq<(nat, Choice)>
    ghost var pc: Pc
    ghost var abandoned: set<Path>

    /** Of the calls made so far the operating system refused one for reasons of its own. */
    ghost predicate Refused()
      reads this`calls
    {
      exists k :: 0 <= k < calls && will(k).Fault?
    }

    /** What the placement theorems ask of the start. */
    ghost predicate Ready()
    {
      Initial(start) && Roomy(start.disk, start.placers)
    }

    ghost predicate Traced()
      reads this
    {
      && start.placers.Keys == {0} && start.placers[0].job == job
      && Schedulable(start, schedule)
      && Run(start, schedule).placers == map[0 := Placer(job, pc)]
      && Run(start, schedule).abandoned == abandoned
      && (Refused() || HarmlessRun(start, schedule))
    }

    /** The real disk is the one the protocol has reached. */
    ghost predicate Valid()
      reads this
    {
      Traced() && Run(start, schedule).disk == disk
    }

    constructor (disk: Disk, job: Job, will: nat -> Choice, otherDevice: bool)
      ensures Valid() && this.disk == disk && this.job == job && pc == MakingDirectories(|job.dir|, true)
      ensures this.will == will && this.otherDevice == otherDevice
      ensures abandoned == {} && start == State(disk, map[0 := Placer(job, MakingDirectories(|job.dir|, true))], {})
    {
      this.disk, this.job, this.will, this.otherDevice, calls := disk, job, will, otherDevice, 0;
      start := State(disk, map[0 := Placer(job, MakingDirectories(|job.dir|, true))], {});
      schedule, pc, abandoned := [], MakingDirectories(|job.dir|, true), {};
    }

    /** How the operating system means to answer the next call. */
    function Answer(call: Call): Choice
      reads this`calls
    {
      if call.Link? && otherDevice then Fault(true) else will(calls)
    }

    /** Ask the operating system. */
    method Attempt(call: Call) returns (r: Outcome)
      requires Traced()
      modifies this`disk, this`calls
      ensures Traced()
      ensures calls == old(calls) + 1
      ensures old(Refused()) || will(old(calls)).Fault? ==> Refused()
      ensures r.Done? <==> old(Answer(call)).Proceed? && Permitted(old(disk), call)
      ensures r.Done? ==> disk == Apply(old(disk), call)
      ensures r.AlreadyExists? <==> old(Answer(call)).Proceed? && Clashes(old(disk), call)
      ensures r.NotFound? <==> old(Answer(call)).Proceed? && Lacks(old(disk), call)
      ensures r.OtherError? ==> r.crossDevice == (old(Answer(call)).Fault? && old(Answer(call)).crossDevice)
      ensures !r.Done? ==> disk == old(disk)
    {
      var answer := Answer(call);
      calls := calls + 1;
      if answer.Fault? {
        r := OtherError(answer.crossDevice);
      } else if Permitted(disk, call) {
        disk := Apply(disk, call);
        r := Done;
      } else if Clashes(disk, call) {
        r := AlreadyExists;
      } else if Lacks(disk, call) {
        r := NotFound;
      } else {
        r := OtherError(false);
      }
    }

    /** Record that the protocol took the step the last call amounts to. */
    ghost method Retrace(before: Disk, c: Choice, m: Action)
      requires Traced() && Run(start, schedule).disk == before
      requires m == Advance(job, pc, before, c) && disk == Apply(before, m.call)
      requires Refused() || c.Proceed? || (pc.Linking? && c.crossDevice)
      modifies this`schedule, this`pc, this`abandoned
      ensures Valid() && pc == m.pc && abandoned == old(abandoned) + m.abandoned
    {
      hide Advance, Apply, HarmlessRun, Run;
      RunOneMore(start, schedule, 0, c);
      if !Refused() { HarmlessOneMore(start, schedule, 0, c); }
      schedule := schedule + [(0, c)];
      pc, abandoned := m.pc, abandoned + m.abandoned;
    }

    /** Once a rollback has begun something was refused, unless names ran out or the start was out of order. */
    lemma RefusedHere()
      requires Valid() && Doomed(pc)
      ensures Ready() ==> Refused()
    {
      hide Initial, Roomy, Run, HarmlessRun, Doomed, Refused;
      if Ready() && !Refused() { HarmlessArrives(start, schedule, 0); }
    }

    /** `Path.mkdir(parents=parents, exist_ok=True)` on the directory of that depth: a missing parent is made first,
        parents of its own included, and then the directory is tried once more. */
    method MakeDirectory(depth: nat, parents: bool) returns (ok: bool)
      requires Valid() && pc == MakingDirectories(depth, parents) && depth <= |job.dir|
      modifies this
      ensures old(Refused()) ==> Refused()
      ensures Valid() && pc == (if ok then Deeper(job, depth) else Failed) && abandoned == old(abandoned)
      ensures Ready() && !ok ==> Refused()
      ensures disk.files == old(disk).files && old(disk).dirs <= disk.dirs
      ensures forall p :: p in disk.dirs && p !in old(disk).dirs ==> p <= job.dir
      ensures ok ==> job.dir[..depth] in disk.dirs
      decreases depth, if parents then 1 else 0
    {
      hide Run, HarmlessRun, Refused, Ready, Traced, Placement.ReservePath, Placement.LinkTemporary, Placement.OpenTemporary,
        Placement.CopyMore, Placement.ReplaceTarget, Placement.UnlinkSource, Placement.Undo, Placement.RemoveParent;
      ghost var before, c := disk, will(calls);
      var p := job.dir[..depth];
      var r := Attempt(Mkdir(p));
      if r.Done? {
        Retrace(before, c, Go(Deeper(job, depth), Mkdir(p)));
        return true;
      }
      if r.NotFound? && parents && depth > 0 {
        Retrace(before, c, Go(MakingDirectories(depth - 1, true)));
        ok := MakeDirectory(depth - 1, true);
        if ok { ok := MakeDirectory(depth, false); }
        return ok;
      }
      if r.AlreadyExists? && p in disk.dirs {
        Retrace(before, c, Go(Deeper(job, depth)));
        return true;
      }
      Retrace(before, c, Go(Failed));
      RefusedHere();
      return false;
    }

    /** `target.parent.mkdir(parents=True, exist_ok=True)`. */
    method MakeDirectories() returns (ok: bool)
      requires Valid() && pc == MakingDirectories(|job.dir|, true)
      modifies this
      ensures old(Refused()) ==> Refused()
      ensures Valid() && pc == (if ok then Reserving(1) else Failed) && abandoned == old(abandoned)
      ensures Ready() && !ok ==> Refused()
      ensures disk.files == old(disk).files && old(disk).dirs <= disk.dirs
      ensures forall p :: p in disk.dirs && p !in old(disk).dirs ==> p <= job.dir
      ensures ok ==> job.dir in disk.dirs
    {
      hide Run, HarmlessRun, Refused, Ready, Traced, Valid;
      ok := MakeDirectory(|job.dir|, true);
      assert job.dir[..|job.dir|] == job.dir;
    }

    /** `_reserve_path` after the directories are there. */
    method ReservePath() returns (target: Option<Path>)
      requires Valid() && pc == Reserving(1)
      modifies this
      ensures old(Refused()) ==> Refused()
      ensures Valid() && abandoned == old(abandoned)
      ensures pc == (if target.None? then Failed else Start(job, target.value))
      ensures Ready() && target.None? ==> Refused()
      ensures target.Some? ==> Permitted(old(disk), Create(target.value)) && disk == Apply(old(disk), Create(target.value))
      ensures target.Some? ==> FirstFree(job, old(disk), target.value)
      ensures target.None? ==> disk == old(disk)
    {
      hide Run, HarmlessRun, Refused, Ready, Traced, Candidate, FirstFree, TakenBelow, Placement.MakeDirectory, Placement.LinkTemporary,
        Placement.OpenTemporary, Placement.CopyMore, Placement.ReplaceTarget, Placement.UnlinkSource, Placement.Undo,
        Placement.RemoveParent;
      NoneBelow(job, [""], disk);
      var index := 1;
      while index < NAME_LIMIT
        decreases NAME_LIMIT - index
        invariant 1 <= index <= NAME_LIMIT
        invariant Valid() && pc == Reserving(index) && abandoned == old(abandoned)
        invariant disk == old(disk) && (old(Refused()) ==> Refused())
        invariant TakenBelow(job, disk, index - 1)
      {
        CandidateTaken(job, disk, index);
        ghost var before := disk;
        ghost var c := will(calls);
        var p := Candidate(job, index);
        var r := Attempt(Create(p));
        match r {
          case Done =>
            Retrace(before, c, Go(Start(job, p), Create(p)));
            return Some(p);
          case AlreadyExists =>
            Retrace(before, c, Go(Reserving(index + 1)));
          case OtherError(_) =>
            Retrace(before, c, Go(Failed));
            RefusedHere();
            return None;
        }
        index := index + 1;
      }
      Retrace(disk, Proceed(0), Go(Failed));
      RefusedHere();
      return None;
    }

    /** What the placement does next, by the answer to `os.link`. */
    lemma AfterLink(target: Path, index: nat, d: Disk, c: Choice)
      requires 1 <= index < NAME_LIMIT && target != []
      ensures
        var call := Link(job.source, Temporary(target, index));
        && !Lacks(d, call)
        && Advance(job, Linking(target, index), d, c) ==
           if c.Fault? then Go(if c.crossDevice then Opening(target, 1) else UndoingTarget(target))
           else if Permitted(d, call) then Go(Replacing(target, Temporary(target, index), Hardlink), call)
           else if Clashes(d, call) then Go(Linking(target, index + 1))
           else Go(UndoingTarget(target))
    {
      hide Temporary;
    }

    /** Behind the last name the temporary is given up. */
    lemma NamesExhausted(target: Path, d: Disk)
      ensures Advance(job, Linking(target, NAME_LIMIT), d, Proceed(0)) == Go(UndoingTarget(target))
      ensures Advance(job, Opening(target, NAME_LIMIT), d, Proceed(0)) == Go(UndoingTarget(target))
    {
    }

    /** What the placement does next, by the answer to the exclusive `open`. */
    lemma AfterCreate(target: Path, index: nat, d: Disk, c: Choice)
      requires 1 <= index < NAME_LIMIT && target != []
      ensures
        var call := Create(Temporary(target, index));
        && Advance(job, Opening(target, index), d, c) ==
           if c.Proceed? && Permitted(d, call) then Go(Copying(target, Temporary(target, index)), call)
           else if c.Proceed? && Clashes(d, call) then Go(Opening(target, index + 1))
           else Go(UndoingTarget(target))
    {
      hide Temporary;
    }

    /** `_hardlink_to_temporary`. On another file system nothing is raised further: the copy comes next. */
    method HardlinkToTemporary(target: Path) returns (temporary: Option<Path>, crossDevice: bool)
      requires Valid() && pc == Linking(target, 1) && target != []
      modifies this
      ensures old(Refused()) ==> Refused()
      ensures Valid() && abandoned == old(abandoned)
      ensures temporary.Some? ==> pc == Replacing(target, temporary.value, Hardlink)
      ensures crossDevice ==> temporary.None?
      ensures temporary.None? ==> pc == (if crossDevice then Opening(target, 1) else UndoingTarget(target))
      ensures otherDevice ==> temporary.None?
      ensures Ready() && otherDevice && !crossDevice ==> Refused()
      ensures Ready() && !otherDevice && temporary.None? ==> Refused()
      ensures temporary.Some? ==>
        && Permitted(old(disk), Link(job.source, temporary.value))
        && disk == Apply(old(disk), Link(job.source, temporary.value))
        && FirstFreeTemporary(target, old(disk), temporary.value)
      ensures temporary.None? ==> disk == old(disk)
    {
      hide Run, HarmlessRun, Refused, Ready, Traced, Temporary, Advance, FirstFreeTemporary, TemporariesBelow;
      NoneBelow(job, target, disk);
      var index := 1;
      while index < NAME_LIMIT
        decreases NAME_LIMIT - index
        invariant 1 <= index <= NAME_LIMIT
        invariant Valid() && pc == Linking(target, index) && abandoned == old(abandoned)
        invariant disk == old(disk) && (old(Refused()) ==> Refused())
        invariant TemporariesBelow(target, disk, index)
      {
        TemporaryTaken(target, disk, index);
        ghost var before := disk;
        var p := Temporary(target, index);
        ghost var c := Answer(Link(job.source, p));
        AfterLink(target, index, disk, c);
        var r := Attempt(Link(job.source, p));
        match r {
          case Done =>
            Retrace(before, c, Go(Replacing(target, p, Hardlink), Link(job.source, p)));
            return Some(p), false;
          case AlreadyExists =>
            Retrace(before, c, Go(Linking(target, index + 1)));
          case OtherError(x) =>
            Retrace(before, c, Go(if x then Opening(target, 1) else UndoingTarget(target)));
            if !x { RefusedHere(); }
            return None, x;
        }
        index := index + 1;
      }
      NamesExhausted(target, disk);
      Retrace(disk, Proceed(0), Go(UndoingTarget(target)));
      RefusedHere();
      return None, false;
    }

    /** The name search of `_copy_to_temporary`. */
    method OpenTemporary(target: Path) returns (temporary: Option<Path>)
      requires Valid() && pc == Opening(target, 1) && target != []
      modifies this
      ensures old(Refused()) ==> Refused()
      ensures Valid() && abandoned == old(abandoned)
      ensures pc == (if temporary.Some? then Copying(target, temporary.value) else UndoingTarget(target))
      ensures Ready() && temporary.None? ==> Refused()
      ensures temporary.Some? ==>
        && FirstFreeTemporary(target, old(disk), temporary.value)
        && temporary.value !in old(disk).files && disk.files == old(disk).files[temporary.value := old(disk).next]
      ensures temporary.None? ==> disk == old(disk)
    {
      hide Run, HarmlessRun, Refused, Ready, Traced, Temporary, Advance, FirstFreeTemporary, TemporariesBelow;
      NoneBelow(job, target, disk);
      var index := 1;
      while index < NAME_LIMIT
        decreases NAME_LIMIT - index
        invariant 1 <= index <= NAME_LIMIT
        invariant Valid() && pc == Opening(target, index) && abandoned == old(abandoned)
        invariant disk == old(disk) && (old(Refused()) ==> Refused())
        invariant TemporariesBelow(target, disk, index)
      {
        TemporaryTaken(target, disk, index);
        ghost var before := disk;
        ghost var c := will(calls);
        var p := Temporary(target, index);
        AfterCreate(target, index, disk, c);
        var r := Attempt(Create(p));
        match r {
          case Done =>
            Retrace(before, c, Go(Copying(target, p), Create(p)));
            return Some(p);
          case AlreadyExists =>
            Retrace(before, c, Go(Opening(target, index + 1)));
          case OtherError(_) =>
            Retrace(before, c, Go(UndoingTarget(target)));
            RefusedHere();
            return None;
        }
        index := index + 1;
      }
      NamesExhausted(target, disk);
      Retrace(disk, Proceed(0), Go(UndoingTarget(target)));
      RefusedHere();
      return None;
    }

    /** One round of `copyfileobj`; the number of bytes it moves is the system's choice. */
    method CopyOnce(target: Path, p: Path) returns (ok: bool)
      requires Valid() && pc == Copying(target, p) && job.source in disk.files && p in disk.files
      requires |disk.Content(p)| < |disk.Content(job.source)|
      modifies this
      ensures old(Refused()) ==> Refused()
      ensures Valid() && abandoned == old(abandoned)
      ensures pc == (if ok then Copying(target, p) else UndoingCopy(target, p))
      ensures ok ==> |old(disk).Content(p)| < |disk.Content(p)| <= |old(disk).Content(job.source)|
      ensures ok <==> old(will(calls)).Proceed?
      ensures !ok ==> Refused()
      ensures disk.files == old(disk).files
    {
      hide Run, HarmlessRun, Refused, Ready, Traced, Placement.MakeDirectory, Placement.ReservePath, Placement.LinkTemporary,
        Placement.OpenTemporary, Placement.ReplaceTarget, Placement.UnlinkSource, Placement.Undo,
        Placement.RemoveParent;
      ghost var before := disk;
      var answer := will(calls);
      var chunk := if answer.Proceed? then answer.chunk else 0;
      var bytes := CopyStep(disk.Content(job.source), disk.Content(p), chunk);
      var r := Attempt(Write(p, bytes));
      ok := r.Done?;
      if ok {
        assert disk.Content(p) == bytes;
        Retrace(before, answer, Go(Copying(target, p), Write(p, bytes)));
      } else {
        Retrace(before, answer, Go(UndoingCopy(target, p)));
      }
    }

    /** `copyfileobj`: some bytes at a time. */
    method CopyAll(target: Path, p: Path) returns (ok: bool)
      requires Valid() && Initial(start) && pc == Copying(target, p)
      modifies this
      ensures old(Refused()) ==> Refused()
      ensures Valid() && abandoned == old(abandoned) && disk.files == old(disk).files
      ensures pc == if ok then Copying(target, p) else UndoingCopy(target, p)
      ensures ok ==> job.source in disk.files && p in disk.files
      ensures ok ==> disk.Content(p) == disk.Content(job.source) == start.disk.Content(job.source)
      ensures !ok ==> Refused()
    {
      hide Initial, Run, HarmlessRun, Disk.Content, Traced;
      CopySound();
      while |disk.Content(p)| < |disk.Content(job.source)|
        invariant Valid() && pc == Copying(target, p) && abandoned == old(abandoned) && disk.files == old(disk).files
        invariant old(Refused()) ==> Refused()
        invariant job.source in disk.files && p in disk.files
        invariant disk.Content(job.source) == start.disk.Content(job.source)
        invariant disk.Content(p) <= disk.Content(job.source)
        decreases |start.disk.Content(job.source)| - |disk.Content(p)|
      {
        ok := CopyOnce(target, p);
        if !ok { return false; }
        CopySound();
      }
      return true;
    }

    /** `_copy_to_temporary`, which cleans up after itself. */
    method CopyToTemporary(target: Path) returns (temporary: Option<Path>)
      requires Valid() && Initial(start) && pc == Opening(target, 1) && target != [] && abandoned == {}
      modifies this
      ensures old(Refused()) ==> Refused()
      ensures Valid()
      ensures pc == (if temporary.Some? then Replacing(target, temporary.value, if job.move then Moved else Copied)
                     else UndoingTarget(target))
      ensures temporary.Some? ==>
        && abandoned == {} && temporary.value in disk.files
        && disk.Content(temporary.value) == start.disk.Content(job.source)
        && FirstFreeTemporary(target, old(disk), temporary.value)
      ensures temporary.None? ==> disk.files.Keys == old(disk).files.Keys + abandoned
      ensures Ready() && temporary.None? ==> Refused()
    {
      hide Traced, Initial, Run, HarmlessRun, Refused, Ready, FirstFreeTemporary, Disk.Content, Placement.MakeDirectory, Placement.ReservePath,
        Placement.LinkTemporary, Placement.OpenTemporary, Placement.ReplaceTarget, Placement.UnlinkSource,
        Placement.Undo, Placement.RemoveParent;
      temporary := OpenTemporary(target);
      if temporary.None? { return None; }
      var p := temporary.value;
      var ok := CopyAll(target, p);
      if !ok {
        UnlinkCopy(target, p);
        return None;
      }
      Retrace(disk, Proceed(0), Go(Replacing(target, p, if job.move then Moved else Copied)));
    }

    /** The protocol's invariant, read at the point the trace has reached. */
    lemma InvHere()
      requires Valid() && Initial(start)
      ensures Inv(start.disk, State(disk, map[0 := Placer(job, pc)], abandoned))
    {
      InitialInv(start);
      hide Inv, Initial;
      RunKeeps(start.disk, start, schedule);
      hide Run;
      assert State(disk, map[0 := Placer(job, pc)], abandoned) == Run(start, schedule);
    }

    lemma CopySound()
      requires Valid() && Initial(start) && pc.Copying?
      ensures job.source in disk.files && pc.temporary in disk.files
      ensures disk.Content(job.source) == start.disk.Content(job.source)
      ensures disk.Content(pc.temporary) <= disk.Content(job.source)
    {
      hide Inv, Initial, Run, HarmlessRun, PlacerOk, Disk.Content;
      InvHere();
      SourceFacts(start.disk, State(disk, map[0 := Placer(job, pc)], abandoned), 0);
      PlacerHere();
      CopyFacts(start.disk, disk, Placer(job, pc));
    }

    lemma PlacerHere()
      requires Inv(start.disk, State(disk, map[0 := Placer(job, pc)], abandoned))
      ensures PlacerOk(start.disk, disk, Placer(job, pc))
    {
      var s := State(disk, map[0 := Placer(job, pc)], abandoned);
      hide PlacerOk;
      assert PlacerOk(start.disk, s.disk, s.placers[0]);
    }

    lemma TargetNamed(target: Path)
      requires Valid() && Initial(start) && pc == Start(job, target)
      ensures target != [] && Parent(target) == job.dir && job.root <= job.dir
    {
      InvHere();
      hide Inv, Initial, Run;
      PlacerHere();
      JobFacts(start.disk, State(disk, map[0 := Placer(job, pc)], abandoned), 0);
    }

    method UnlinkCopy(target: Path, temporary: Path)
      requires Valid() && pc == UndoingCopy(target, temporary)
      modifies this
      ensures old(Refused()) || old(will(calls)).Fault? ==> Refused()
      ensures Valid() && pc == UndoingTarget(target)
      ensures abandoned == old(abandoned) + if old(will(calls)).Fault? then {temporary} else {}
      ensures disk.files == if old(will(calls)).Fault? then old(disk).files else old(disk).files - {temporary}
    {
      hide Run, HarmlessRun, Refused, Ready, Traced, Placement.MakeDirectory, Placement.ReservePath, Placement.LinkTemporary,
        Placement.OpenTemporary, Placement.CopyMore, Placement.ReplaceTarget, Placement.UnlinkSource,
        Placement.RemoveParent;
      ghost var before, c := disk, will(calls);
      var r := Attempt(Unlink(temporary));
      if r.Done? {
        Retrace(before, c, Go(UndoingTarget(target), Unlink(temporary)));
      } else {
        Retrace(before, c, Then(UndoingTarget(target), Nothing, {temporary}));
      }
    }

    /** `_remove_empty_parents`: it stops below the library, at the first directory that is not empty, or where
        the system refuses. */
    method RemoveEmptyParents(parent: Path) returns (ghost stop: Path)
      requires Valid() && pc == RemovingParents(parent) && job.root <= parent
      modifies this
      ensures old(Refused()) ==> Refused()
      ensures Valid() && pc == Failed && abandoned == old(abandoned)
      ensures job.root <= stop <= parent
      ensures disk == old(disk).(dirs := old(disk).dirs - Between(stop, parent))
      ensures stop == job.root || !disk.EmptyDirectory(stop) || (calls > old(calls) && will(calls - 1).Fault?)
    {
      hide Traced, Run, HarmlessRun, Disk.EmptyDirectory, Between, Refused, Ready, Placement.MakeDirectory,
        Placement.ReservePath, Placement.LinkTemporary, Placement.OpenTemporary, Placement.CopyMore,
        Placement.ReplaceTarget, Placement.UnlinkSource, Placement.Undo;
      var path := parent;
      NothingBetween(disk, path);
      while path != job.root
        invariant Valid() && pc == RemovingParents(path) && abandoned == old(abandoned)
        invariant job.root <= path <= parent && calls >= old(calls) && (old(Refused()) ==> Refused())
        invariant disk == old(disk).(dirs := old(disk).dirs - Between(path, parent))
        decreases |path|
      {
        ghost var before, c := disk, will(calls);
        var r := Attempt(Rmdir(path));
        if !r.Done? {
          Retrace(before, c, Go(Failed));
          return path;
        }
        Retrace(before, c, Go(RemovingParents(Parent(path)), Rmdir(path)));
        OneUp(old(disk).dirs, path, parent);
        path := Parent(path);
      }
      Retrace(disk, Proceed(0), Go(Failed));
      return path;
    }

    /** The `except` clause of `place_file`, once there is no temporary to think of. */
    method UnlinkTarget(target: Path)
      requires Valid() && pc == UndoingTarget(target) && job.root <= Parent(target)
      modifies this
      ensures old(Refused()) || old(will(calls)).Fault? ==> Refused()
      ensures Valid() && pc == Failed
      ensures abandoned == old(abandoned) + if old(will(calls)).Fault? then {target} else {}
      ensures disk.files == if old(will(calls)).Fault? then old(disk).files else old(disk).files - {target}
      ensures disk.dirs <= old(disk).dirs
      ensures forall p :: p in old(disk).dirs && p !in disk.dirs ==> job.root < p <= Parent(target)
    {
      hide Traced, Run, HarmlessRun, Between, Refused, Ready, Placement.MakeDirectory, Placement.ReservePath,
        Placement.LinkTemporary, Placement.OpenTemporary, Placement.CopyMore, Placement.ReplaceTarget,
        Placement.UnlinkSource, Placement.RemoveParent;
      ghost var before, c := disk, will(calls);
      var r := Attempt(Unlink(target));
      if !r.Done? {
        Retrace(before, c, Then(Failed, Nothing, {target}));
        return;
      }
      Retrace(before, c, Go(RemovingParents(Parent(target)), Unlink(target)));
      ghost var stop := RemoveEmptyParents(Parent(target));
      BetweenBelow(stop, Parent(target), job.root);
    }

    /** The whole `except` clause: `temporary` may already have been renamed away. What an unlink refuses to give
        back is recorded, and then nothing more is tried. */
    method Rollback(target: Path, temporary: Path, ghost renamed: bool)
      requires Valid() && pc == UndoingTemporary(target, temporary, renamed) && job.root <= Parent(target)
      requires target !in abandoned
      modifies this
      ensures old(Refused()) ==> Refused()
      ensures Valid() && pc == Failed
      ensures abandoned == old(abandoned) ==> disk.files == old(disk).files - {target, temporary}
      ensures abandoned == old(abandoned) || Refused()
      ensures abandoned <= old(abandoned) + {target, temporary}
      ensures old(disk).files - {target, temporary} == disk.files - {target, temporary}
      ensures disk.dirs <= old(disk).dirs
      ensures forall p :: p in old(disk).dirs && p !in disk.dirs ==> job.root < p <= Parent(target)
    {
      hide Run, HarmlessRun, Refused, Ready, Traced, Placement.MakeDirectory, Placement.ReservePath, Placement.LinkTemporary,
        Placement.OpenTemporary, Placement.CopyMore, Placement.ReplaceTarget, Placement.UnlinkSource,
        Placement.RemoveParent;
      ghost var before, c := disk, will(calls);
      var r := Attempt(Unlink(temporary));
      if !r.Done? {
        Retrace(before, c, Then(Failed, Nothing, if renamed then {target} else {target, temporary}));
        return;
      }
      Retrace(before, c, Go(UndoingTarget(target), Unlink(temporary)));
      UnlinkTarget(target);
    }

    lemma ReplacingFacts()
      requires Valid() && Initial(start) && pc.Replacing?
      ensures pc.target in disk.files && pc.temporary in disk.files && pc.target != pc.temporary
      ensures disk.files[pc.target] != disk.files[pc.temporary]
    {
      hide Inv, Initial, Run, HarmlessRun;
      InvHere();
      PlacerHere();
    }

    /** `temporary.replace(target)`, or the rollback. */
    method PutInPlace(target: Path, temporary: Path, how: Method) returns (renamed: bool)
      requires Valid() && pc == Replacing(target, temporary, how) && job.root <= Parent(target) && target !in abandoned
      requires temporary in disk.files && target in disk.files && disk.files[target] != disk.files[temporary]
      modifies this
      ensures old(Refused()) ==> Refused()
      ensures Valid() && pc == (if !renamed then Failed else if job.move then UnlinkingSource(target, temporary) else Placed(target, how))
      ensures renamed ==> abandoned == old(abandoned) && disk.files == Renamed(old(disk).files, temporary, target)
      ensures !renamed ==> disk.files - {target, temporary} == old(disk).files - {target, temporary}
      ensures !renamed && abandoned == old(abandoned) ==> disk.files == old(disk).files - {target, temporary}
      ensures Ready() && !renamed ==> Refused()
    {
      hide Run, HarmlessRun, Refused, Ready, Traced, Placement.MakeDirectory, Placement.ReservePath, Placement.LinkTemporary,
        Placement.OpenTemporary, Placement.CopyMore, Placement.UnlinkSource, Placement.Undo, Placement.RemoveParent;
      ghost var before, c := disk, will(calls);
      var renaming := Attempt(Rename(temporary, target));
      renamed := renaming.Done?;
      if renamed {
        Retrace(before, c, Go(if job.move then UnlinkingSource(target, temporary) else Placed(target, how), Rename(temporary, target)));
      } else {
        Retrace(before, c, Go(UndoingTemporary(target, temporary, false)));
        RefusedHere();
        Rollback(target, temporary, false);
      }
    }

    /** The `try` block after the temporary is made: rename it into place, then let go of a moved source. */
    method Commit(target: Path, temporary: Path, how: Method) returns (r: Result)
      requires Valid() && Initial(start) && pc == Replacing(target, temporary, how) && (job.move ==> how == Moved)
      requires job.root <= Parent(target) && target !in abandoned
      modifies this
      ensures old(Refused()) ==> Refused()
      ensures Valid() && pc == (if r.Success? then Placed(r.path, r.how) else Failed)
      ensures r.Success? ==>
        && r.path == target && r.how == how && abandoned == old(abandoned) && temporary in old(disk).files
        && disk.files == Renamed(old(disk).files, temporary, target) - (if job.move then {job.source} else {})
      ensures r.Raised? ==> disk.files - {target, temporary} == old(disk).files - {target, temporary}
      ensures r.Raised? && abandoned == old(abandoned) ==> disk.files == old(disk).files - {target, temporary}
      ensures Ready() && r.Raised? ==> Refused()
    {
      hide Run, HarmlessRun, Refused, Ready, Traced, Initial, Valid;
      ReplacingFacts();
      var renamed := PutInPlace(target, temporary, how);
      if !renamed { return Raised; }
      if job.move {
        var gone := LetGo(target, temporary);
        if !gone { return Raised; }
      }
      return Success(target, how);
    }

    /** `source.unlink()`, or the rollback. */
    method LetGo(target: Path, temporary: Path) returns (gone: bool)
      requires Valid() && pc == UnlinkingSource(target, temporary)
      requires job.root <= Parent(target) && target !in abandoned
      modifies this
      ensures old(Refused()) ==> Refused()
      ensures Valid() && pc == (if gone then Placed(target, Moved) else Failed)
      ensures gone ==> abandoned == old(abandoned) && disk.files == old(disk).files - {job.source}
      ensures !gone ==> disk.files - {target, temporary} == old(disk).files - {target, temporary}
      ensures !gone && abandoned == old(abandoned) ==> disk.files == old(disk).files - {target, temporary}
      ensures Ready() && !gone ==> Refused()
    {
      hide Run, HarmlessRun, Refused, Ready, Traced, Placement.MakeDirectory, Placement.ReservePath, Placement.LinkTemporary,
        Placement.OpenTemporary, Placement.CopyMore, Placement.ReplaceTarget, Placement.Undo, Placement.RemoveParent;
      ghost var before, c := disk, Proceed(0);
      var unlinking := OtherError(false);
      if job.source in disk.files {
        c := will(calls);
        unlinking := Attempt(Unlink(job.source));
      }
      gone := unlinking.Done?;
      if gone {
        Retrace(before, c, Go(Placed(target, Moved), Unlink(job.source)));
      } else {
        Retrace(before, c, Go(UndoingTemporary(target, temporary, true)));
        RefusedHere();
        Rollback(target, temporary, true);
      }
    }

    method PlaceTraced() returns (r: Result)
      requires Valid() && Initial(start) && pc == MakingDirectories(|job.dir|, true) && abandoned == {}
      modifies this
      ensures old(Refused()) ==> Refused()
      ensures Valid() && pc == (if r.Success? then Placed(r.path, r.how) else Failed)
      ensures r.Success? ==> abandoned == {} && (job.move <==> r.how == Moved)
      ensures r.Success? ==> FirstFree(job, old(disk), r.path)
      ensures Ready() && r.Raised? ==> Refused()
      ensures r.Success? && otherDevice ==> r.how != Hardlink
      ensures r.Success? && Ready() && !job.move && !otherDevice && r.how != Hardlink ==> Refused()
    {
      hide Run, HarmlessRun, Refused, Ready, Traced, Initial, FirstFree, FirstFreeTemporary;
      var made := MakeDirectories();
      if !made { return Raised; }
      ghost var before := disk;
      var reserved := ReservePath();
      if reserved.None? { return Raised; }
      var target := reserved.value;
      FreeBefore(job, old(disk), before, target);
      TargetNamed(target);
      var temporary: Option<Path>;
      var how: Method;
      if job.move {
        how := Moved;
        temporary := CopyToTemporary(target);
      } else {
        how := Hardlink;
        var crossDevice;
        temporary, crossDevice := HardlinkToTemporary(target);
        if crossDevice {
          how := Copied;
          temporary := CopyToTemporary(target);
        }
      }
      if temporary.None? {
        UnlinkTarget(target);
        return Raised;
      }
      r := Commit(target, temporary.value, how);
    }

    /** `place_file`. What the files look like afterwards does not mention the protocol at all. */
    method Place() returns (r: Result)
      requires Valid() && Initial(start) && start.disk == disk && pc == MakingDirectories(|job.dir|, true) && abandoned == {}
      requires calls == 0
      modifies this
      ensures old(Refused()) ==> Refused()
      ensures Valid()
      ensures r.Success? ==>
        && abandoned == {} && r.path !in old(disk).files && Parent(r.path) == job.dir && FirstFree(job, old(disk), r.path)
        && disk.files.Keys == old(disk).files.Keys - (if job.move then {job.source} else {}) + {r.path}
        && disk.Content(r.path) == old(disk).Content(job.source)
        && (job.move <==> r.how == Moved)
      ensures r.Raised? && abandoned == {} ==> disk.files.Keys == old(disk).files.Keys
      ensures abandoned == {} ==> forall p :: p in old(disk).files && p in disk.files ==>
        disk.files[p] == old(disk).files[p] && disk.Content(p) == old(disk).Content(p)
      ensures r.Raised? && RoomFor(old(disk), job) ==>
        exists k :: 0 <= k < calls && will(k).Fault?
      ensures r.Success? && (job.move || otherDevice) ==> r.how == if job.move then Moved else Copied
      ensures r.Success? && !job.move && !otherDevice && r.how != Hardlink && RoomFor(old(disk), job) ==>
        exists k :: 0 <= k < calls && will(k).Fault?
    {
      hide Run, HarmlessRun, Initial, RoomFor, Ready, FirstFree;
      StartRoomy();
      r := PlaceTraced();
      if abandoned == {} { FilesAfter(); }
    }

    /** What the files are once the placement has stopped. */
    lemma FilesAfter()
      requires Valid() && Initial(start) && Finished(pc) && abandoned == {}
      ensures disk.files.Keys == start.disk.files.Keys
        - (if pc.Placed? && job.move then {job.source} else {}) + (if pc.Placed? then {pc.target} else {})
      ensures forall p :: p in start.disk.files && p in disk.files ==>
        disk.files[p] == start.disk.files[p] && disk.Content(p) == start.disk.Content(p)
      ensures pc.Placed? ==>
        && pc.target !in start.disk.files && Parent(pc.target) == job.dir
        && disk.Content(pc.target) == start.disk.Content(job.source)
    {
      hide Inv, Run, HarmlessRun, Initial, Disk.Content;
      ghost var f := Run(start, schedule);
      OnePlacement(f, job, pc);
      AllOrNothing(start, schedule);
      if pc.Placed? {
        InvHere();
        PlacedFacts(start.disk, State(disk, map[0 := Placer(job, pc)], abandoned), 0);
      }
    }

    lemma StartRoomy()
      requires Initial(start) && start.placers.Keys == {0} && start.placers[0].job == job
      ensures RoomFor(start.disk, job) ==> Ready()
    {
      hide Roomy;
      assert start.placers == map[0 := Placer(job, MakingDirectories(|job.dir|, true))];
    }
  }

  lemma NothingBetween(d: Disk, p: Path)
    ensures d == d.(dirs := d.dirs - Between(p, p))
  {
    assert d.dirs - Between(p, p) == d.dirs;
  }

  lemma OneUp(dirs: set<Path>, path: Path, parent: Path)
    requires path != [] && path <= parent
    ensures dirs - Between(path, parent) - {path} == dirs - Between(Parent(path), parent)
    ensures Parent(path) <= parent
  {
    var up := Parent(path);
    forall p ensures p in Between(up, parent) <==> p == path || p in Between(path, parent) {
      assert path == parent[..|path|];
      if p in Between(up, parent) {
        var k :| |up| < k <= |parent| && p == parent[..k];
      }
    }
  }

  lemma BetweenBelow(low: Path, high: Path, root: Path)
    requires root <= low <= high
    ensures forall p :: p in Between(low, high) ==> root < p <= high
  {
  }

  lemma CopyFacts(init: Disk, d: Disk, pl: Placer)
    requires PlacerOk(init, d, pl) && pl.pc.Copying?
    ensures pl.job.source in d.files && pl.pc.temporary in d.files
    ensures d.Content(pl.pc.temporary) <= init.Content(pl.job.source)
  {
  }

  lemma OnePlacement(f: State, job: Job, pc: Pc)
    requires f.placers == map[0 := Placer(job, pc)] && Finished(pc)
    ensures AllFinished(f)
    ensures Targets(f) == if pc.Placed? then {pc.target} else {}
    ensures MovedSources(f) == if pc.Placed? && job.move then {job.source} else {}
  {
    assert f.placers[0] == Placer(job, pc);
  }
}
