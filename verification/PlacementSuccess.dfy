/** What it takes for a placement to succeed: that no call of its own fails, and that nobody removes a
    directory on its way. */
module PlacementSuccess {
  import opened FileSystem
  import opened Placement
  import opened PlacementSafety
  import opened PlacementTheorems
  import opened PlacementProgress

  // ---- room for everybody ----

  /** The names a placement may reserve that nothing on the initial disk uses. */
  ghost function FreeNames(d: Disk, job: Job): set<Path>
  {
    set i | 1 <= i < NAME_LIMIT && !d.Exists(Candidate(job, i)) :: Candidate(job, i)
  }

  ghost function FreeTemporaries(d: Disk, t: Path): set<Path>
    requires t != []
  {
    set i | 1 <= i < NAME_LIMIT && !d.Exists(Temporary(t, i)) :: Temporary(t, i)
  }

  /** One library layout for all, and no file where a directory is wanted. */
  ghost predicate LaidOut(d: Disk, placers: map<nat, Placer>)
  {
    && (forall a, b :: a in placers && b in placers ==> |placers[a].job.dir| == |placers[b].job.dir|)
    && (forall a, k :: a in placers && 0 <= k <= |placers[a].job.dir| ==> placers[a].job.dir[..k] !in d.files)
  }

  /** Besides, at least as many free names as importers, and as many free temporaries of every name. */
  ghost predicate Roomy(d: Disk, placers: map<nat, Placer>)
  {
    && LaidOut(d, placers)
    && (forall a :: a in placers ==> |FreeNames(d, placers[a].job)| >= |placers|)
    && (forall a, t :: a in placers && t != [] && Parent(t) == placers[a].job.dir && LibraryName(t) ==>
          |FreeTemporaries(d, t)| >= |placers|)
  }

  // ---- calls that work ----

  /** A call that works, a hardlink refused because the library is on another file system, or no call at all. */
  predicate Harmless(s: State, id: nat, c: Choice)
    requires id in s.placers
  {
    Finished(s.placers[id].pc) || c.Proceed? || (s.placers[id].pc.Linking? && c.crossDevice)
  }

  /** No call of anybody fails. */
  predicate HarmlessRun(s: State, schedule: seq<(nat, Choice)>)
    requires Schedulable(s, schedule)
    decreases |schedule|
  {
    schedule != [] ==>
      && Harmless(s, schedule[0].0, schedule[0].1)
      && HarmlessRun(Step(s, schedule[0].0, schedule[0].1), schedule[1..])
  }

  /** No call of `a` fails; those of others may. */
  predicate HarmlessFor(s: State, schedule: seq<(nat, Choice)>, a: nat)
    requires Schedulable(s, schedule) && a in s.placers
    decreases |schedule|
  {
    schedule != [] ==>
      && (schedule[0].0 == a ==> Harmless(s, a, schedule[0].1))
      && HarmlessFor(Step(s, schedule[0].0, schedule[0].1), schedule[1..], a)
  }

  // ---- what was ever reserved ----

  /** The one target and the one temporary each placement ever made, also those given up since. */
  datatype History = History(targets: map<nat, Path>, temporaries: map<nat, Path>)

  const NOTHING_YET: History := History(map[], map[])

  predicate Reserved(pc: Pc)
  {
    !(pc.MakingDirectories? || pc.Reserving? || pc.RemovingParents? || pc.Failed?)
  }

  predicate Scratching(pc: Pc)
  {
    pc.Copying? || pc.Replacing? || pc.UndoingCopy? || (pc.UndoingTemporary? && !pc.renamed)
  }

  function Remember(h: History, id: nat, pc: Pc): History
  {
    History(
      if Reserved(pc) then h.targets[id := pc.target] else h.targets,
      if Scratching(pc) then h.temporaries[id := pc.temporary] else h.temporaries)
  }

  predicate PcRecorded(h: History, id: nat, pc: Pc)
  {
    && (Reserved(pc) ==> id in h.targets && h.targets[id] == pc.target)
    && (Scratching(pc) ==> id in h.temporaries && h.temporaries[id] == pc.temporary)
    && (pc.MakingDirectories? || pc.Reserving? ==> id !in h.targets)
    && (pc.MakingDirectories? || pc.Reserving? || pc.Linking? || pc.Opening? ==> id !in h.temporaries)
  }

  predicate Extends(h: History, h': History)
  {
    && (forall b :: b in h.targets ==> b in h'.targets && h'.targets[b] == h.targets[b])
    && (forall b :: b in h.temporaries ==> b in h'.temporaries && h'.temporaries[b] == h.temporaries[b])
  }

  predicate In(names: map<nat, Path>, p: Path)
  {
    exists b :: b in names && names[b] == p
  }

  /** What a placement has made it does not make again. */
  predicate Remakes(pc: Pc, pc': Pc)
  {
    && (Reserved(pc') ==> (Reserved(pc) && pc'.target == pc.target) || pc.Reserving?)
    && (Scratching(pc') ==> (Scratching(pc) && pc'.temporary == pc.temporary) || pc.Linking? || pc.Opening?)
    && (pc'.MakingDirectories? || pc'.Reserving? ==> pc.MakingDirectories? || pc.Reserving?)
    && (pc'.Linking? || pc'.Opening? ==> pc.MakingDirectories? || pc.Reserving? || pc.Linking? || pc.Opening?)
  }

  lemma NothingRemade(job: Job, pc: Pc, d: Disk, c: Choice)
    ensures Remakes(pc, Advance(job, pc, d, c).pc)
  {
    hide Temporary, Candidate, CopyStep, Disk.Content, Permitted, Disk.EmptyDirectory, Disk.Exists;
  }

  lemma RememberNext(h: History, id: nat, pc: Pc, pc': Pc)
    requires PcRecorded(h, id, pc) && Remakes(pc, pc')
    ensures Extends(h, Remember(h, id, pc')) && PcRecorded(Remember(h, id, pc'), id, pc')
  {
  }

  lemma RememberExtends(h: History, id: nat, job: Job, pc: Pc, d: Disk, c: Choice)
    requires PcRecorded(h, id, pc)
    ensures
      var pc' := Advance(job, pc, d, c).pc;
      Extends(h, Remember(h, id, pc')) && PcRecorded(Remember(h, id, pc'), id, pc')
  {
    hide Advance, PcRecorded, Extends, Remember, Remakes;
    NothingRemade(job, pc, d, c);
    RememberNext(h, id, pc, Advance(job, pc, d, c).pc);
  }

  /** Every file that is not an initial one was made by a placement the history knows. */
  ghost predicate FilesRecorded(init: Disk, d: Disk, h: History)
  {
    forall p :: p in d.files && p !in init.files ==> In(if LibraryName(p) then h.targets else h.temporaries, p)
  }

  ghost predicate NamesRecorded(placers: map<nat, Placer>, h: History)
  {
    && (forall b :: b in h.targets ==>
          b in placers && LibraryName(h.targets[b]) && Parent(h.targets[b]) == placers[b].job.dir)
    && (forall b :: b in h.temporaries ==>
          b in placers && h.temporaries[b] != [] && Parent(h.temporaries[b]) == placers[b].job.dir)
  }

  ghost predicate Recorded(init: Disk, s: State, h: History)
  {
    && (forall b :: b in s.placers ==> PcRecorded(h, b, s.placers[b].pc))
    && NamesRecorded(s.placers, h)
    && FilesRecorded(init, s.disk, h)
  }

  lemma PlacerNames(init: Disk, d: Disk, pl: Placer)
    requires PlacerOk(init, d, pl)
    ensures Reserved(pl.pc) ==> LibraryName(pl.pc.target) && Parent(pl.pc.target) == pl.job.dir
    ensures Scratching(pl.pc) ==>
      pl.pc.temporary != [] && !LibraryName(pl.pc.temporary) && Parent(pl.pc.temporary) == pl.job.dir
  {
    if Scratching(pl.pc) {
      var t, p := pl.pc.target, pl.pc.temporary;
      var i: nat :| p == Temporary(t, i);
      TemporaryName(t, i);
    }
  }

  lemma HoldsNames(pc: Pc, p: Path)
    requires Holds(pc, p)
    ensures (Reserved(pc) && p == pc.target) || (Scratching(pc) && p == pc.temporary)
  {
  }

  lemma StepFilesRecorded(init: Disk, s: State, h: History, id: nat, m: Action)
    requires id in s.placers && Permitted(s.disk, m.call) && Tidy(init, s, id, m)
    requires FilesRecorded(init, s.disk, h)
    requires Continues(init, s.disk, s.placers[id].job, m)
    requires Extends(h, Remember(h, id, m.pc)) && PcRecorded(Remember(h, id, m.pc), id, m.pc)
    ensures FilesRecorded(init, Apply(s.disk, m.call), Remember(h, id, m.pc))
  {
    var d', h' := Apply(s.disk, m.call), Remember(h, id, m.pc);
    PlacerNames(init, d', Placer(s.placers[id].job, m.pc));
    hide PlacerOk, Remember, Apply, Reserved, Scratching, LibraryName, Permitted, Holds;
    forall p | p in d'.files && p !in init.files
      ensures In(if LibraryName(p) then h'.targets else h'.temporaries, p)
    {
      if Holds(m.pc, p) {
        HoldsNames(m.pc, p);
      } else {
        assert p in s.disk.files by { if !Touches(m.call, p) { assert Agree(s.disk, d', p); } }
      }
    }
  }

  lemma StepNamesRecorded(init: Disk, s: State, h: History, id: nat, m: Action)
    requires id in s.placers && Permitted(s.disk, m.call) && NamesRecorded(s.placers, h)
    requires Continues(init, s.disk, s.placers[id].job, m)
    ensures NamesRecorded(After(s, id, m).placers, Remember(h, id, m.pc))
  {
    PlacerNames(init, Apply(s.disk, m.call), Placer(s.placers[id].job, m.pc));
    hide PlacerOk;
  }

  lemma StepRecorded(init: Disk, s: State, h: History, id: nat, c: Choice)
    requires Inv(init, s) && Recorded(init, s, h) && id in s.placers
    ensures
      var s' := Step(s, id, c);
      id in s'.placers && Recorded(init, s', Remember(h, id, s'.placers[id].pc))
      && Extends(h, Remember(h, id, s'.placers[id].pc))
  {
    var pl := s.placers[id];
    var m := Advance(pl.job, pl.pc, s.disk, c);
    StepTakes(init, s, id, c);
    StepTidy(init, s, id, m);
    RememberExtends(h, id, pl.job, pl.pc, s.disk, c);
    hide Inv, Advance, Tidy, Contained, PlacerOk;
    StepFilesRecorded(init, s, h, id, m);
    StepNamesRecorded(init, s, h, id, m);
    OthersRecorded(s, h, id, m);
  }

  lemma OthersRecorded(s: State, h: History, id: nat, m: Action)
    requires id in s.placers && Permitted(s.disk, m.call)
    requires forall b :: b in s.placers ==> PcRecorded(h, b, s.placers[b].pc)
    requires PcRecorded(Remember(h, id, m.pc), id, m.pc)
    ensures
      var s' := After(s, id, m);
      forall b :: b in s'.placers ==> PcRecorded(Remember(h, id, m.pc), b, s'.placers[b].pc)
  {
  }

  // ---- names never run out ----

  /** Among more names than a map has keys, one is not a value of it. */
  lemma {:induction false} FewValues(taken: map<nat, Path>, names: set<Path>)
    requires forall p :: p in names ==> In(taken, p)
    ensures |names| <= |taken|
    decreases |taken|
  {
    if names != {} {
      var p :| p in names;
      var b :| b in taken && taken[b] == p;
      var fewer := taken - {b};
      forall q | q in names - {p} ensures In(fewer, q) {
        var e :| e in taken && taken[e] == q;
        assert e in fewer && fewer[e] == q;
      }
      assert fewer.Keys == taken.Keys - {b};
      FewValues(fewer, names - {p});
    }
  }

  lemma FewerKeys(placers: map<nat, Placer>, taken: map<nat, Path>, a: nat)
    requires a in placers && a !in taken && taken.Keys <= placers.Keys
    ensures |taken| < |placers|
  {
    SubsetSize(taken.Keys + {a}, placers.Keys);
    assert |taken.Keys + {a}| == |taken.Keys| + 1;
  }

  lemma {:induction false} SubsetSize(x: set<nat>, y: set<nat>)
    requires x <= y
    ensures |x| <= |y|
    decreases x
  {
    if x != {} {
      var e :| e in x;
      SubsetSize(x - {e}, y - {e});
    }
  }

  ghost predicate NameLeft(init: Disk, job: Job, taken: map<nat, Path>)
  {
    exists j :: 1 <= j < NAME_LIMIT && !init.Exists(Candidate(job, j)) && !In(taken, Candidate(job, j))
  }

  ghost predicate TemporaryLeft(init: Disk, t: Path, taken: map<nat, Path>)
    requires t != []
  {
    exists j :: 1 <= j < NAME_LIMIT && !init.Exists(Temporary(t, j)) && !In(taken, Temporary(t, j))
  }

  /** An importer that has reserved nothing finds a name nobody has ever taken. */
  lemma NamesLast(init: Disk, placers: map<nat, Placer>, a: nat, taken: map<nat, Path>)
    requires a in placers && a !in taken && taken.Keys <= placers.Keys
    requires |FreeNames(init, placers[a].job)| >= |placers|
    ensures NameLeft(init, placers[a].job, taken)
  {
    var names := FreeNames(init, placers[a].job);
    FewerKeys(placers, taken, a);
    if forall p :: p in names ==> In(taken, p) {
      FewValues(taken, names);
    } else {
      var p :| p in names && !In(taken, p);
    }
  }

  lemma TemporariesLast(init: Disk, placers: map<nat, Placer>, a: nat, taken: map<nat, Path>, t: Path)
    requires a in placers && a !in taken && taken.Keys <= placers.Keys
    requires t != [] && |FreeTemporaries(init, t)| >= |placers|
    ensures TemporaryLeft(init, t, taken)
  {
    var names := FreeTemporaries(init, t);
    FewerKeys(placers, taken, a);
    if forall p :: p in names ==> In(taken, p) {
      FewValues(taken, names);
    } else {
      var p :| p in names && !In(taken, p);
    }
  }

  // ---- on the way ----

  /** A placement on its way: the directories it has passed are there, and every name it has passed over
      was taken when it tried it. */
  ghost predicate Forward(init: Disk, dirs: set<Path>, h: History, job: Job, pc: Pc)
  {
    match pc
    case MakingDirectories(depth, parents) =>
      depth <= |job.dir| && (!parents ==> depth > 0 && forall k :: 0 <= k < depth ==> job.dir[..k] in dirs)
    case Reserving(index) =>
      && job.dir in dirs && 1 <= index <= NAME_LIMIT
      && forall j :: 1 <= j < index ==> init.Exists(Candidate(job, j)) || In(h.targets, Candidate(job, j))
    case Linking(t, index) => Passed(init, h, t, index)
    case Opening(t, index) => Passed(init, h, t, index)
    case _ => !Doomed(pc)
  }

  ghost predicate Passed(init: Disk, h: History, t: Path, index: nat)
  {
    && t != [] && 1 <= index <= NAME_LIMIT
    && forall j :: 1 <= j < index ==> init.Exists(Temporary(t, j)) || In(h.temporaries, Temporary(t, j))
  }

  /** Directories made on the way are shallower than any file placed. */
  ghost predicate ShallowDirectories(init: Disk, s: State)
  {
    forall p, a :: p in s.disk.dirs && p !in init.dirs && a in s.placers ==> |p| <= |s.placers[a].job.dir|
  }

  /** What holds after every run, whatever failed. */
  ghost predicate World(init: Disk, s: State, h: History)
  {
    Inv(init, s) && Roomy(init, s.placers) && ShallowDirectories(init, s) && Recorded(init, s, h)
  }

  ghost predicate OnItsWay(init: Disk, s: State, h: History, a: nat)
  {
    a in s.placers && Forward(init, s.disk.dirs, h, s.placers[a].job, s.placers[a].pc)
  }

  lemma MkdirShallow(job: Job, pc: Pc, d: Disk, c: Choice, path: Path)
    requires Advance(job, pc, d, c).call == Mkdir(path)
    ensures |path| <= |job.dir|
  {
    hide Temporary, Candidate, CopyStep, Disk.Content, Permitted;
  }

  lemma NewDirectories(s: State, id: nat, c: Choice)
    requires id in s.placers
    ensures forall p :: p in Step(s, id, c).disk.dirs && p !in s.disk.dirs ==> |p| <= |s.placers[id].job.dir|
  {
    var m := Advance(s.placers[id].job, s.placers[id].pc, s.disk, c);
    if m.call.Mkdir? { MkdirShallow(s.placers[id].job, s.placers[id].pc, s.disk, c, m.call.path); }
    hide Advance;
  }

  lemma StepShallow(init: Disk, s: State, id: nat, c: Choice)
    requires ShallowDirectories(init, s) && id in s.placers
    requires forall a :: a in s.placers ==> |s.placers[a].job.dir| == |s.placers[id].job.dir|
    ensures ShallowDirectories(init, Step(s, id, c))
  {
    NewDirectories(s, id, c);
    StepSame(s, id, c);
    hide Step;
  }

  lemma SameRoom(init: Disk, placers: map<nat, Placer>, placers': map<nat, Placer>)
    requires Roomy(init, placers) && placers'.Keys == placers.Keys
    requires forall a :: a in placers ==> placers'[a].job == placers[a].job
    ensures Roomy(init, placers')
  {
    assert |placers'.Keys| == |placers'|;
  }

  lemma WorldStep(init: Disk, s: State, h: History, id: nat, c: Choice)
    requires World(init, s, h) && id in s.placers
    ensures
      var s' := Step(s, id, c);
      && id in s'.placers && World(init, s', Remember(h, id, s'.placers[id].pc))
      && Extends(h, Remember(h, id, s'.placers[id].pc))
  {
    var s' := Step(s, id, c);
    hide Inv, Step, Roomy, Recorded, Remember, Extends, ShallowDirectories;
    StepKeeps(init, s, id, c);
    StepSame(s, id, c);
    StepRecorded(init, s, h, id, c);
    SameRoom(init, s.placers, s'.placers);
    OneDepth(init, s.placers);
    StepShallow(init, s, id, c);
  }

  lemma RoomyIsLaidOut(d: Disk, placers: map<nat, Placer>)
    requires Roomy(d, placers)
    ensures LaidOut(d, placers)
  {
  }

  lemma OneDepth(init: Disk, placers: map<nat, Placer>)
    requires Roomy(init, placers)
    ensures forall a, b :: a in placers && b in placers ==> |placers[a].job.dir| == |placers[b].job.dir|
  {
  }

  /** A name as deep as a placed file that exists was there from the start, or was taken by somebody. */
  lemma ExistsTaken(init: Disk, s: State, h: History, a: nat, p: Path)
    requires ShallowDirectories(init, s) && Recorded(init, s, h) && a in s.placers
    requires p != [] && Parent(p) == s.placers[a].job.dir && s.disk.Exists(p)
    ensures init.Exists(p) || In(if LibraryName(p) then h.targets else h.temporaries, p)
  {
    hide LibraryName, In, PcRecorded, NamesRecorded;
  }

  /** A new file is one name deeper than the directories. */
  lemma NewFileDepth(init: Disk, s: State, h: History, id: nat, p: Path)
    requires LaidOut(init, s.placers) && Recorded(init, s, h) && id in s.placers
    requires p in s.disk.files && p !in init.files
    ensures |p| > |s.placers[id].job.dir|
  {
    hide PcRecorded;
    var names := if LibraryName(p) then h.targets else h.temporaries;
    assert In(names, p);
    var b :| b in names && names[b] == p;
    assert p != [] && Parent(p) == s.placers[b].job.dir;
  }

  lemma NoFileInTheWay(init: Disk, s: State, h: History, id: nat)
    requires World(init, s, h) && id in s.placers
    ensures forall k :: 0 <= k <= |s.placers[id].job.dir| ==> s.placers[id].job.dir[..k] !in s.disk.files
  {
    hide Inv, ShallowDirectories, Recorded;
    var dir := s.placers[id].job.dir;
    forall k | 0 <= k <= |dir| ensures dir[..k] !in s.disk.files {
      if dir[..k] in s.disk.files { NewFileDepth(init, s, h, id, dir[..k]); }
    }
  }

  // ---- the next call of a placement on its way ----

  /** What the action of a placement on its way must be. */
  ghost predicate Onward(init: Disk, d: Disk, h: History, job: Job, m: Action)
  {
    && m.abandoned == {}
    && !m.call.Rmdir?
    && Forward(init, d.dirs + (if m.call.Mkdir? then {m.call.path} else {}), h, job, m.pc)
  }

  /** Above a directory there are only directories. */
  lemma {:induction false} Above(d: Disk, p: Path, k: nat)
    requires d.Valid() && p in d.dirs && k <= |p|
    ensures p[..k] in d.dirs
    decreases |p|
  {
    if k == |p| {
      assert p[..k] == p;
    } else {
      assert Parent(p)[..k] == p[..k];
      Above(d, Parent(p), k);
    }
  }

  lemma DirectoriesOnward(init: Disk, d: Disk, h: History, job: Job, depth: nat, parents: bool, c: Choice)
    requires d.Valid() && c.Proceed? && Forward(init, d.dirs, h, job, MakingDirectories(depth, parents))
    requires forall k :: 0 <= k <= |job.dir| ==> job.dir[..k] !in d.files
    ensures Onward(init, d, h, job, MakeDirectory(job, depth, parents, d, c))
  {
    var p := job.dir[..depth];
    assert [] in d.dirs && job.dir[..|job.dir|] == job.dir;
    assert depth > 0 ==> Parent(p) == job.dir[..depth - 1];
    forall k | 0 <= k <= depth ensures p[..k] == job.dir[..k] {}
    if p in d.dirs {
      forall k | 0 <= k <= depth ensures job.dir[..k] in d.dirs { Above(d, p, k); }
    } else if Parent(p) in d.dirs {
      forall k | 0 <= k < depth ensures job.dir[..k] in d.dirs {
        Above(d, Parent(p), k);
        assert Parent(p)[..k] == job.dir[..k];
      }
    }
    hide Disk.Valid;
  }

  lemma ReservingOnward(init: Disk, d: Disk, h: History, job: Job, index: nat, c: Choice)
    requires c.Proceed? && Forward(init, d.dirs, h, job, Reserving(index))
    requires NameLeft(init, job, h.targets)
    requires d.Exists(Candidate(job, index)) ==> init.Exists(Candidate(job, index)) || In(h.targets, Candidate(job, index))
    ensures Onward(init, d, h, job, ReservePath(job, index, d, c))
  {
  }

  lemma LinkingOnward(init: Disk, d: Disk, h: History, job: Job, t: Path, index: nat, c: Choice)
    requires (c.Proceed? || c.crossDevice) && Passed(init, h, t, index)
    requires TemporaryLeft(init, t, h.temporaries)
    requires Parent(t) in d.dirs && job.source in d.files
    requires d.Exists(Temporary(t, index)) ==> init.Exists(Temporary(t, index)) || In(h.temporaries, Temporary(t, index))
    ensures Onward(init, d, h, job, LinkTemporary(job, t, index, d, c))
  {
  }

  lemma OpeningOnward(init: Disk, d: Disk, h: History, job: Job, t: Path, index: nat, c: Choice)
    requires c.Proceed? && Passed(init, h, t, index)
    requires TemporaryLeft(init, t, h.temporaries)
    requires Parent(t) in d.dirs
    requires d.Exists(Temporary(t, index)) ==> init.Exists(Temporary(t, index)) || In(h.temporaries, Temporary(t, index))
    ensures Onward(init, d, h, job, OpenTemporary(t, index, d, c))
  {
  }

  lemma CommitOnward(init: Disk, d: Disk, h: History, job: Job, pc: Pc, c: Choice)
    requires (c.Proceed? && (pc.Copying? || pc.Replacing? || pc.UnlinkingSource?)) || pc.Placed?
    requires !pc.Placed? ==> job.source in d.files
    requires pc.Copying? || pc.Replacing? ==> pc.temporary in d.files
    requires pc.target != [] && pc.target !in d.dirs && Parent(pc.target) in d.dirs
    ensures Onward(init, d, h, job, Advance(job, pc, d, c))
  {
  }

  lemma CommitAll(init: Disk, s: State, h: History, id: nat, c: Choice)
    requires Inv(init, s) && id in s.placers
    requires
      var pc := s.placers[id].pc;
      (c.Proceed? && (pc.Copying? || pc.Replacing? || pc.UnlinkingSource?)) || pc.Placed?
    ensures
      var pl := s.placers[id];
      Onward(init, s.disk, h, pl.job, Advance(pl.job, pl.pc, s.disk, c))
  {
    hide Inv, Onward, Advance, Disk.Content, LibraryName;
    var pc := s.placers[id].pc;
    TargetFacts(init, s, id, pc.target);
    SourceFacts(init, s, id);
    if pc.Copying? || pc.Replacing? { ScratchFacts(init, s, id, pc.temporary); }
    CommitOnward(init, s.disk, h, s.placers[id].job, pc, c);
  }

  lemma JobFacts(init: Disk, s: State, id: nat)
    requires Inv(init, s) && id in s.placers
    ensures s.disk.Valid() && JobOk(init, s.placers[id].job)
  {
  }

  lemma RoomFacts(init: Disk, placers: map<nat, Placer>, id: nat)
    requires Roomy(init, placers) && id in placers
    ensures |FreeNames(init, placers[id].job)| >= |placers|
    ensures forall t :: t != [] && Parent(t) == placers[id].job.dir && LibraryName(t) ==>
      |FreeTemporaries(init, t)| >= |placers|
  {
  }

  lemma HistoryFacts(init: Disk, s: State, h: History, id: nat)
    requires Recorded(init, s, h) && id in s.placers
    ensures h.targets.Keys <= s.placers.Keys && h.temporaries.Keys <= s.placers.Keys
    ensures s.placers[id].pc.Reserving? ==> id !in h.targets
    ensures s.placers[id].pc.Linking? || s.placers[id].pc.Opening? ==> id !in h.temporaries
  {
    hide FilesRecorded;
  }

  lemma TemporaryRoom(init: Disk, s: State, h: History, id: nat, t: Path, index: nat)
    requires World(init, s, h) && id in s.placers
    requires (s.placers[id].pc.Linking? || s.placers[id].pc.Opening?) && IsTarget(s.placers[id].pc, t)
    ensures t != [] && Parent(t) in s.disk.dirs && s.placers[id].job.source in s.disk.files
    ensures TemporaryLeft(init, t, h.temporaries)
    ensures s.disk.Exists(Temporary(t, index)) ==>
      init.Exists(Temporary(t, index)) || In(h.temporaries, Temporary(t, index))
  {
    hide Inv, Roomy, ShallowDirectories, Recorded, FreeTemporaries, In;
    TargetFacts(init, s, id, t);
    SourceFacts(init, s, id);
    RoomFacts(init, s.placers, id);
    HistoryFacts(init, s, h, id);
    TemporariesLast(init, s.placers, id, h.temporaries, t);
    TemporaryName(t, index);
    if s.disk.Exists(Temporary(t, index)) { ExistsTaken(init, s, h, id, Temporary(t, index)); }
  }

  lemma NameRoom(init: Disk, s: State, h: History, id: nat, index: nat)
    requires World(init, s, h) && id in s.placers && s.placers[id].pc.Reserving? && index >= 1
    ensures
      var job := s.placers[id].job;
      && NameLeft(init, job, h.targets)
      && (s.disk.Exists(Candidate(job, index)) ==>
            init.Exists(Candidate(job, index)) || In(h.targets, Candidate(job, index)))
  {
    hide Inv, Roomy, ShallowDirectories, Recorded, FreeNames, In;
    RoomFacts(init, s.placers, id);
    HistoryFacts(init, s, h, id);
    NamesLast(init, s.placers, id, h.targets);
    JobFacts(init, s, id);
    CandidateName(init, s.placers[id].job, index);
    if s.disk.Exists(Candidate(s.placers[id].job, index)) {
      ExistsTaken(init, s, h, id, Candidate(s.placers[id].job, index));
    }
  }

  lemma PcFacts(init: Disk, s: State, h: History, id: nat)
    requires World(init, s, h) && OnItsWay(init, s, h, id)
    ensures Inv(init, s) && s.disk.Valid() && !Doomed(s.placers[id].pc)
    ensures s.placers[id].pc.Reserving? ==> s.placers[id].pc.index >= 1
    ensures s.placers[id].pc.Linking? || s.placers[id].pc.Opening? ==>
      Passed(init, h, s.placers[id].pc.target, s.placers[id].pc.index)
  {
    hide Inv, Roomy, ShallowDirectories, Recorded, Passed, Disk.Valid, JobOk;
    JobFacts(init, s, id);
  }

  lemma OwnOnward(init: Disk, s: State, h: History, id: nat, c: Choice)
    requires World(init, s, h) && OnItsWay(init, s, h, id) && Harmless(s, id, c)
    ensures
      var pl := s.placers[id];
      Onward(init, s.disk, h, pl.job, Advance(pl.job, pl.pc, s.disk, c))
  {
    hide World, Inv, Onward, Forward, Passed, NameLeft, TemporaryLeft, Temporary, Candidate, MakeDirectory, ReservePath,
      LinkTemporary, OpenTemporary, CopyMore, ReplaceTarget, UnlinkSource, Undo, RemoveParent;
    PcFacts(init, s, h, id);
    var job, pc := s.placers[id].job, s.placers[id].pc;
    match pc
    case MakingDirectories(depth, parents) =>
      NoFileInTheWay(init, s, h, id);
      DirectoriesOnward(init, s.disk, h, job, depth, parents, c);
    case Reserving(index) =>
      NameRoom(init, s, h, id, index);
      ReservingOnward(init, s.disk, h, job, index, c);
    case Linking(t, index) =>
      TemporaryRoom(init, s, h, id, t, index);
      LinkingOnward(init, s.disk, h, job, t, index, c);
    case Opening(t, index) =>
      TemporaryRoom(init, s, h, id, t, index);
      OpeningOnward(init, s.disk, h, job, t, index, c);
    case Copying(_, _) => CommitAll(init, s, h, id, c);
    case Replacing(_, _, _) => CommitAll(init, s, h, id, c);
    case UnlinkingSource(_, _) => CommitAll(init, s, h, id, c);
    case Placed(_, _) => CommitAll(init, s, h, id, c);
    case _ =>
  }

  /** The directories a placement counts on: those it has come down from, and all of them until it has its file. */
  predicate CountsOn(job: Job, pc: Pc, p: Path)
  {
    p <= job.dir && match pc
    case MakingDirectories(depth, parents) => !parents && |p| < depth
    case Reserving(_) => true
    case _ => false
  }

  /** More directories and a longer history keep a placement on its way. */
  lemma ForwardLater(init: Disk, dirs: set<Path>, h: History, dirs': set<Path>, h': History, job: Job, pc: Pc)
    requires Forward(init, dirs, h, job, pc) && Extends(h, h')
    requires forall p :: p in dirs && CountsOn(job, pc, p) ==> p in dirs'
    ensures Forward(init, dirs', h', job, pc)
  {
    forall p | In(h.targets, p) ensures In(h'.targets, p) {
      var b :| b in h.targets && h.targets[b] == p;
      assert b in h'.targets && h'.targets[b] == p;
    }
    forall p | In(h.temporaries, p) ensures In(h'.temporaries, p) {
      var b :| b in h.temporaries && h.temporaries[b] == p;
      assert b in h'.temporaries && h'.temporaries[b] == p;
    }
    hide In;
    assert pc.Reserving? ==> CountsOn(job, pc, job.dir);
    if pc.MakingDirectories? && !pc.parents {
      forall k | 0 <= k < pc.depth ensures job.dir[..k] in dirs' { assert CountsOn(job, pc, job.dir[..k]); }
    }
  }

  /** The call does not remove a directory the placement counts on. */
  predicate Spares(call: Call, pl: Placer)
  {
    call.Rmdir? ==> !CountsOn(pl.job, pl.pc, call.path)
  }

  function NextCall(s: State, id: nat, c: Choice): Call
    requires id in s.placers
  {
    Advance(s.placers[id].job, s.placers[id].pc, s.disk, c).call
  }

  /** What a step does to the directories. */
  lemma StepDirectories(s: State, id: nat, c: Choice)
    requires id in s.placers
    ensures
      var call := NextCall(s, id, c);
      Step(s, id, c).disk.dirs ==
        if call.Mkdir? then s.disk.dirs + {call.path} else if call.Rmdir? then s.disk.dirs - {call.path} else s.disk.dirs
  {
    hide Advance;
  }

  lemma SparedDirectories(s: State, id: nat, c: Choice, pl: Placer)
    requires id in s.placers && Spares(NextCall(s, id, c), pl)
    ensures forall p :: p in s.disk.dirs && CountsOn(pl.job, pl.pc, p) ==> p in Step(s, id, c).disk.dirs
  {
    StepDirectories(s, id, c);
    hide Step, NextCall;
  }

  lemma StepActs(s: State, id: nat, c: Choice)
    requires id in s.placers
    ensures
      var m := Advance(s.placers[id].job, s.placers[id].pc, s.disk, c);
      && id in Step(s, id, c).placers
      && Step(s, id, c).placers[id] == s.placers[id].(pc := m.pc)
      && Step(s, id, c).abandoned == s.abandoned + m.abandoned
      && NextCall(s, id, c) == m.call
  {
    hide Advance, Apply;
  }

  lemma OwnStep(init: Disk, s: State, h: History, a: nat, c: Choice)
    requires World(init, s, h) && OnItsWay(init, s, h, a) && Harmless(s, a, c)
    ensures
      var s' := Step(s, a, c);
      && a in s'.placers && OnItsWay(init, s', Remember(h, a, s'.placers[a].pc), a)
      && !NextCall(s, a, c).Rmdir? && s'.abandoned == s.abandoned
  {
    hide World, Inv, Remember, Forward, Advance, Harmless, Extends, Step, NextCall;
    var s' := Step(s, a, c);
    WorldStep(init, s, h, a, c);
    OwnOnward(init, s, h, a, c);
    StepActs(s, a, c);
    StepDirectories(s, a, c);
    var job := s.placers[a].job;
    var m := Advance(job, s.placers[a].pc, s.disk, c);
    var dirs := s.disk.dirs + (if m.call.Mkdir? then {m.call.path} else {});
    assert s'.disk.dirs == dirs;
    ForwardLater(init, dirs, h, dirs, Remember(h, a, m.pc), job, m.pc);
  }

  lemma OtherStep(init: Disk, s: State, h: History, id: nat, c: Choice, a: nat)
    requires World(init, s, h) && OnItsWay(init, s, h, a) && id in s.placers && id != a
    requires Spares(NextCall(s, id, c), s.placers[a])
    ensures
      var s' := Step(s, id, c);
      id in s'.placers && OnItsWay(init, s', Remember(h, id, s'.placers[id].pc), a)
  {
    hide World, Remember, Forward, NextCall, Spares, Extends, Step;
    var s' := Step(s, id, c);
    WorldStep(init, s, h, id, c);
    StepSame(s, id, c);
    SparedDirectories(s, id, c, s.placers[a]);
    var h' := Remember(h, id, s'.placers[id].pc);
    ForwardLater(init, s.disk.dirs, h, s'.disk.dirs, h', s.placers[a].job, s.placers[a].pc);
  }

  /** A harmless call of its own, or one of another that removes no directory it counts on, keeps a
      placement on its way. */
  lemma WayStep(init: Disk, s: State, h: History, id: nat, c: Choice, a: nat)
    requires World(init, s, h) && OnItsWay(init, s, h, a) && id in s.placers
    requires if id == a then Harmless(s, a, c) else Spares(NextCall(s, id, c), s.placers[a])
    ensures
      var s' := Step(s, id, c);
      && id in s'.placers && OnItsWay(init, s', Remember(h, id, s'.placers[id].pc), a)
      && (id == a ==> !NextCall(s, id, c).Rmdir? && s'.abandoned == s.abandoned)
  {
    hide World, OnItsWay, Step, Remember, NextCall, Harmless, Spares;
    if id == a { OwnStep(init, s, h, a, c); } else { OtherStep(init, s, h, id, c, a); }
  }

  lemma StartsOnItsWay(s: State, a: nat)
    requires Initial(s) && Roomy(s.disk, s.placers) && a in s.placers
    ensures World(s.disk, s, NOTHING_YET) && OnItsWay(s.disk, s, NOTHING_YET, a)
  {
    hide Inv, Roomy;
    InitialInv(s);
    InvLocal(s.disk, s, a);
    hide Local, JobsOk;
  }

  lemma ArrivedIsPlaced(init: Disk, s: State, h: History, a: nat)
    requires OnItsWay(init, s, h, a) && Finished(s.placers[a].pc)
    ensures s.placers[a].pc.Placed?
  {
  }

  // ---- nobody's calls fail ----

  ghost predicate AllOnTheirWay(init: Disk, s: State, h: History)
  {
    s.abandoned == {} && forall a :: a in s.placers ==> OnItsWay(init, s, h, a)
  }

  lemma AllStep(init: Disk, s: State, h: History, id: nat, c: Choice)
    requires World(init, s, h) && AllOnTheirWay(init, s, h) && id in s.placers && Harmless(s, id, c)
    ensures
      var s' := Step(s, id, c);
      && id in s'.placers && World(init, s', Remember(h, id, s'.placers[id].pc))
      && AllOnTheirWay(init, s', Remember(h, id, s'.placers[id].pc))
  {
    StepSame(s, id, c);
    WorldStep(init, s, h, id, c);
    hide World, OnItsWay, Step, Remember, NextCall, Harmless;
    var s' := Step(s, id, c);
    WayStep(init, s, h, id, c, id);
    forall a | a in s'.placers ensures OnItsWay(init, s', Remember(h, id, s'.placers[id].pc), a) {
      if a != id { WayStep(init, s, h, id, c, a); }
    }
  }

  lemma {:induction false} AllRun(init: Disk, s: State, h: History, schedule: seq<(nat, Choice)>) returns (h': History)
    requires World(init, s, h) && AllOnTheirWay(init, s, h)
    requires Schedulable(s, schedule) && HarmlessRun(s, schedule)
    ensures AllOnTheirWay(init, Run(s, schedule), h')
    decreases |schedule|
  {
    hide World, AllOnTheirWay, Step, Harmless, Remember;
    if schedule == [] {
      h' := h;
    } else {
      var (id, c) := schedule[0];
      StepSame(s, id, c);
      AllStep(init, s, h, id, c);
      var s' := Step(s, id, c);
      h' := AllRun(init, s', Remember(h, id, s'.placers[id].pc), schedule[1..]);
    }
  }

  /** Any number of downloads finishing at once all import, in every interleaving in which no call
      fails and each placement gets its turns. */
  lemma AllImport(s: State, schedule: seq<(nat, Choice)>)
    requires Initial(s) && Roomy(s.disk, s.placers)
    requires Schedulable(s, schedule) && HarmlessRun(s, schedule)
    requires forall a :: a in s.placers ==>
      Turns(schedule, a) >= Rank(s.disk, s.placers[a], |s.disk.Content(s.placers[a].job.source)|)
    ensures
      var f := Run(s, schedule);
      && f.abandoned == {} && AllFinished(f) && f.placers.Keys == s.placers.Keys
      && forall a :: a in f.placers ==> f.placers[a].pc.Placed?
  {
    hide Inv, Initial, Roomy, Rank, Run, HarmlessRun, World, OnItsWay, Disk.Content, Turns;
    RunSame(s, schedule);
    var f := Run(s, schedule);
    if s.placers == map[] {
      NobodyRuns(s, schedule);
    } else {
      InitialInv(s);
      var h := HarmlessWay(s, schedule);
      forall a | a in f.placers ensures f.placers[a].pc.Placed? {
        EveryPlacementStops(s.disk, s, schedule, a);
        ArrivedIsPlaced(s.disk, f, h, a);
      }
    }
  }

  lemma FirstTurn(s: State, schedule: seq<(nat, Choice)>)
    requires Schedulable(s, schedule) && schedule != []
    ensures schedule[0].0 in s.placers
  {
  }

  lemma NobodyRuns(s: State, schedule: seq<(nat, Choice)>)
    requires Initial(s) && Schedulable(s, schedule) && s.placers == map[]
    ensures Run(s, schedule) == s && s.abandoned == {}
  {
    hide Disk.Valid, JobsOk;
    if schedule != [] { FirstTurn(s, schedule); }
  }

  /** Without failing calls everybody is still on the way at the end. */
  lemma HarmlessWay(s: State, schedule: seq<(nat, Choice)>) returns (h: History)
    requires Initial(s) && Roomy(s.disk, s.placers) && s.placers != map[]
    requires Schedulable(s, schedule) && HarmlessRun(s, schedule)
    ensures AllOnTheirWay(s.disk, Run(s, schedule), h)
  {
    hide Inv, Initial, Roomy, Run, HarmlessRun, World, OnItsWay;
    NothingAbandoned(s);
    forall a | a in s.placers ensures World(s.disk, s, NOTHING_YET) && OnItsWay(s.disk, s, NOTHING_YET, a) {
      StartsOnItsWay(s, a);
    }
    var some :| some in s.placers;
    assert OnItsWay(s.disk, s, NOTHING_YET, some);
    h := AllRun(s.disk, s, NOTHING_YET, schedule);
  }

  lemma NothingAbandoned(s: State)
    requires Initial(s)
    ensures s.abandoned == {}
  {
  }

  // ---- a call that fails ----

  lemma StepDooms(s: State, id: nat, c: Choice, a: nat)
    requires id in s.placers && a in s.placers
    requires Doomed(s.placers[a].pc) || (a == id && !Harmless(s, id, c))
    ensures Doomed(Step(s, id, c).placers[a].pc)
  {
  }

  lemma {:induction false} DoomedForGood(s: State, schedule: seq<(nat, Choice)>, a: nat)
    requires Schedulable(s, schedule) && a in s.placers && Doomed(s.placers[a].pc)
    ensures a in Run(s, schedule).placers && Doomed(Run(s, schedule).placers[a].pc)
    decreases |schedule|
  {
    hide Step, Doomed;
    if schedule != [] {
      var (id, c) := schedule[0];
      StepDooms(s, id, c, a);
      StepSame(s, id, c);
      DoomedForGood(Step(s, id, c), schedule[1..], a);
    }
  }

  /** A call that fails costs the placement that makes it, whatever else happens. */
  lemma {:induction false} OwnFaultDooms(s: State, schedule: seq<(nat, Choice)>, a: nat)
    requires Schedulable(s, schedule) && a in s.placers && !HarmlessFor(s, schedule, a)
    ensures a in Run(s, schedule).placers && Doomed(Run(s, schedule).placers[a].pc)
    decreases |schedule|
  {
    hide Step, Doomed, Harmless;
    var (id, c) := schedule[0];
    StepSame(s, id, c);
    if id == a && !Harmless(s, a, c) {
      StepDooms(s, a, c, a);
      DoomedForGood(Step(s, a, c), schedule[1..], a);
    } else {
      OwnFaultDooms(Step(s, id, c), schedule[1..], a);
    }
  }

  /** A run in which something fails is one in which a call of somebody in particular does. */
  lemma {:induction false} SomebodysFault(s: State, schedule: seq<(nat, Choice)>) returns (a: nat)
    requires Schedulable(s, schedule) && !HarmlessRun(s, schedule)
    ensures a in s.placers && !HarmlessFor(s, schedule, a)
    decreases |schedule|
  {
    hide Step, Harmless;
    var (id, c) := schedule[0];
    StepSame(s, id, c);
    if Harmless(s, id, c) { a := SomebodysFault(Step(s, id, c), schedule[1..]); } else { a := id; }
  }

  /** Given their turns, downloads finishing at once all import exactly when no call of any of them fails. */
  lemma AllImportIff(s: State, schedule: seq<(nat, Choice)>)
    requires Initial(s) && Roomy(s.disk, s.placers) && Schedulable(s, schedule)
    requires forall a :: a in s.placers ==>
      Turns(schedule, a) >= Rank(s.disk, s.placers[a], |s.disk.Content(s.placers[a].job.source)|)
    ensures (forall a :: a in Run(s, schedule).placers ==> Run(s, schedule).placers[a].pc.Placed?)
        <==> HarmlessRun(s, schedule)
  {
    if HarmlessRun(s, schedule) {
      AllImport(s, schedule);
    } else {
      hide Run, Initial, Roomy, Rank, HarmlessRun, HarmlessFor;
      var a := SomebodysFault(s, schedule);
      OwnFaultDooms(s, schedule, a);
    }
  }
}
