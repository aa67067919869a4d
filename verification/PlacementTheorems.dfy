/** What `place_file` promises, over every schedule of any number of placements. */
module PlacementTheorems {
  import opened FileSystem
  import opened Placement
  import opened PlacementSafety

  ghost predicate Schedulable(s: State, schedule: seq<(nat, Choice)>)
  {
    forall k :: 0 <= k < |schedule| ==> schedule[k].0 in s.placers
  }

  lemma {:induction false} RunSplit(s: State, first: seq<(nat, Choice)>, later: seq<(nat, Choice)>)
    requires Schedulable(s, first) && Schedulable(s, later)
    ensures Run(s, first).placers.Keys == s.placers.Keys
    ensures Run(s, first + later) == Run(Run(s, first), later)
    decreases |first|
  {
    hide Step;
    RunSame(s, first);
    if first == [] {
      assert first + later == later;
    } else {
      StepSame(s, first[0].0, first[0].1);
      assert (first + later)[1..] == first[1..] + later;
      RunSplit(Step(s, first[0].0, first[0].1), first[1..], later);
    }
  }

  lemma PlacedFacts(init: Disk, s: State, a: nat)
    requires Inv(init, s) && a in s.placers && s.placers[a].pc.Placed?
    ensures
      var t := s.placers[a].pc.target;
      && t !in init.files && Parent(t) == s.placers[a].job.dir
      && t in s.disk.files && s.disk.Content(t) == init.Content(s.placers[a].job.source)
      && forall b :: b in s.placers && b != a ==> !Holds(s.placers[b].pc, t)
  {
    assert PlacerOk(init, s.disk, s.placers[a]);
    assert Holds(s.placers[a].pc, s.placers[a].pc.target);
    hide PlacerOk, NewInodesUnshared, BytesKept, EveryFileAccounted, InitialFilesKept, JobsOk;
  }

  lemma SourceFacts(init: Disk, s: State, a: nat)
    requires Inv(init, s) && a in s.placers
    ensures
      var source := s.placers[a].job.source;
      && source in init.files
      && (MovedAway(s.placers[a]) <==> source !in s.disk.files)
      && (source in s.disk.files ==> s.disk.Content(source) == init.Content(source))
  {
  }

  /** Reservations and temporaries are pairwise distinct and on disk, and no rollback removes a
      directory that holds one. */
  lemma ReservationsSafe(s: State, schedule: seq<(nat, Choice)>, a: nat, b: nat, p: Path)
    requires Initial(s) && Schedulable(s, schedule)
    requires a in Run(s, schedule).placers && Holds(Run(s, schedule).placers[a].pc, p)
    requires b in Run(s, schedule).placers && b != a
    ensures
      var f := Run(s, schedule);
      && p in f.disk.files && p !in s.disk.files && Parent(p) in f.disk.dirs
      && !Holds(f.placers[b].pc, p) && p != f.placers[b].job.source
  {
    hide Run, Initial;
    InitialInv(s);
    RunKeeps(s.disk, s, schedule);
    HeldOnDisk(s.disk, Run(s, schedule).disk, Run(s, schedule).placers[a]);
    hide PlacerOk, NewInodesUnshared, EveryFileAccounted, InitialFilesKept;
  }

  /** A call by one placement changes nothing that belongs to another: not its reservation, its
      temporary or its source, nor the name of a temporary it may still unlink. */
  lemma CallsStayApart(init: Disk, s: State, id: nat, c: Choice, a: nat, p: Path)
    requires Inv(init, s) && id in s.placers && a in s.placers && a != id
    requires Watches(s.placers[a], p)
    ensures Agree(s.disk, Step(s, id, c).disk, p)
  {
    var m := Advance(s.placers[id].job, s.placers[id].pc, s.disk, c);
    StepTakes(init, s, id, c);
    hide Advance, PlacerOk;
    WatchedElsewhere(init, s, id, a, m, p);
    assert !Touches(m.call, p);
    ApplyCareful(init, s.disk, m.call);
  }

  /** A placed file is where it was put, with the source's bytes, whatever others do or fail to do
      afterwards; it replaced nothing, and no other placement holds it. */
  lemma PlacedForGood(s: State, first: seq<(nat, Choice)>, later: seq<(nat, Choice)>, a: nat)
    requires Initial(s) && Schedulable(s, first) && Schedulable(s, later)
    requires a in Run(s, first).placers && Run(s, first).placers[a].pc.Placed?
    ensures
      var t, f := Run(s, first).placers[a].pc.target, Run(s, first + later);
      && a in s.placers && a in f.placers && f.placers[a] == Run(s, first).placers[a]
      && t !in s.disk.files && Parent(t) == s.placers[a].job.dir
      && t in f.disk.files && f.disk.Content(t) == s.disk.Content(s.placers[a].job.source)
      && forall b :: b in f.placers && b != a ==> !Holds(f.placers[b].pc, t)
  {
    hide Inv, Initial, Run, Holds, Disk.Content;
    InitialInv(s);
    RunSplit(s, first, later);
    RunSame(s, first);
    RunSame(Run(s, first), later);
    RunKeeps(s.disk, s, first + later);
    PlacedFacts(s.disk, Run(s, first + later), a);
  }

  /** At every moment the bytes of a download can be read from its source or from its place in the library. */
  lemma BytesReachable(s: State, schedule: seq<(nat, Choice)>, a: nat)
    requires Initial(s) && Schedulable(s, schedule) && a in s.placers
    ensures
      var f, source := Run(s, schedule), s.placers[a].job.source;
      && a in f.placers
      && ((source in f.disk.files && f.disk.Content(source) == s.disk.Content(source))
          || (f.placers[a].pc.Placed? && f.placers[a].pc.target in f.disk.files
              && f.disk.Content(f.placers[a].pc.target) == s.disk.Content(source)))
  {
    hide Inv, Initial, Run;
    InitialInv(s);
    RunSame(s, schedule);
    RunKeeps(s.disk, s, schedule);
    SourceFacts(s.disk, Run(s, schedule), a);
    if MovedAway(Run(s, schedule).placers[a]) { PlacedFacts(s.disk, Run(s, schedule), a); }
  }

  ghost function Targets(s: State): set<Path>
  {
    set a | a in s.placers && s.placers[a].pc.Placed? :: s.placers[a].pc.target
  }

  ghost function MovedSources(s: State): set<Path>
  {
    set a | a in s.placers && MovedAway(s.placers[a]) :: s.placers[a].job.source
  }

  ghost predicate AllFinished(s: State)
  {
    forall a :: a in s.placers ==> Finished(s.placers[a].pc)
  }

  lemma FilesFacts(init: Disk, f: State)
    requires Inv(init, f) && f.abandoned == {} && AllFinished(f)
    ensures forall p :: p in init.files && p in f.disk.files ==>
      f.disk.files[p] == init.files[p] && f.disk.Content(p) == init.Content(p)
    ensures forall p :: p in init.files && p !in f.disk.files ==> p in MovedSources(f)
    ensures forall p :: p in f.disk.files && p !in init.files ==> p in Targets(f)
  {
    hide PlacerOk, NewInodesUnshared, Exclusive, JobsOk;
    forall p | p in f.disk.files && p !in init.files ensures p in Targets(f) {
      var a :| a in f.placers && Holds(f.placers[a].pc, p);
      assert f.placers[a].pc.target == p;
    }
  }

  lemma FinishedFiles(init: Disk, f: State)
    requires Inv(init, f) && f.abandoned == {} && AllFinished(f)
    ensures f.disk.files.Keys == (init.files.Keys - MovedSources(f)) + Targets(f)
    ensures Targets(f) !! init.files.Keys
  {
    FilesFacts(init, f);
    hide Inv;
    forall p | p in Targets(f) ensures p in f.disk.files && p !in init.files {
      var a :| a in f.placers && f.placers[a].pc.Placed? && f.placers[a].pc.target == p;
      PlacedFacts(init, f, a);
    }
    forall p | p in MovedSources(f) ensures p !in f.disk.files {
      var a :| a in f.placers && MovedAway(f.placers[a]) && f.placers[a].job.source == p;
      SourceFacts(init, f, a);
    }
  }

  /** All or nothing: once every placement has stopped, and unless an unlink of some rollback failed,
      the files are the old ones, less the moved sources, plus one new file per success, and no
      byte of an old file has changed. */
  lemma AllOrNothing(s: State, schedule: seq<(nat, Choice)>)
    requires Initial(s) && Schedulable(s, schedule)
    requires Run(s, schedule).abandoned == {} && AllFinished(Run(s, schedule))
    ensures
      var f := Run(s, schedule);
      && f.disk.files.Keys == (s.disk.files.Keys - MovedSources(f)) + Targets(f)
      && Targets(f) !! s.disk.files.Keys
      && (forall p :: p in s.disk.files && p in f.disk.files ==>
            f.disk.files[p] == s.disk.files[p] && f.disk.Content(p) == s.disk.Content(p))
      && (forall a :: a in f.placers && f.placers[a].pc.Placed? ==>
            f.disk.Content(f.placers[a].pc.target) == s.disk.Content(f.placers[a].job.source))
  {
    hide Inv, Initial, Run;
    InitialInv(s);
    RunKeeps(s.disk, s, schedule);
    var f := Run(s, schedule);
    FinishedFiles(s.disk, f);
    FilesFacts(s.disk, f);
    forall a | a in f.placers && f.placers[a].pc.Placed?
      ensures f.disk.Content(f.placers[a].pc.target) == s.disk.Content(f.placers[a].job.source)
    {
      PlacedFacts(s.disk, f, a);
    }
  }
}
