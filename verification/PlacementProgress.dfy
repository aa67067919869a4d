/** Placements stop, and when nothing fails they all succeed, with no coordination. */
module PlacementProgress {
  import opened FileSystem
  import opened Placement
  import opened PlacementSafety
  import opened PlacementTheorems

  // ---- every placement stops ----

  function Left(n: nat, done: nat): nat
  {
    if done < n then n - done else 0
  }

  /** An upper bound on the calls a placement has still to make. `size` is the length of its source. */
  function Rank(d: Disk, pl: Placer, size: nat): nat
  {
    var depth := |pl.job.dir|;
    match pl.pc
    case MakingDirectories(k, parents) =>
      depth + 10 + size + 3 * NAME_LIMIT + (if parents then depth + 2 + k else Left(depth + 1, k))
    case Reserving(i) => depth + 9 + size + 2 * NAME_LIMIT + Left(NAME_LIMIT, i)
    case Linking(_, i) => depth + 8 + size + NAME_LIMIT + Left(NAME_LIMIT, i)
    case Opening(_, i) => depth + 7 + size + Left(NAME_LIMIT, i)
    case Copying(_, p) => depth + 6 + Left(size, |d.Content(p)|)
    case Replacing(_, _, _) => depth + 5
    case UnlinkingSource(_, _) => depth + 4
    case UndoingCopy(_, _) => depth + 3
    case UndoingTemporary(_, _, _) => depth + 3
    case UndoingTarget(_) => depth + 2
    case RemovingParents(path) => 1 + |path|
    case Placed(_, _) => 0
    case Failed => 0
  }

  ghost predicate Drops(init: Disk, d: Disk, pl: Placer, m: Action)
    requires Permitted(d, m.call)
  {
    var size := |init.Content(pl.job.source)|;
    Rank(Apply(d, m.call), pl.(pc := m.pc), size) < Rank(d, pl, size)
  }

  lemma RankDropsNaming(init: Disk, d: Disk, job: Job, t: Path, i: nat, c: Choice)
    ensures Drops(init, d, Placer(job, Reserving(i)), ReservePath(job, i, d, c))
    ensures Drops(init, d, Placer(job, Linking(t, i)), LinkTemporary(job, t, i, d, c))
  {
  }

  lemma RankDropsMaking(init: Disk, d: Disk, job: Job, i: nat, parents: bool, c: Choice)
    requires i <= |job.dir|
    ensures Drops(init, d, Placer(job, MakingDirectories(i, parents)), MakeDirectory(job, i, parents, d, c))
  {
  }

  lemma RankDropsOpening(init: Disk, d: Disk, job: Job, t: Path, i: nat, c: Choice)
    ensures Drops(init, d, Placer(job, Opening(t, i)), OpenTemporary(t, i, d, c))
  {
  }

  lemma RankDropsRest(init: Disk, d: Disk, pl: Placer, c: Choice)
    requires pl.pc.UndoingTarget? ==> Parent(pl.pc.target) == pl.job.dir
    requires !Finished(pl.pc)
    requires !(pl.pc.MakingDirectories? || pl.pc.Reserving? || pl.pc.Linking? || pl.pc.Opening? || pl.pc.Copying?)
    ensures Drops(init, d, pl, Advance(pl.job, pl.pc, d, c))
  {
  }

  lemma RankDrops(init: Disk, d: Disk, pl: Placer, c: Choice)
    requires Local(init, d, pl) && !Finished(pl.pc)
    ensures Drops(init, d, pl, Advance(pl.job, pl.pc, d, c))
  {
    assert pl.pc.UndoingTarget? ==> Parent(pl.pc.target) == pl.job.dir;
    assert pl.pc.MakingDirectories? ==> pl.pc.depth <= |pl.job.dir|;
    hide Drops, PlacerOk;
    match pl.pc
    case MakingDirectories(i, parents) => RankDropsMaking(init, d, pl.job, i, parents, c);
    case Reserving(i) => RankDropsNaming(init, d, pl.job, [], i, c);
    case Linking(t, i) => RankDropsNaming(init, d, pl.job, t, i, c);
    case Opening(t, i) => RankDropsOpening(init, d, pl.job, t, i, c);
    case Copying(_, _) => RankDropsCopying(init, d, pl, c);
    case _ => RankDropsRest(init, d, pl, c);
  }

  lemma RankDropsCopying(init: Disk, d: Disk, pl: Placer, c: Choice)
    requires Local(init, d, pl) && pl.pc.Copying?
    ensures Drops(init, d, pl, CopyMore(pl.job, pl.pc.target, pl.pc.temporary, d, c))
  {
  }

  function Turns(schedule: seq<(nat, Choice)>, a: nat): nat
  {
    if schedule == [] then 0 else (if schedule[0].0 == a then 1 else 0) + Turns(schedule[1..], a)
  }

  lemma OwnTurnDrops(init: Disk, s: State, a: nat, c: Choice)
    requires Inv(init, s) && a in s.placers && !Finished(s.placers[a].pc)
    ensures
      var s' := Step(s, a, c);
      var size := |init.Content(s.placers[a].job.source)|;
      a in s'.placers && Rank(s'.disk, s'.placers[a], size) < Rank(s.disk, s.placers[a], size)
  {
    InvLocal(init, s, a);
    hide Inv, Local, Rank, Advance;
    RankDrops(init, s.disk, s.placers[a], c);
  }

  lemma OtherTurnKeeps(init: Disk, s: State, id: nat, c: Choice, a: nat)
    requires Inv(init, s) && id in s.placers && a in s.placers && id != a
    ensures
      var s' := Step(s, id, c);
      var size := |init.Content(s.placers[a].job.source)|;
      a in s'.placers && Rank(s'.disk, s'.placers[a], size) == Rank(s.disk, s.placers[a], size)
  {
    hide Inv, Step;
    StepSame(s, id, c);
    if s.placers[a].pc.Copying? {
      var p := s.placers[a].pc.temporary;
      CallsStayApart(init, s, id, c, a, p);
      ScratchFacts(init, s, a, p);
      assert Step(s, id, c).disk.Content(p) == s.disk.Content(p);
    }
    hide Agree;
  }

  /** The rank of `a` falls by one at each of its turns, and nobody else's turn moves it. */
  lemma StepRank(init: Disk, s: State, id: nat, c: Choice, a: nat)
    requires Inv(init, s) && id in s.placers && a in s.placers
    ensures
      var s' := Step(s, id, c);
      var size := |init.Content(s.placers[a].job.source)|;
      && a in s'.placers
      && s'.placers[a].job == s.placers[a].job
      && (!Finished(s.placers[a].pc) ==>
            Rank(s'.disk, s'.placers[a], size) + (if id == a then 1 else 0) <= Rank(s.disk, s.placers[a], size))
  {
    StepSame(s, id, c);
    hide Inv, Step, Rank;
    if !Finished(s.placers[a].pc) {
      if id == a { OwnTurnDrops(init, s, a, c); } else { OtherTurnKeeps(init, s, id, c, a); }
    }
  }

  /** A placement given enough turns has finished, whoever else runs and whatever fails. */
  lemma {:induction false} EveryPlacementStops(init: Disk, s: State, schedule: seq<(nat, Choice)>, a: nat)
    requires Inv(init, s) && Schedulable(s, schedule) && a in s.placers
    requires Turns(schedule, a) >= Rank(s.disk, s.placers[a], |init.Content(s.placers[a].job.source)|)
    ensures a in Run(s, schedule).placers && Finished(Run(s, schedule).placers[a].pc)
    decreases |schedule|
  {
    hide Inv, Step;
    RunSame(s, schedule);
    if !Finished(s.placers[a].pc) && schedule != [] {
      var (id, c) := schedule[0];
      StepRank(init, s, id, c, a);
      StepSame(s, id, c);
      StepKeeps(init, s, id, c);
      hide Inv, Rank, Step;
      EveryPlacementStops(init, Step(s, id, c), schedule[1..], a);
    }
  }
}
