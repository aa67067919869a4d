/** What every interleaving of placements keeps, whatever fails and whenever. */
module PlacementSafety {
  import opened Numerals
  import opened FileSystem
  import opened Placement

  // ---- what the callers supply ----

  ghost predicate JobOk(init: Disk, job: Job)
  {
    && job.source in init.files
    && job.root <= job.dir
    && job.stem != "" && job.stem[0] != '.'
  }

  /** Distinct sources, none of them inside a library somebody is importing into. */
  ghost predicate JobsOk(init: Disk, placers: map<nat, Placer>)
  {
    && (forall a :: a in placers ==> JobOk(init, placers[a].job))
    && (forall a, b :: a in placers && b in placers ==> !(placers[a].job.root <= placers[b].job.source))
    && (forall a, b :: a in placers && b in placers && a != b ==> placers[a].job.source != placers[b].job.source)
  }

  ghost predicate Initial(s: State)
  {
    && s.disk.Valid()
    && s.abandoned == {}
    && JobsOk(s.disk, s.placers)
    && forall a :: a in s.placers ==> s.placers[a].pc == MakingDirectories(|s.placers[a].job.dir|, true)
  }

  // ---- names ----

  ghost predicate LibraryName(t: Path)
  {
    t != [] && t[|t| - 1] != "" && t[|t| - 1][0] != '.'
  }

  ghost predicate IsTemporaryOf(p: Path, t: Path)
  {
    t != [] && exists i: nat :: p == Temporary(t, i)
  }

  lemma LastDot(a: string, d: string)
    requires forall k :: 0 <= k < |d| ==> d[k] != '.'
    ensures (a + "." + d)[|a|] == '.'
    ensures forall k :: |a| < k < |a + "." + d| ==> (a + "." + d)[k] != '.'
  {
  }

  /** A run of digits behind the last dot can be cut off again. */
  lemma DotSplit(a: string, d: string, b: string, e: string)
    requires forall k :: 0 <= k < |d| ==> d[k] != '.'
    requires forall k :: 0 <= k < |e| ==> e[k] != '.'
    requires a + "." + d == b + "." + e
    ensures a == b
  {
    LastDot(a, d);
    LastDot(b, e);
    assert a == (a + "." + d)[..|a|] && b == (b + "." + e)[..|b|];
  }

  /** Temporaries of different targets never share a name. */
  lemma TemporaryNamesTarget(t: Path, i: nat, u: Path, j: nat)
    requires t != [] && u != []
    requires Temporary(t, i) == Temporary(u, j)
    ensures t == u
  {
    var a, b := t[|t| - 1], u[|u| - 1];
    var p, q := Temporary(t, i), Temporary(u, j);
    assert p[..|p| - 1] == Parent(t) && q[..|q| - 1] == Parent(u);
    var x, y := p[|p| - 1], q[|q| - 1];
    assert x == "." + a + "." + Decimal(i) + ".tmp";
    assert y == "." + b + "." + Decimal(j) + ".tmp";
    assert x[1..|x| - 4] == a + "." + Decimal(i);
    assert y[1..|y| - 4] == b + "." + Decimal(j);
    DotSplit(a, Decimal(i), b, Decimal(j));
    assert t == Parent(t) + [a] && u == Parent(u) + [b];
  }

  lemma CandidateName(init: Disk, job: Job, index: nat)
    requires JobOk(init, job) && index >= 1
    ensures LibraryName(Candidate(job, index)) && Parent(Candidate(job, index)) == job.dir
    ensures job.root <= Candidate(job, index)
  {
  }

  lemma TemporaryName(t: Path, index: nat)
    requires t != []
    ensures !LibraryName(Temporary(t, index)) && Temporary(t, index) != []
    ensures Parent(Temporary(t, index)) == Parent(t)
  {
  }

  // ---- one placement ----

  ghost predicate TargetOk(init: Disk, d: Disk, job: Job, t: Path)
  {
    && LibraryName(t) && Parent(t) == job.dir
    && t !in init.files && t in d.files
  }

  ghost predicate ScratchOk(init: Disk, d: Disk, t: Path, p: Path)
  {
    && IsTemporaryOf(p, t) && p !in init.files
    && p in d.files && t in d.files && d.files[p] != d.files[t]
  }

  ghost predicate SpentOk(init: Disk, d: Disk, t: Path, p: Path)
  {
    IsTemporaryOf(p, t) && p !in init.files && p !in d.files
  }

  ghost predicate Carries(init: Disk, d: Disk, p: Path, source: Path)
  {
    p in d.files && d.Content(p) == init.Content(source)
  }

  /** The temporary has an inode of its own and holds the source's first bytes. */
  ghost predicate PartialCopy(init: Disk, d: Disk, p: Path, source: Path)
  {
    p in d.files && d.files[p] >= init.next && d.Content(p) <= init.Content(source)
  }

  ghost predicate PlacerOk(init: Disk, d: Disk, pl: Placer)
  {
    && (MovedAway(pl) <==> pl.job.source !in d.files)
    && match pl.pc
       case MakingDirectories(depth, _) => depth <= |pl.job.dir|
       case Reserving(index) => index >= 1
       case Linking(t, _) => !pl.job.move && TargetOk(init, d, pl.job, t) && d.files[t] >= init.next
       case Opening(t, _) => TargetOk(init, d, pl.job, t)
       case Copying(t, p) => TargetOk(init, d, pl.job, t) && ScratchOk(init, d, t, p) && PartialCopy(init, d, p, pl.job.source)
       case Replacing(t, p, how) =>
         && TargetOk(init, d, pl.job, t) && ScratchOk(init, d, t, p)
         && Carries(init, d, p, pl.job.source) && (pl.job.move <==> how == Moved)
       case UnlinkingSource(t, p) =>
         pl.job.move && TargetOk(init, d, pl.job, t) && SpentOk(init, d, t, p) && Carries(init, d, t, pl.job.source)
       case UndoingCopy(t, p) => TargetOk(init, d, pl.job, t) && ScratchOk(init, d, t, p)
       case UndoingTemporary(t, p, renamed) =>
         && TargetOk(init, d, pl.job, t)
         && if renamed then SpentOk(init, d, t, p) else ScratchOk(init, d, t, p)
       case UndoingTarget(t) => TargetOk(init, d, pl.job, t)
       case RemovingParents(path) => pl.job.root <= path <= pl.job.dir
       case Placed(t, _) => TargetOk(init, d, pl.job, t) && Carries(init, d, t, pl.job.source)
       case Failed => true
  }

  predicate Watches(pl: Placer, p: Path)
  {
    Holds(pl.pc, p) || IsSpent(pl.pc, p) || p == pl.job.source
  }

  lemma Frame(init: Disk, d: Disk, d': Disk, pl: Placer)
    requires d.Valid() && PlacerOk(init, d, pl)
    requires forall p :: Watches(pl, p) ==> Agree(d, d', p)
    ensures PlacerOk(init, d', pl)
  {
    assert Watches(pl, pl.job.source);
    if pl.pc.MakingDirectories? || pl.pc.Reserving? || pl.pc.RemovingParents? || pl.pc.Failed? {
    } else {
      assert Watches(pl, pl.pc.target);
      if pl.pc.Linking? || pl.pc.Opening? || pl.pc.UndoingTarget? || pl.pc.Placed? {
      } else {
        assert Watches(pl, pl.pc.temporary);
      }
    }
  }

  // ---- all placements together ----

  /** Initial files keep their inode, and only a finished move takes its source away. */
  ghost predicate InitialFilesKept(init: Disk, s: State)
  {
    && (forall p :: p in init.files && p in s.disk.files ==> s.disk.files[p] == init.files[p])
    && (forall p :: p in init.files && p !in s.disk.files ==> exists a :: a in s.placers && MovedAway(s.placers[a]) && s.placers[a].job.source == p)
  }

  ghost predicate BytesKept(init: Disk, d: Disk)
  {
    && init.next <= d.next
    && (forall i :: i in init.data ==> i in d.data && d.data[i] == init.data[i])
  }

  ghost predicate NewInodesUnshared(init: Disk, d: Disk)
  {
    forall p, q :: p in d.files && q in d.files && p != q && d.files[p] == d.files[q] ==> d.files[p] < init.next
  }

  ghost predicate EveryFileAccounted(init: Disk, s: State)
  {
    && (forall p :: p in s.abandoned ==> p in s.disk.files && p !in init.files)
    && (forall p :: p in s.disk.files && p !in init.files && p !in s.abandoned ==>
         exists a :: a in s.placers && Holds(s.placers[a].pc, p))
  }

  ghost predicate Exclusive(s: State)
  {
    && (forall a, b, p :: a in s.placers && b in s.placers && a != b && Holds(s.placers[a].pc, p) ==> !Holds(s.placers[b].pc, p))
    && (forall a, p :: a in s.placers && Holds(s.placers[a].pc, p) ==> p !in s.abandoned)
  }

  ghost predicate Inv(init: Disk, s: State)
  {
    && init.Valid() && s.disk.Valid()
    && JobsOk(init, s.placers)
    && BytesKept(init, s.disk)
    && NewInodesUnshared(init, s.disk)
    && InitialFilesKept(init, s)
    && EveryFileAccounted(init, s)
    && Exclusive(s)
    && forall a :: a in s.placers ==> PlacerOk(init, s.disk, s.placers[a])
  }

  // ---- one call, seen from the placement that makes it ----

  /** All a placement relies on besides its own files: an intact source, and fresh inode numbers. */
  ghost predicate Local(init: Disk, d: Disk, pl: Placer)
  {
    && JobOk(init, pl.job)
    && init.files[pl.job.source] < init.next <= d.next
    && (forall p :: p in d.files ==> d.files[p] < d.next)
    && (forall p :: p in d.files ==> d.files[p] in d.data)
    && (forall p :: p in init.files && pl.job.root <= p ==> p in d.files)
    && (pl.job.source in d.files ==>
          d.files[pl.job.source] == init.files[pl.job.source] && d.Content(pl.job.source) == init.Content(pl.job.source))
    && PlacerOk(init, d, pl)
  }

  /** Calls that never write to an inode the initial disk knows, nor give a new inode a second name. */
  ghost predicate Careful(init: Disk, d: Disk, call: Call)
  {
    && Permitted(d, call)
    && (call.Write? ==> d.files[call.path] >= init.next)
    && (call.Link? ==> d.files[call.source] < init.next)
  }

  lemma ApplyCareful(init: Disk, d: Disk, call: Call)
    requires init.Valid() && d.Valid() && BytesKept(init, d) && NewInodesUnshared(init, d) && Careful(init, d, call)
    ensures
      var d' := Apply(d, call);
      && d'.Valid() && BytesKept(init, d') && NewInodesUnshared(init, d')
      && forall q :: !Touches(call, q) ==> Agree(d, d', q)
  {
    ApplyValid(d, call);
    ApplyTouches(d, call);
  }

  /** Names the action may create, change or remove. */
  predicate Footprint(pl: Placer, m: Action, p: Path)
  {
    Holds(pl.pc, p) || Holds(m.pc, p) || IsSpent(pl.pc, p) || (p == pl.job.source && MovedAway(pl.(pc := m.pc)))
  }

  /** The action stays inside the placement's own footprint; what it newly holds was absent
      before, and what it stops holding is unlinked or given up on. */
  ghost predicate Contained(init: Disk, d: Disk, pl: Placer, m: Action)
  {
    && Careful(init, d, m.call)
    && (forall p :: Touches(m.call, p) ==> Footprint(pl, m, p))
    && (forall p :: Holds(m.pc, p) && !Holds(pl.pc, p) ==> p !in d.files)
    && (forall p :: (Holds(pl.pc, p) || IsSpent(pl.pc, p)) && !Holds(m.pc, p) ==>
          p in m.abandoned || p !in Apply(d, m.call).files)
    && (forall p :: p in m.abandoned ==> Holds(pl.pc, p) && !Holds(m.pc, p) && m.call == Nothing)
    && (Touches(m.call, pl.job.source) ==> m.call == Unlink(pl.job.source))
  }

  ghost predicate Continues(init: Disk, d: Disk, job: Job, m: Action)
    requires Permitted(d, m.call)
  {
    PlacerOk(init, Apply(d, m.call), Placer(job, m.pc))
  }

  ghost predicate Advances(init: Disk, d: Disk, pl: Placer, m: Action)
  {
    Contained(init, d, pl, m) && Continues(init, d, pl.job, m)
  }

  lemma ReservingContained(init: Disk, d: Disk, job: Job, index: nat, c: Choice)
    requires Local(init, d, Placer(job, Reserving(index)))
    ensures Contained(init, d, Placer(job, Reserving(index)), ReservePath(job, index, d, c))
  {
    hide Temporary, Candidate, CopyStep, LibraryName, IsTemporaryOf, Disk.EmptyDirectory, Decimal;
    CandidateName(init, job, index);
  }

  lemma ReservingContinues(init: Disk, d: Disk, job: Job, index: nat, c: Choice)
    requires Local(init, d, Placer(job, Reserving(index)))
    ensures Continues(init, d, job, ReservePath(job, index, d, c))
  {
    hide Temporary, Candidate, CopyStep, LibraryName, IsTemporaryOf, Disk.EmptyDirectory, Decimal;
    CandidateName(init, job, index);
  }

  lemma ReservingAdvances(init: Disk, d: Disk, job: Job, index: nat, c: Choice)
    requires Local(init, d, Placer(job, Reserving(index)))
    ensures Advances(init, d, Placer(job, Reserving(index)), ReservePath(job, index, d, c))
  {
    hide Contained, Continues, Local;
    ReservingContained(init, d, job, index, c);
    ReservingContinues(init, d, job, index, c);
  }

  lemma LinkingContained(init: Disk, d: Disk, job: Job, t: Path, index: nat, c: Choice)
    requires Local(init, d, Placer(job, Linking(t, index)))
    ensures Contained(init, d, Placer(job, Linking(t, index)), LinkTemporary(job, t, index, d, c))
  {
    hide Temporary, Candidate, CopyStep, Disk.EmptyDirectory, Decimal;
    TemporaryName(t, index);
  }

  lemma LinkingContinues(init: Disk, d: Disk, job: Job, t: Path, index: nat, c: Choice)
    requires Local(init, d, Placer(job, Linking(t, index)))
    ensures Continues(init, d, job, LinkTemporary(job, t, index, d, c))
  {
    hide Candidate, CopyStep, Temporary, IsTemporaryOf, LibraryName, Disk.EmptyDirectory, Decimal;
    var m := LinkTemporary(job, t, index, d, c);
    if m.pc.Replacing? {
      LinkedContinues(init, d, job, t, index);
    }
  }

  lemma LinkedContinues(init: Disk, d: Disk, job: Job, t: Path, index: nat)
    requires Local(init, d, Placer(job, Linking(t, index))) && t != []
    requires Permitted(d, Link(job.source, Temporary(t, index)))
    ensures Continues(init, d, job, Go(Replacing(t, Temporary(t, index), Hardlink), Link(job.source, Temporary(t, index))))
  {
    hide Candidate, CopyStep, Temporary, LibraryName, Disk.EmptyDirectory, Decimal;
    var p := Temporary(t, index);
    assert IsTemporaryOf(p, t);
    var after := Apply(d, Link(job.source, p));
    TemporaryName(t, index);
    assert job.root <= Parent(p) <= p;
    assert ScratchOk(init, after, t, p);
  }

  lemma OpeningContained(init: Disk, d: Disk, job: Job, t: Path, index: nat, c: Choice)
    requires Local(init, d, Placer(job, Opening(t, index)))
    ensures Contained(init, d, Placer(job, Opening(t, index)), OpenTemporary(t, index, d, c))
  {
    hide Temporary, Candidate, CopyStep, Disk.EmptyDirectory, Decimal;
    TemporaryName(t, index);
  }

  lemma OpeningContinues(init: Disk, d: Disk, job: Job, t: Path, index: nat, c: Choice)
    requires Local(init, d, Placer(job, Opening(t, index)))
    ensures Continues(init, d, job, OpenTemporary(t, index, d, c))
  {
    hide Candidate, CopyStep, Disk.EmptyDirectory, Decimal;
    var m := OpenTemporary(t, index, d, c);
    if m.pc.Copying? {
      assert IsTemporaryOf(m.pc.temporary, t);
      assert TargetOk(init, Apply(d, m.call), job, t);
      assert ScratchOk(init, Apply(d, m.call), t, m.pc.temporary);
    }
  }

  lemma CopyingContained(init: Disk, d: Disk, job: Job, t: Path, p: Path, c: Choice)
    requires Local(init, d, Placer(job, Copying(t, p)))
    ensures Contained(init, d, Placer(job, Copying(t, p)), CopyMore(job, t, p, d, c))
  {
    hide Temporary, Candidate, LibraryName, IsTemporaryOf, Disk.EmptyDirectory, Decimal;
  }

  lemma CopyingContinues(init: Disk, d: Disk, job: Job, t: Path, p: Path, c: Choice)
    requires Local(init, d, Placer(job, Copying(t, p)))
    ensures Continues(init, d, job, CopyMore(job, t, p, d, c))
  {
    hide Temporary, Candidate, LibraryName, IsTemporaryOf, Disk.EmptyDirectory, Decimal;
  }

  lemma ReplacingContained(init: Disk, d: Disk, job: Job, t: Path, p: Path, how: Method, c: Choice)
    requires Local(init, d, Placer(job, Replacing(t, p, how)))
    ensures Contained(init, d, Placer(job, Replacing(t, p, how)), ReplaceTarget(job, t, p, how, d, c))
  {
    hide Temporary, Candidate, CopyStep, LibraryName, IsTemporaryOf, Disk.EmptyDirectory, Decimal;
  }

  lemma ReplacingContinues(init: Disk, d: Disk, job: Job, t: Path, p: Path, how: Method, c: Choice)
    requires Local(init, d, Placer(job, Replacing(t, p, how)))
    ensures Continues(init, d, job, ReplaceTarget(job, t, p, how, d, c))
  {
    hide Temporary, Candidate, CopyStep, LibraryName, IsTemporaryOf, Disk.EmptyDirectory, Decimal;
  }

  lemma ReplacingAdvances(init: Disk, d: Disk, job: Job, t: Path, p: Path, how: Method, c: Choice)
    requires Local(init, d, Placer(job, Replacing(t, p, how)))
    ensures Advances(init, d, Placer(job, Replacing(t, p, how)), ReplaceTarget(job, t, p, how, d, c))
  {
    hide Contained, Continues, Local;
    ReplacingContained(init, d, job, t, p, how, c);
    ReplacingContinues(init, d, job, t, p, how, c);
  }

  lemma UnlinkingContained(init: Disk, d: Disk, job: Job, t: Path, p: Path, c: Choice)
    requires Local(init, d, Placer(job, UnlinkingSource(t, p)))
    ensures Contained(init, d, Placer(job, UnlinkingSource(t, p)), UnlinkSource(job, t, p, d, c))
  {
    hide Temporary, Candidate, CopyStep, LibraryName, IsTemporaryOf, Disk.EmptyDirectory, Decimal;
  }

  lemma UnlinkingContinues(init: Disk, d: Disk, job: Job, t: Path, p: Path, c: Choice)
    requires Local(init, d, Placer(job, UnlinkingSource(t, p)))
    ensures Continues(init, d, job, UnlinkSource(job, t, p, d, c))
  {
    hide Temporary, Candidate, CopyStep, LibraryName, IsTemporaryOf, Disk.EmptyDirectory, Decimal;
  }

  lemma UnlinkingAdvances(init: Disk, d: Disk, job: Job, t: Path, p: Path, c: Choice)
    requires Local(init, d, Placer(job, UnlinkingSource(t, p)))
    ensures Advances(init, d, Placer(job, UnlinkingSource(t, p)), UnlinkSource(job, t, p, d, c))
  {
    hide Contained, Continues, Local;
    UnlinkingContained(init, d, job, t, p, c);
    UnlinkingContinues(init, d, job, t, p, c);
  }

  lemma UndoingCopyContained(init: Disk, d: Disk, job: Job, t: Path, p: Path, c: Choice)
    requires Local(init, d, Placer(job, UndoingCopy(t, p)))
    ensures Contained(init, d, Placer(job, UndoingCopy(t, p)), Undo(UndoingCopy(t, p), c))
  {
    hide Temporary, Candidate, CopyStep, LibraryName, IsTemporaryOf, Disk.EmptyDirectory, Decimal;
  }

  lemma UndoingCopyContinues(init: Disk, d: Disk, job: Job, t: Path, p: Path, c: Choice)
    requires Local(init, d, Placer(job, UndoingCopy(t, p)))
    ensures Continues(init, d, job, Undo(UndoingCopy(t, p), c))
  {
    hide Temporary, Candidate, CopyStep, LibraryName, IsTemporaryOf, Disk.EmptyDirectory, Decimal;
  }

  lemma UndoingCopyAdvances(init: Disk, d: Disk, job: Job, t: Path, p: Path, c: Choice)
    requires Local(init, d, Placer(job, UndoingCopy(t, p)))
    ensures Advances(init, d, Placer(job, UndoingCopy(t, p)), Undo(UndoingCopy(t, p), c))
  {
    hide Contained, Continues, Local;
    UndoingCopyContained(init, d, job, t, p, c);
    UndoingCopyContinues(init, d, job, t, p, c);
  }

  lemma UndoingTemporaryContained(init: Disk, d: Disk, job: Job, t: Path, p: Path, renamed: bool, c: Choice)
    requires Local(init, d, Placer(job, UndoingTemporary(t, p, renamed)))
    ensures Contained(init, d, Placer(job, UndoingTemporary(t, p, renamed)), Undo(UndoingTemporary(t, p, renamed), c))
  {
    hide Temporary, Candidate, CopyStep, LibraryName, IsTemporaryOf, Disk.EmptyDirectory, Decimal;
  }

  lemma UndoingTemporaryContinues(init: Disk, d: Disk, job: Job, t: Path, p: Path, renamed: bool, c: Choice)
    requires Local(init, d, Placer(job, UndoingTemporary(t, p, renamed)))
    ensures Continues(init, d, job, Undo(UndoingTemporary(t, p, renamed), c))
  {
    hide Temporary, Candidate, CopyStep, LibraryName, IsTemporaryOf, Disk.EmptyDirectory, Decimal;
  }

  lemma UndoingTargetContained(init: Disk, d: Disk, job: Job, t: Path, c: Choice)
    requires Local(init, d, Placer(job, UndoingTarget(t)))
    ensures Contained(init, d, Placer(job, UndoingTarget(t)), Undo(UndoingTarget(t), c))
  {
    hide Temporary, Candidate, CopyStep, LibraryName, IsTemporaryOf, Disk.EmptyDirectory, Decimal;
  }

  lemma UndoingTargetContinues(init: Disk, d: Disk, job: Job, t: Path, c: Choice)
    requires Local(init, d, Placer(job, UndoingTarget(t)))
    ensures Continues(init, d, job, Undo(UndoingTarget(t), c))
  {
    hide Temporary, Candidate, CopyStep, LibraryName, IsTemporaryOf, Disk.EmptyDirectory, Decimal;
  }

  lemma UndoingTargetAdvances(init: Disk, d: Disk, job: Job, t: Path, c: Choice)
    requires Local(init, d, Placer(job, UndoingTarget(t)))
    ensures Advances(init, d, Placer(job, UndoingTarget(t)), Undo(UndoingTarget(t), c))
  {
    hide Contained, Continues, Local;
    UndoingTargetContained(init, d, job, t, c);
    UndoingTargetContinues(init, d, job, t, c);
  }

  lemma MakingDirectoriesContained(init: Disk, d: Disk, job: Job, depth: nat, parents: bool, c: Choice)
    requires Local(init, d, Placer(job, MakingDirectories(depth, parents)))
    ensures Contained(init, d, Placer(job, MakingDirectories(depth, parents)), MakeDirectory(job, depth, parents, d, c))
  {
    hide Temporary, Candidate, CopyStep, LibraryName, IsTemporaryOf, Disk.EmptyDirectory, Decimal;
  }

  lemma MakingDirectoriesContinues(init: Disk, d: Disk, job: Job, depth: nat, parents: bool, c: Choice)
    requires Local(init, d, Placer(job, MakingDirectories(depth, parents)))
    ensures Continues(init, d, job, MakeDirectory(job, depth, parents, d, c))
  {
    hide Temporary, Candidate, CopyStep, LibraryName, IsTemporaryOf, Disk.EmptyDirectory, Decimal;
  }

  lemma MakingDirectoriesAdvances(init: Disk, d: Disk, job: Job, depth: nat, parents: bool, c: Choice)
    requires Local(init, d, Placer(job, MakingDirectories(depth, parents)))
    ensures Advances(init, d, Placer(job, MakingDirectories(depth, parents)), MakeDirectory(job, depth, parents, d, c))
  {
    hide Contained, Continues, Local;
    MakingDirectoriesContained(init, d, job, depth, parents, c);
    MakingDirectoriesContinues(init, d, job, depth, parents, c);
  }

  lemma RemovingParentsContained(init: Disk, d: Disk, job: Job, path: Path, c: Choice)
    requires Local(init, d, Placer(job, RemovingParents(path)))
    ensures Contained(init, d, Placer(job, RemovingParents(path)), RemoveParent(job, path, d, c))
  {
    hide Temporary, Candidate, CopyStep, LibraryName, IsTemporaryOf, Disk.EmptyDirectory, Decimal;
  }

  lemma RemovingParentsContinues(init: Disk, d: Disk, job: Job, path: Path, c: Choice)
    requires Local(init, d, Placer(job, RemovingParents(path)))
    ensures Continues(init, d, job, RemoveParent(job, path, d, c))
  {
    hide Temporary, Candidate, CopyStep, LibraryName, IsTemporaryOf, Disk.EmptyDirectory, Decimal;
  }

  lemma RemovingParentsAdvances(init: Disk, d: Disk, job: Job, path: Path, c: Choice)
    requires Local(init, d, Placer(job, RemovingParents(path)))
    ensures Advances(init, d, Placer(job, RemovingParents(path)), RemoveParent(job, path, d, c))
  {
    hide Contained, Continues, Local;
    RemovingParentsContained(init, d, job, path, c);
    RemovingParentsContinues(init, d, job, path, c);
  }

  lemma FinishedAdvances(init: Disk, d: Disk, pl: Placer)
    requires Local(init, d, pl) && Finished(pl.pc)
    ensures Advances(init, d, pl, Go(pl.pc))
  {
  }

  lemma RollbackAdvances(init: Disk, d: Disk, pl: Placer, c: Choice)
    requires Local(init, d, pl)
    requires pl.pc.UndoingCopy? || pl.pc.UndoingTemporary? || pl.pc.UndoingTarget?
    ensures Advances(init, d, pl, Undo(pl.pc, c))
  {
    match pl.pc
    case UndoingCopy(t, p) => UndoingCopyAdvances(init, d, pl.job, t, p, c);
    case UndoingTemporary(t, p, renamed) =>
      UndoingTemporaryContained(init, d, pl.job, t, p, renamed, c);
      UndoingTemporaryContinues(init, d, pl.job, t, p, renamed, c);
    case UndoingTarget(t) => UndoingTargetAdvances(init, d, pl.job, t, c);
  }

  lemma NamingAdvances(init: Disk, d: Disk, pl: Placer, c: Choice)
    requires Local(init, d, pl)
    requires pl.pc.Linking? || pl.pc.Opening? || pl.pc.Copying?
    ensures Advances(init, d, pl, Advance(pl.job, pl.pc, d, c))
  {
    match pl.pc
    case Linking(t, index) =>
      LinkingContained(init, d, pl.job, t, index, c);
      LinkingContinues(init, d, pl.job, t, index, c);
    case Opening(t, index) =>
      OpeningContained(init, d, pl.job, t, index, c);
      OpeningContinues(init, d, pl.job, t, index, c);
    case Copying(t, p) =>
      CopyingContained(init, d, pl.job, t, p, c);
      CopyingContinues(init, d, pl.job, t, p, c);
  }

  /** Every call of a placement stays inside its footprint and leaves it in good order. */
  lemma AdvanceAdvances(init: Disk, d: Disk, pl: Placer, c: Choice)
    requires Local(init, d, pl)
    ensures Advances(init, d, pl, Advance(pl.job, pl.pc, d, c))
  {
    hide Advances, PlacerOk, MakeDirectory, ReservePath, LinkTemporary, OpenTemporary, CopyMore, ReplaceTarget, UnlinkSource,
      Undo, RemoveParent, Temporary, Candidate;
    match pl.pc
    case MakingDirectories(depth, parents) => MakingDirectoriesAdvances(init, d, pl.job, depth, parents, c);
    case Reserving(index) => ReservingAdvances(init, d, pl.job, index, c);
    case Linking(_, _) => NamingAdvances(init, d, pl, c);
    case Opening(_, _) => NamingAdvances(init, d, pl, c);
    case Copying(_, _) => NamingAdvances(init, d, pl, c);
    case Replacing(t, p, how) => ReplacingAdvances(init, d, pl.job, t, p, how, c);
    case UnlinkingSource(t, p) => UnlinkingAdvances(init, d, pl.job, t, p, c);
    case RemovingParents(path) => RemovingParentsAdvances(init, d, pl.job, path, c);
    case Placed(_, _) => FinishedAdvances(init, d, pl);
    case Failed => FinishedAdvances(init, d, pl);
    case _ => RollbackAdvances(init, d, pl, c);
  }

  // ---- all placements at once ----

  lemma TemporaryOfOne(p: Path, t: Path, u: Path)
    requires IsTemporaryOf(p, t) && IsTemporaryOf(p, u)
    ensures t == u && !LibraryName(p)
  {
    var i: nat :| p == Temporary(t, i);
    var j: nat :| p == Temporary(u, j);
    TemporaryNamesTarget(t, i, u, j);
    TemporaryName(t, i);
  }

  lemma HeldOnDisk(init: Disk, d: Disk, pl: Placer)
    requires PlacerOk(init, d, pl) && JobOk(init, pl.job)
    ensures forall p :: Holds(pl.pc, p) ==> p in d.files && p !in init.files && pl.job.root <= p
  {
  }

  /** Every name a placement holds or has spent is its target or a temporary of its target. */
  lemma NamesOfTarget(init: Disk, d: Disk, pl: Placer, p: Path)
    requires PlacerOk(init, d, pl) && (Holds(pl.pc, p) || IsSpent(pl.pc, p))
    ensures IsTarget(pl.pc, pl.pc.target)
    ensures (p == pl.pc.target && LibraryName(p)) || IsTemporaryOf(p, pl.pc.target)
    ensures IsSpent(pl.pc, p) ==> IsTemporaryOf(p, pl.pc.target) && p !in d.files && p !in init.files
  {
  }

  /** Nobody reuses the name of a temporary another placement has already renamed away. */
  lemma SpentElsewhere(init: Disk, s: State, id: nat, a: nat, m: Action, p: Path)
    requires Inv(init, s) && id in s.placers && a in s.placers && a != id
    requires Contained(init, s.disk, s.placers[id], m)
    requires Continues(init, s.disk, s.placers[id].job, m)
    requires IsSpent(s.placers[a].pc, p)
    ensures !Footprint(s.placers[id], m, p)
  {
    var pl, other := s.placers[id], s.placers[a];
    NamesOfTarget(init, s.disk, other, p);
    HeldOnDisk(init, s.disk, other);
    HeldOnDisk(init, s.disk, pl);
    var u := other.pc.target;
    assert Holds(other.pc, u);
    if Holds(m.pc, p) {
      NamesOfTarget(init, Apply(s.disk, m.call), pl.(pc := m.pc), p);
      assert Holds(m.pc, m.pc.target);
      if p == m.pc.target { TemporaryOfOne(p, u, u); } else { TemporaryOfOne(p, u, m.pc.target); }
    }
    if IsSpent(pl.pc, p) {
      NamesOfTarget(init, s.disk, pl, p);
      assert Holds(pl.pc, pl.pc.target);
      TemporaryOfOne(p, u, pl.pc.target);
    }
  }

  /** What `a` watches is outside the footprint of whatever `id` does next. */
  lemma WatchedElsewhere(init: Disk, s: State, id: nat, a: nat, m: Action, p: Path)
    requires Inv(init, s) && id in s.placers && a in s.placers && a != id
    requires Contained(init, s.disk, s.placers[id], m)
    requires Continues(init, s.disk, s.placers[id].job, m)
    requires Watches(s.placers[a], p)
    ensures !Footprint(s.placers[id], m, p)
  {
    var pl, other := s.placers[id], s.placers[a];
    if IsSpent(other.pc, p) {
      SpentElsewhere(init, s, id, a, m, p);
    } else {
      HeldOnDisk(init, s.disk, pl);
      HeldOnDisk(init, s.disk, other);
      HeldOnDisk(init, Apply(s.disk, m.call), pl.(pc := m.pc));
      if IsSpent(pl.pc, p) { NamesOfTarget(init, s.disk, pl, p); }
    }
  }

  lemma InvLocal(init: Disk, s: State, id: nat)
    requires Inv(init, s) && id in s.placers
    ensures Local(init, s.disk, s.placers[id])
  {
    hide Temporary, LibraryName, IsTemporaryOf, Holds;
  }

  lemma StepKeepsPlacers(init: Disk, s: State, id: nat, a: nat, m: Action)
    requires Inv(init, s) && a in s.placers && a != id && Takes(init, s, id, m)
    ensures PlacerOk(init, Apply(s.disk, m.call), s.placers[a])
  {
    ApplyCareful(init, s.disk, m.call);
    forall p | Watches(s.placers[a], p) ensures Agree(s.disk, Apply(s.disk, m.call), p) {
      WatchedElsewhere(init, s, id, a, m, p);
    }
    Frame(init, s.disk, Apply(s.disk, m.call), s.placers[a]);
  }

  ghost predicate Takes(init: Disk, s: State, id: nat, m: Action)
  {
    && id in s.placers
    && Contained(init, s.disk, s.placers[id], m) && Continues(init, s.disk, s.placers[id].job, m)
    && (Finished(s.placers[id].pc) ==> m == Go(s.placers[id].pc))
  }

  /** The action in terms of names alone: who held what before, who holds what now. */
  ghost predicate Tidy(init: Disk, s: State, id: nat, m: Action)
    requires id in s.placers && Permitted(s.disk, m.call)
  {
    var pl, d' := s.placers[id], Apply(s.disk, m.call);
    && (forall p :: !Touches(m.call, p) ==> Agree(s.disk, d', p))
    && (forall p :: Touches(m.call, p) && p in init.files ==>
          p == pl.job.source && MovedAway(pl.(pc := m.pc)) && p !in d'.files)
    && (forall p :: Touches(m.call, p) && p !in init.files ==> Holds(pl.pc, p) || p !in s.disk.files)
    && (forall p :: Touches(m.call, p) && p !in init.files && p in d'.files ==> Holds(pl.pc, p) || Holds(m.pc, p))
    && (forall a, p :: a in s.placers && Holds(s.placers[a].pc, p) ==> p in s.disk.files && p !in init.files)
    && (forall p :: Holds(m.pc, p) ==> p in d'.files && p !in init.files)
    && (forall p :: Holds(m.pc, p) && !Holds(pl.pc, p) ==> p !in s.disk.files)
    && (forall p :: Holds(pl.pc, p) && !Holds(m.pc, p) ==> p in m.abandoned || p !in d'.files)
    && (forall p :: p in m.abandoned ==> Holds(pl.pc, p) && !Holds(m.pc, p) && p in d'.files)
    && (pl.pc.Placed? ==> m.pc == pl.pc)
  }

  lemma StepTidy(init: Disk, s: State, id: nat, m: Action)
    requires Inv(init, s) && Takes(init, s, id, m)
    ensures Tidy(init, s, id, m)
  {
    var pl, d' := s.placers[id], Apply(s.disk, m.call);
    ApplyCareful(init, s.disk, m.call);
    forall a | a in s.placers ensures forall p :: Holds(s.placers[a].pc, p) ==> p in s.disk.files && p !in init.files {
      HeldOnDisk(init, s.disk, s.placers[a]);
    }
    HeldOnDisk(init, d', pl.(pc := m.pc));
    forall p | IsSpent(pl.pc, p) ensures p !in s.disk.files && p !in init.files {
      NamesOfTarget(init, s.disk, pl, p);
    }
  }

  lemma StepKeepsInitialFiles(init: Disk, s: State, id: nat, m: Action)
    requires id in s.placers && Permitted(s.disk, m.call) && Tidy(init, s, id, m)
    requires InitialFilesKept(init, s)
    ensures InitialFilesKept(init, After(s, id, m))
  {
    var s' := After(s, id, m);
    forall p | p in init.files && p !in s'.disk.files
      ensures exists a :: a in s'.placers && MovedAway(s'.placers[a]) && s'.placers[a].job.source == p
    {
      if Touches(m.call, p) {
        assert MovedAway(s'.placers[id]) && s'.placers[id].job.source == p;
      } else {
        assert Agree(s.disk, s'.disk, p);
        var a :| a in s.placers && MovedAway(s.placers[a]) && s.placers[a].job.source == p;
        assert MovedAway(s'.placers[a]) && s'.placers[a].job.source == p;
      }
    }
    forall p | p in init.files && p in s'.disk.files ensures s'.disk.files[p] == init.files[p] {
      assert Agree(s.disk, s'.disk, p);
    }
  }

  lemma StepKeepsAccounts(init: Disk, s: State, id: nat, m: Action)
    requires id in s.placers && Permitted(s.disk, m.call) && Tidy(init, s, id, m)
    requires EveryFileAccounted(init, s) && Exclusive(s)
    ensures EveryFileAccounted(init, After(s, id, m))
  {
    var pl, s' := s.placers[id], After(s, id, m);
    forall p | p in s'.abandoned ensures p in s'.disk.files && p !in init.files {
      if p in s.abandoned { assert Agree(s.disk, s'.disk, p); }
    }
    forall p | p in s'.disk.files && p !in init.files && p !in s'.abandoned
      ensures exists a :: a in s'.placers && Holds(s'.placers[a].pc, p)
    {
      if Holds(m.pc, p) {
        assert Holds(s'.placers[id].pc, p);
      } else {
        assert Agree(s.disk, s'.disk, p);
        var a :| a in s.placers && Holds(s.placers[a].pc, p);
        assert Holds(s'.placers[a].pc, p);
      }
    }
  }

  lemma StepKeepsExclusive(init: Disk, s: State, id: nat, m: Action)
    requires id in s.placers && Permitted(s.disk, m.call) && Tidy(init, s, id, m)
    requires Exclusive(s) && forall p :: p in s.abandoned ==> p in s.disk.files
    ensures Exclusive(After(s, id, m))
  {
  }

  lemma JobsSame(init: Disk, placers: map<nat, Placer>, id: nat, pc: Pc)
    requires JobsOk(init, placers) && id in placers
    ensures JobsOk(init, placers[id := placers[id].(pc := pc)])
  {
  }

  lemma OwnPlacerKept(init: Disk, s: State, id: nat, m: Action)
    requires Takes(init, s, id, m)
    ensures Permitted(s.disk, m.call) && PlacerOk(init, Apply(s.disk, m.call), After(s, id, m).placers[id])
  {
    assert Permitted(s.disk, m.call);
    hide PlacerOk, Contained, Apply, Permitted;
  }

  lemma StepKeepsEachPlacer(init: Disk, s: State, id: nat, m: Action)
    requires Inv(init, s) && Takes(init, s, id, m)
    ensures forall a :: a in s.placers ==> PlacerOk(init, Apply(s.disk, m.call), After(s, id, m).placers[a])
  {
    hide Inv, PlacerOk, Contained, Continues, Apply;
    OwnPlacerKept(init, s, id, m);
    forall a | a in s.placers ensures PlacerOk(init, Apply(s.disk, m.call), After(s, id, m).placers[a]) {
      if a != id { StepKeepsPlacers(init, s, id, a, m); }
    }
  }

  lemma StepKeepsAll(init: Disk, s: State, id: nat, m: Action)
    requires Inv(init, s) && Takes(init, s, id, m)
    ensures Inv(init, After(s, id, m))
  {
    hide PlacerOk, NewInodesUnshared, BytesKept, EveryFileAccounted, InitialFilesKept, Exclusive, JobsOk;
    assert Careful(init, s.disk, m.call);
    StepTidy(init, s, id, m);
    hide Contained, Careful;
    ApplyCareful(init, s.disk, m.call);
    StepKeepsInitialFiles(init, s, id, m);
    StepKeepsAccounts(init, s, id, m);
    AbandonedOnDisk(init, s);
    StepKeepsExclusive(init, s, id, m);
    StepKeepsEachPlacer(init, s, id, m);
    JobsSame(init, s.placers, id, m.pc);
    hide Tidy;
  }

  lemma AbandonedOnDisk(init: Disk, s: State)
    requires EveryFileAccounted(init, s)
    ensures forall p :: p in s.abandoned ==> p in s.disk.files
  {
  }

  lemma FinishedGoes(job: Job, pc: Pc, d: Disk, c: Choice)
    requires Finished(pc)
    ensures Advance(job, pc, d, c) == Go(pc)
  {
  }

  lemma StepTakes(init: Disk, s: State, id: nat, c: Choice)
    requires Inv(init, s) && id in s.placers
    ensures Takes(init, s, id, Advance(s.placers[id].job, s.placers[id].pc, s.disk, c))
  {
    hide Inv, Local, Advance, Contained, Continues, Finished;
    InvLocal(init, s, id);
    AdvanceAdvances(init, s.disk, s.placers[id], c);
    if Finished(s.placers[id].pc) { FinishedGoes(s.placers[id].job, s.placers[id].pc, s.disk, c); }
  }

  /** One call by anyone, working or failing, keeps the invariant of all. */
  lemma StepKeeps(init: Disk, s: State, id: nat, c: Choice)
    requires Inv(init, s) && id in s.placers
    ensures Inv(init, Step(s, id, c))
  {
    StepTakes(init, s, id, c);
    StepKeepsAll(init, s, id, Advance(s.placers[id].job, s.placers[id].pc, s.disk, c));
  }

  lemma StepSame(s: State, id: nat, c: Choice)
    requires id in s.placers
    ensures
      var s' := Step(s, id, c);
      && s'.placers.Keys == s.placers.Keys
      && (forall a :: a in s.placers ==> s'.placers[a].job == s.placers[a].job)
      && (forall a :: a in s.placers && (a != id || Finished(s.placers[a].pc)) ==> s'.placers[a] == s.placers[a])
  {
  }

  /** Jobs never change, and a finished placement makes no more calls. */
  lemma {:induction false} RunSame(s: State, schedule: seq<(nat, Choice)>)
    requires forall k :: 0 <= k < |schedule| ==> schedule[k].0 in s.placers
    ensures Run(s, schedule).placers.Keys == s.placers.Keys
    ensures forall a :: a in s.placers ==> Run(s, schedule).placers[a].job == s.placers[a].job
    ensures forall a :: a in s.placers && Finished(s.placers[a].pc) ==> Run(s, schedule).placers[a] == s.placers[a]
    decreases |schedule|
  {
    if schedule != [] {
      StepSame(s, schedule[0].0, schedule[0].1);
      RunSame(Step(s, schedule[0].0, schedule[0].1), schedule[1..]);
    }
  }

  lemma {:induction false} RunKeeps(init: Disk, s: State, schedule: seq<(nat, Choice)>)
    requires Inv(init, s)
    requires forall k :: 0 <= k < |schedule| ==> schedule[k].0 in s.placers
    ensures Inv(init, Run(s, schedule))
    decreases |schedule|
  {
    hide Inv, Step;
    if schedule != [] {
      StepSame(s, schedule[0].0, schedule[0].1);
      StepKeeps(init, s, schedule[0].0, schedule[0].1);
      RunKeeps(init, Step(s, schedule[0].0, schedule[0].1), schedule[1..]);
    }
  }

  lemma NobodyHolds(s: State)
    requires Initial(s)
    ensures forall a, p :: a in s.placers ==> !Holds(s.placers[a].pc, p)
  {
    hide Disk.Valid, JobsOk;
  }

  lemma InitialPlacers(s: State)
    requires Initial(s)
    ensures forall a :: a in s.placers ==> PlacerOk(s.disk, s.disk, s.placers[a])
  {
    hide Disk.Valid;
  }

  lemma ValidDisk(d: Disk)
    requires d.Valid()
    ensures BytesKept(d, d) && NewInodesUnshared(d, d)
  {
  }

  lemma InitialInv(s: State)
    requires Initial(s)
    ensures Inv(s.disk, s)
  {
    hide Disk.Valid, JobsOk, Holds, PlacerOk, BytesKept, NewInodesUnshared;
    NobodyHolds(s);
    InitialPlacers(s);
    ValidDisk(s.disk);
  }

  /** A rollback removes directories on the way from its own reservation up to its library, never the
      library itself nor anything outside. */
  lemma RmdirBelowRoot(init: Disk, s: State, id: nat, c: Choice, path: Path)
    requires Inv(init, s) && id in s.placers
    requires Advance(s.placers[id].job, s.placers[id].pc, s.disk, c).call == Rmdir(path)
    ensures s.placers[id].job.root < path <= s.placers[id].job.dir
    ensures Doomed(s.placers[id].pc)
  {
    hide Inv, Advance, Local;
    RmdirWhileRemoving(s.placers[id].job, s.placers[id].pc, s.disk, c, path);
    InvLocal(init, s, id);
    RemovingWithin(init, s.disk, s.placers[id]);
  }

  lemma RemovingWithin(init: Disk, d: Disk, pl: Placer)
    requires Local(init, d, pl) && pl.pc.RemovingParents?
    ensures pl.job.root <= pl.pc.path <= pl.job.dir
  {
  }

  lemma RmdirWhileRemoving(job: Job, pc: Pc, d: Disk, c: Choice, path: Path)
    requires Advance(job, pc, d, c).call == Rmdir(path)
    ensures pc == RemovingParents(path) && path != job.root && path != [] && d.EmptyDirectory(path)
  {
    hide Temporary, Candidate, CopyStep, Disk.Content;
  }

  // ---- single facts out of the invariant ----

  lemma TargetFacts(init: Disk, s: State, id: nat, t: Path)
    requires Inv(init, s) && id in s.placers && IsTarget(s.placers[id].pc, t)
    ensures t != [] && LibraryName(t) && t in s.disk.files && t !in s.disk.dirs
    ensures Parent(t) == s.placers[id].job.dir && Parent(t) in s.disk.dirs
  {
    hide NewInodesUnshared, BytesKept, Exclusive, InitialFilesKept, EveryFileAccounted, JobsOk;
    assert PlacerOk(init, s.disk, s.placers[id]);
  }

  lemma ScratchFacts(init: Disk, s: State, id: nat, p: Path)
    requires Inv(init, s) && id in s.placers && IsScratch(s.placers[id].pc, p)
    ensures p in s.disk.files
  {
    hide NewInodesUnshared, BytesKept, Exclusive, InitialFilesKept, EveryFileAccounted, JobsOk;
    assert PlacerOk(init, s.disk, s.placers[id]);
  }
}
