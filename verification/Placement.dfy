/** `place_file` as a protocol: each system call of each importer is one step, any
    call may fail, and importers interleave freely. */
module Placement {
  import opened Numerals
  import opened Bytes
  import opened FileSystem

  const NAME_LIMIT: nat := 10000

  datatype Method = Hardlink | Copied | Moved

  /** One call of `place_file`: the wanted file is `dir / (stem + suffix)`, below `root`. */
  datatype Job = Job(source: Path, root: Path, dir: Path, stem: string, suffix: string, move: bool)

  /** Where a placement stands. `parents` tells whether a missing parent is made first, `renamed` whether the
      temporary already became the target. */
  datatype Pc =
    | MakingDirectories(depth: nat, parents: bool)
    | Reserving(index: nat)
    | Linking(target: Path, index: nat)
    | Opening(target: Path, index: nat)
    | Copying(target: Path, temporary: Path)
    | Replacing(target: Path, temporary: Path, how: Method)
    | UnlinkingSource(target: Path, temporary: Path)
    | UndoingCopy(target: Path, temporary: Path)
    | UndoingTemporary(target: Path, temporary: Path, renamed: bool)
    | UndoingTarget(target: Path)
    | RemovingParents(path: Path)
    | Placed(target: Path, how: Method)
    | Failed

  datatype Placer = Placer(job: Job, pc: Pc)

  /** `abandoned` records files left behind because an unlink of the rollback itself failed. */
  datatype State = State(disk: Disk, placers: map<nat, Placer>, abandoned: set<Path>)

  /** What the operating system does with the next call: it works (a copy moving some bytes), or it fails. */
  datatype Choice = Proceed(chunk: nat) | Fault(crossDevice: bool)

  function Candidate(job: Job, index: nat): Path
    requires index >= 1
  {
    job.dir + [if index == 1 then job.stem + job.suffix
               else job.stem + " (" + Decimal(index - 1) + ")" + job.suffix]
  }

  function Temporary(target: Path, index: nat): Path
    requires target != []
  {
    Parent(target) + ["." + target[|target| - 1] + "." + Decimal(index) + ".tmp"]
  }

  /** The wanted name, or with a number: a space and the number in parentheses, between stem and suffix. */
  ghost predicate Numbered(job: Job, n: nat, p: Path)
  {
    if n == 0 then p == job.dir + [job.stem + job.suffix]
    else exists numeral :: Writes(numeral, n) && p == job.dir + [job.stem + " (" + numeral + ")" + job.suffix]
  }

  /** The names tried are the numbered ones, in order. */
  lemma CandidateIsNumbered(job: Job, n: nat, p: Path)
    ensures Numbered(job, n, p) <==> p == Candidate(job, n + 1)
  {
    hide Writes, Decimal;
    DecimalIs(Decimal(n), n);
    forall numeral ensures Writes(numeral, n) <==> numeral == Decimal(n) { DecimalIs(numeral, n); }
  }

  /** A hidden name beside the target: its own name, a number from 1 on, and `.tmp`, with dots between. */
  ghost predicate NumberedTemporary(target: Path, n: nat, p: Path)
    requires target != []
  {
    exists numeral :: Writes(numeral, n) && p == target[..|target| - 1] + ["." + target[|target| - 1] + "." + numeral + ".tmp"]
  }

  lemma TemporaryIsNumbered(target: Path, n: nat, p: Path)
    requires target != []
    ensures NumberedTemporary(target, n, p) <==> p == Temporary(target, n)
  {
    hide Writes, Decimal;
    DecimalIs(Decimal(n), n);
    forall numeral ensures Writes(numeral, n) <==> numeral == Decimal(n) { DecimalIs(numeral, n); }
  }

  /** The file the placement has reserved. */
  predicate IsTarget(pc: Pc, p: Path)
  {
    match pc
    case Linking(t, _) => p == t
    case Opening(t, _) => p == t
    case Copying(t, _) => p == t
    case Replacing(t, _, _) => p == t
    case UnlinkingSource(t, _) => p == t
    case UndoingCopy(t, _) => p == t
    case UndoingTemporary(t, _, _) => p == t
    case UndoingTarget(t) => p == t
    case Placed(t, _) => p == t
    case _ => false
  }

  /** Its temporary, from the call that creates it to the rename that uses it up. */
  predicate IsScratch(pc: Pc, p: Path)
  {
    match pc
    case Copying(_, q) => p == q
    case Replacing(_, q, _) => p == q
    case UndoingCopy(_, q) => p == q
    case UndoingTemporary(_, q, renamed) => !renamed && p == q
    case _ => false
  }

  /** A temporary already renamed away, whose name the rollback would still unlink. */
  predicate IsSpent(pc: Pc, p: Path)
  {
    match pc
    case UnlinkingSource(_, q) => p == q
    case UndoingTemporary(_, q, renamed) => renamed && p == q
    case _ => false
  }

  /** The files a placement has made and not given up. */
  predicate Holds(pc: Pc, p: Path)
  {
    IsTarget(pc, p) || IsScratch(pc, p)
  }

  predicate Finished(pc: Pc)
  {
    pc.Placed? || pc.Failed?
  }

  /** A placement that has begun its rollback, or given up. */
  predicate Doomed(pc: Pc)
  {
    pc.UndoingCopy? || pc.UndoingTemporary? || pc.UndoingTarget? || pc.RemovingParents? || pc.Failed?
  }

  predicate MovedAway(pl: Placer)
  {
    pl.pc.Placed? && pl.job.move
  }

  /** The step after the reservation: hardlink first, unless the file is to be moved. */
  function Start(job: Job, target: Path): Pc
  {
    if job.move then Opening(target, 1) else Linking(target, 1)
  }

  /** The copy's next bytes: at least one more, up to all that is left. */
  function CopyStep(all: Bytes, done: Bytes, chunk: nat): (bytes: Bytes)
    requires |done| < |all|
    ensures |done| < |bytes| <= |all|
    ensures done <= all ==> bytes <= all
  {
    var end := if |done| + chunk + 1 < |all| then |done| + chunk + 1 else |all|;
    done + all[|done|..end]
  }

  /** What a placement does next: its new standing, the call it makes, and files it gives up on. */
  datatype Action = Then(pc: Pc, call: Call, abandoned: set<Path>)

  function Go(pc: Pc, call: Call := Nothing): Action
  {
    Then(pc, call, {})
  }

  /** Once the directory of that depth is there. */
  function Deeper(job: Job, depth: nat): Pc
  {
    if depth >= |job.dir| then Reserving(1) else MakingDirectories(depth + 1, false)
  }

  /** One call of `target.parent.mkdir(parents=True, exist_ok=True)`: it tries the last directory first, goes up
      while parents are missing, and comes down again, when a parent that is missing is an error. */
  function MakeDirectory(job: Job, depth: nat, parents: bool, d: Disk, c: Choice): (m: Action)
    ensures Permitted(d, m.call)
  {
    if c.Fault? || depth > |job.dir| then Go(Failed)
    else
      var p := job.dir[..depth];
      if p in d.dirs then Go(Deeper(job, depth))
      else if p in d.files then Go(Failed)
      else if Parent(p) in d.dirs then Go(Deeper(job, depth), Mkdir(p))
      else if parents && depth > 0 && Parent(p) !in d.files then Go(MakingDirectories(depth - 1, true))
      else Go(Failed)
  }

  /** One attempt of `_reserve_path`. */
  function ReservePath(job: Job, index: nat, d: Disk, c: Choice): (m: Action)
    ensures Permitted(d, m.call)
  {
    if c.Fault? || index >= NAME_LIMIT || index == 0 then Go(Failed)
    else
      var p := Candidate(job, index);
      if d.Exists(p) then Go(Reserving(index + 1))
      else if Parent(p) !in d.dirs then Go(Failed)
      else Go(Start(job, p), Create(p))
  }

  /** One attempt of `_hardlink_to_temporary`; another file system sends `place_file` to the copy. */
  function LinkTemporary(job: Job, t: Path, index: nat, d: Disk, c: Choice): (m: Action)
    ensures Permitted(d, m.call)
  {
    if c.Fault? then Go(if c.crossDevice then Opening(t, 1) else UndoingTarget(t))
    else if index >= NAME_LIMIT || t == [] || job.source !in d.files then Go(UndoingTarget(t))
    else
      var p := Temporary(t, index);
      if d.Exists(p) then Go(Linking(t, index + 1))
      else if Parent(p) !in d.dirs then Go(UndoingTarget(t))
      else Go(Replacing(t, p, Hardlink), Link(job.source, p))
  }

  /** One attempt of `_copy_to_temporary` at a name. */
  function OpenTemporary(t: Path, index: nat, d: Disk, c: Choice): (m: Action)
    ensures Permitted(d, m.call)
  {
    if c.Fault? || index >= NAME_LIMIT || t == [] then Go(UndoingTarget(t))
    else
      var p := Temporary(t, index);
      if d.Exists(p) then Go(Opening(t, index + 1))
      else if Parent(p) !in d.dirs then Go(UndoingTarget(t))
      else Go(Copying(t, p), Create(p))
  }

  /** `copyfileobj`, some bytes at a time. */
  function CopyMore(job: Job, t: Path, p: Path, d: Disk, c: Choice): (m: Action)
    ensures Permitted(d, m.call)
  {
    if c.Fault? || job.source !in d.files || p !in d.files then Go(UndoingCopy(t, p))
    else if |d.Content(p)| < |d.Content(job.source)| then
      Go(Copying(t, p), Write(p, CopyStep(d.Content(job.source), d.Content(p), c.chunk)))
    else Go(Replacing(t, p, if job.move then Moved else Copied))
  }

  /** `temporary.replace(target)`. */
  function ReplaceTarget(job: Job, t: Path, p: Path, how: Method, d: Disk, c: Choice): (m: Action)
    ensures Permitted(d, m.call)
  {
    if c.Fault? || !Permitted(d, Rename(p, t)) then Go(UndoingTemporary(t, p, false))
    else Go(if job.move then UnlinkingSource(t, p) else Placed(t, how), Rename(p, t))
  }

  /** `source.unlink()`. */
  function UnlinkSource(job: Job, t: Path, p: Path, d: Disk, c: Choice): (m: Action)
    ensures Permitted(d, m.call)
  {
    if c.Fault? || job.source !in d.files then Go(UndoingTemporary(t, p, true))
    else Go(Placed(t, Moved), Unlink(job.source))
  }

  /** The rollback: the copy's own, then `place_file`'s. */
  function Undo(pc: Pc, c: Choice): Action
    requires pc.UndoingCopy? || pc.UndoingTemporary? || pc.UndoingTarget?
  {
    match pc
    case UndoingCopy(t, p) =>
      if c.Fault? then Then(UndoingTarget(t), Nothing, {p}) else Go(UndoingTarget(t), Unlink(p))
    case UndoingTemporary(t, p, renamed) =>
      if c.Fault? then Then(Failed, Nothing, if renamed then {t} else {t, p}) else Go(UndoingTarget(t), Unlink(p))
    case UndoingTarget(t) =>
      if c.Fault? then Then(Failed, Nothing, {t}) else Go(RemovingParents(Parent(t)), Unlink(t))
  }

  /** One round of `_remove_empty_parents`. */
  function RemoveParent(job: Job, path: Path, d: Disk, c: Choice): (m: Action)
    ensures Permitted(d, m.call)
  {
    if c.Fault? || path == job.root || !Permitted(d, Rmdir(path)) then Go(Failed)
    else Go(RemovingParents(Parent(path)), Rmdir(path))
  }

  /** The next system call of a placement; the disk decides with `c` whether it works. */
  function Advance(job: Job, pc: Pc, d: Disk, c: Choice): (m: Action)
    ensures Permitted(d, m.call)
  {
    match pc
    case MakingDirectories(depth, parents) => MakeDirectory(job, depth, parents, d, c)
    case Reserving(index) => ReservePath(job, index, d, c)
    case Linking(t, index) => LinkTemporary(job, t, index, d, c)
    case Opening(t, index) => OpenTemporary(t, index, d, c)
    case Copying(t, p) => CopyMore(job, t, p, d, c)
    case Replacing(t, p, how) => ReplaceTarget(job, t, p, how, d, c)
    case UnlinkingSource(t, p) => UnlinkSource(job, t, p, d, c)
    case UndoingCopy(_, _) => Undo(pc, c)
    case UndoingTemporary(_, _, _) => Undo(pc, c)
    case UndoingTarget(_) => Undo(pc, c)
    case RemovingParents(path) => RemoveParent(job, path, d, c)
    case Placed(_, _) => Go(pc)
    case Failed => Go(pc)
  }

  function After(s: State, id: nat, m: Action): State
    requires id in s.placers && Permitted(s.disk, m.call)
  {
    State(Apply(s.disk, m.call), s.placers[id := s.placers[id].(pc := m.pc)], s.abandoned + m.abandoned)
  }

  function Step(s: State, id: nat, c: Choice): State
    requires id in s.placers
  {
    After(s, id, Advance(s.placers[id].job, s.placers[id].pc, s.disk, c))
  }

  /** A schedule: which placement makes the next call, and how the call goes. */
  function Run(s: State, schedule: seq<(nat, Choice)>): State
    requires forall k :: 0 <= k < |schedule| ==> schedule[k].0 in s.placers
    decreases |schedule|
  {
    if schedule == [] then s else Run(Step(s, schedule[0].0, schedule[0].1), schedule[1..])
  }
}
