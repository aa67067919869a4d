/** Library paths as placements: what `build_library_path` gives `place_file` is what its theorems ask for. */
module LibraryJobs {

  import opened LibraryNaming
  import opened FileSystem
  import opened Placement
  import opened PlacementSafety

  /** One past the last dot of `name`, or 0. */
  function BehindLastDot(name: string): (n: nat)
    ensures n <= |name|
  {
    if name == "" then 0
    else if name[|name| - 1] == '.' then |name| else BehindLastDot(name[..|name| - 1])
  }

  /** `PurePath.stem` and `PurePath.suffix`. */
  function SplitName(name: string): (string, string)
  {
    var n := BehindLastDot(name);
    if 1 < n < |name| then (name[..n - 1], name[n - 1..]) else (name, "")
  }

  /** The suffix is what follows the last dot, dot included, unless that dot begins or ends the name. */
  predicate Splits(name: string, stem: string, suffix: string)
  {
    && name == stem + suffix
    && (suffix != "" ==> stem != "" && |suffix| > 1 && suffix[0] == '.' && '.' !in suffix[1..])
    && (suffix == "" ==> name == "" || name[|name| - 1] == '.' || '.' !in name[1..])
  }

  lemma SplitNameIs(name: string)
    ensures Splits(name, SplitName(name).0, SplitName(name).1)
  {
    LastDot(name);
    var n := BehindLastDot(name);
    if 1 < n < |name| {
      assert name == name[..n - 1] + name[n - 1..];
      assert name[n - 1..][1..] == name[n..];
    } else if n <= 1 {
      assert forall k :: 1 <= k < |name| ==> name[k] == name[n..][k - n];
    }
  }

  lemma {:induction false} LastDot(name: string)
    ensures BehindLastDot(name) > 0 ==> name[BehindLastDot(name) - 1] == '.'
    ensures '.' !in name[BehindLastDot(name)..]
    decreases |name|
  {
    if name != "" && name[|name| - 1] != '.' {
      var front := name[..|name| - 1];
      LastDot(front);
      var n := BehindLastDot(front);
      assert name[n..] == front[n..] + [name[|name| - 1]];
    }
  }

  function JobFor(source: Path, root: Path, parts: Path, move: bool): Job
    requires parts != []
  {
    var (stem, suffix) := SplitName(parts[|parts| - 1]);
    Job(source, root, root + parts[..|parts| - 1], stem, suffix, move)
  }

  /** The wanted file is the path built, and the job is one the placement theorems cover. */
  lemma LibraryJobIsOk(disk: Disk, source: Path, root: Path, work: Work, ending: string, layout: string, move: bool)
    requires source in disk.files && '/' !in ending && BuildLibraryPath(work, ending, layout).Ok?
    ensures var parts := BuildLibraryPath(work, ending, layout).value;
      && parts != []
      && JobOk(disk, JobFor(source, root, parts, move))
      && Candidate(JobFor(source, root, parts, move), 1) == root + parts
      && Splits(parts[|parts| - 1], JobFor(source, root, parts, move).stem, JobFor(source, root, parts, move).suffix)
  {
    PathStaysInside(work, ending, layout);
    SplitNameIs(BuildLibraryPath(work, ending, layout).value[|BuildLibraryPath(work, ending, layout).value| - 1]);
    hide BuildLibraryPath;
    JobForParts(disk, source, root, BuildLibraryPath(work, ending, layout).value, move);
  }

  lemma JobForParts(disk: Disk, source: Path, root: Path, parts: Path, move: bool)
    requires source in disk.files && parts != [] && PathPart(parts[|parts| - 1])
    ensures JobOk(disk, JobFor(source, root, parts, move))
    ensures Candidate(JobFor(source, root, parts, move), 1) == root + parts
  {
    var name, dir := parts[|parts| - 1], parts[..|parts| - 1];
    SplitIsName(name);
    hide SplitName;
    assert root <= root + dir;
    assert root + parts == root + dir + [name];
  }

  lemma SplitIsName(name: string)
    requires name != "" && name[0] != '.'
    ensures SplitName(name).0 + SplitName(name).1 == name
    ensures SplitName(name).0 != "" && SplitName(name).0[0] != '.'
  {
  }

  /** Every importer that uses one layout files at one depth. */
  lemma LibraryJobsOneDepth(one: Work, other: Work, ending1: string, ending2: string, layout: string,
                            source1: Path, source2: Path, root: Path, move1: bool, move2: bool)
    requires '/' !in ending1 && '/' !in ending2
    requires BuildLibraryPath(one, ending1, layout).Ok? && BuildLibraryPath(other, ending2, layout).Ok?
    requires BuildLibraryPath(one, ending1, layout).value != [] && BuildLibraryPath(other, ending2, layout).value != []
    ensures |JobFor(source1, root, BuildLibraryPath(one, ending1, layout).value, move1).dir|
         == |JobFor(source2, root, BuildLibraryPath(other, ending2, layout).value, move2).dir|
  {
    DepthIsTheLayouts(one, other, ending1, ending2, layout);
    hide BuildLibraryPath;
  }
}
