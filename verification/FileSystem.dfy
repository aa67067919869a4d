/** A file system as import sees it: directories, names, inodes, and the bytes behind an inode. */
module FileSystem {
  import opened Bytes

  type Path = seq<string>
  type Inode = nat

  function Parent(p: Path): Path
  {
    if p == [] then [] else p[..|p| - 1]
  }

  /** The directories from `high` up, short of `low`. */
  function Between(low: Path, high: Path): set<Path>
  {
    set k | |low| < k <= |high| :: high[..k]
  }

  lemma BetweenMore(low: Path, high: Path)
    requires high != [] && low <= Parent(high)
    ensures Between(low, high) == Between(low, Parent(high)) + {high}
  {
    forall k | |low| < k <= |high| ensures high[..k] == high || (k <= |Parent(high)| && high[..k] == Parent(high)[..k]) {}
    forall k | |low| < k <= |Parent(high)| ensures Parent(high)[..k] == high[..k] {}
    assert high == high[..|high|];
  }

  /** `next` is the first inode number never handed out. */
  datatype Disk = Disk(dirs: set<Path>, files: map<Path, Inode>, data: map<Inode, Bytes>, next: Inode) {

    predicate Exists(p: Path)
    {
      p in files || p in dirs
    }

    /** `rmdir` succeeds only on a directory nothing lives in. */
    predicate EmptyDirectory(p: Path)
    {
      && p in dirs
      && (forall q :: q in files && q != [] ==> Parent(q) != p)
      && (forall q :: q in dirs && q != [] ==> Parent(q) != p)
    }

    ghost predicate Valid()
    {
      && [] in dirs
      && (forall p :: p in files ==> files[p] in data && p !in dirs && p != [] && Parent(p) in dirs)
      && (forall p :: p in dirs ==> Parent(p) in dirs)
      && (forall i :: i in data ==> i < next)
    }

    function Content(p: Path): Bytes
    {
      if p in files && files[p] in data then data[files[p]] else []
    }
  }

  /** The system calls that change a file system. */
  datatype Call =
    | Nothing
    | Mkdir(path: Path)
    | Rmdir(path: Path)
    | Create(path: Path)              // open(O_CREAT | O_EXCL): a new, empty inode
    | Link(source: Path, path: Path)
    | Write(path: Path, bytes: Bytes)
    | Rename(path: Path, to: Path)
    | Unlink(path: Path)

  /** What the operating system asks before it carries a call out. */
  predicate Permitted(d: Disk, call: Call)
  {
    match call
    case Nothing => true
    case Mkdir(p) => !d.Exists(p) && Parent(p) in d.dirs
    case Rmdir(p) => p != [] && d.EmptyDirectory(p)
    case Create(p) => !d.Exists(p) && Parent(p) in d.dirs
    case Link(source, p) => source in d.files && !d.Exists(p) && Parent(p) in d.dirs
    case Write(p, _) => p in d.files
    case Rename(p, to) => p in d.files && to != [] && to !in d.dirs && Parent(to) in d.dirs
    case Unlink(_) => true
  }

  /** A permitted call, carried out. `rename(2)` does nothing when both names already share an inode. */
  function Apply(d: Disk, call: Call): Disk
    requires Permitted(d, call)
  {
    match call
    case Nothing => d
    case Mkdir(p) => d.(dirs := d.dirs + {p})
    case Rmdir(p) => d.(dirs := d.dirs - {p})
    case Create(p) => d.(files := d.files[p := d.next], data := d.data[d.next := []], next := d.next + 1)
    case Link(source, p) => d.(files := d.files[p := d.files[source]])
    case Write(p, bytes) => d.(data := d.data[d.files[p] := bytes])
    case Rename(p, to) =>
      if to in d.files && d.files[to] == d.files[p] then d
      else d.(files := (d.files - {p})[to := d.files[p]])
    case Unlink(p) => d.(files := d.files - {p})
  }

  predicate Touches(call: Call, q: Path)
  {
    match call
    case Create(p) => q == p
    case Link(_, p) => q == p
    case Write(p, _) => q == p
    case Rename(p, to) => q == p || q == to
    case Unlink(p) => q == p
    case _ => false
  }

  /** Two disks agree on a name: both lack it, or both have it for the same inode holding the same bytes. */
  ghost predicate Agree(d: Disk, d': Disk, p: Path)
  {
    && (p in d.files <==> p in d'.files)
    && (p in d.files ==> d'.files[p] == d.files[p] && d'.Content(p) == d.Content(p))
  }

  lemma ApplyValid(d: Disk, call: Call)
    requires d.Valid() && Permitted(d, call)
    ensures Apply(d, call).Valid()
  {
  }

  /** A call changes nothing but the names it is given, unless it writes to an inode with another name. */
  lemma ApplyTouches(d: Disk, call: Call)
    requires d.Valid() && Permitted(d, call)
    requires call.Write? ==> forall q :: q in d.files && q != call.path ==> d.files[q] != d.files[call.path]
    ensures forall q :: !Touches(call, q) ==> Agree(d, Apply(d, call), q)
  {
  }
}
