/**
 * The local filesystem as the cache sees it: regular files holding bytes and
 * a set of directories, plus the `os.path` and `os` calls the cache makes.
 * Parent directories, permissions and concurrent writers are not tracked.
 */
module FileSystem {
  import opened Common

  type Path = string

  /** `posixpath.join(a, b)`: an absolute `b` replaces `a`; otherwise a `/`
      is inserted unless `a` is empty or already ends with one. */
  function Join(a: Path, b: Path): Path
  {
    if |b| > 0 && b[0] == '/' then b
    else if a == [] || a[|a| - 1] == '/' then a + b
    else a + "/" + b
  }

  /** An absolute `b` is the whole result; a relative one is appended to
      `a` with at most one separator between them. */
  lemma JoinShape(a: Path, b: Path)
    ensures |b| > 0 && b[0] == '/' ==> Join(a, b) == b
    ensures (b == [] || b[0] != '/') ==>
      var r := Join(a, b);
      && |a| + |b| <= |r| <= |a| + |b| + 1
      && r[..|a|] == a && r[|r| - |b|..] == b
  {
  }

  /** A snapshot of the filesystem. */
  datatype Disk = Disk(files: map<Path, seq<byte>>, dirs: set<Path>)
  {
    /** No path is both a regular file and a directory. */
    ghost predicate Valid() { files.Keys !! dirs }
  }

  class FileSystem {
    var files: map<Path, seq<byte>>
    var dirs: set<Path>

    ghost predicate Valid()
      reads this
    {
      State().Valid()
    }

    function State(): Disk
      reads this
    {
      Disk(files, dirs)
    }

    constructor (d: Disk)
      requires d.Valid()
      ensures Valid() && State() == d
    {
      files, dirs := d.files, d.dirs;
    }

    /** `os.path.isdir`: a directory exists. */
    predicate IsDir(p: Path)
      reads this
      ensures Valid() && IsDir(p) ==> p !in files
    {
      p in dirs
    }

    /** `os.path.exists`: a regular file or a directory. */
    predicate Exists(p: Path)
      reads this
      ensures Valid() ==> (Exists(p) && p !in dirs <==> p in files)
    {
      p in files || p in dirs
    }

    /** `os.makedirs(p)`: raises FileExistsError when `p` already exists,
        otherwise creates the directory and touches no file. */
    method MakeDirs(p: Path) returns (r: Outcome<()>)
      requires Valid()
      modifies this
      ensures Valid() && files == old(files)
      ensures old(Exists(p)) ==> r == Raised(FileExistsError(p)) && dirs == old(dirs)
      ensures !old(Exists(p)) ==> r == Ok(()) && dirs == old(dirs) + {p}
    {
      if Exists(p) {
        return Raised(FileExistsError(p));
      }
      dirs := dirs + {p};
      return Ok(());
    }

    /** `open(p, mode)` with `mode` "w" or "wb": raises IsADirectoryError
        on a directory, otherwise creates or truncates the file. */
    method OpenForWrite(p: Path, mode: string) returns (r: Outcome<()>)
      requires Valid() && |mode| > 0 && mode[0] == 'w'
      modifies this
      ensures Valid() && dirs == old(dirs)
      ensures old(IsDir(p)) ==> r == Raised(IsADirectoryError(p)) && files == old(files)
      ensures !old(IsDir(p)) ==> r == Ok(()) && files == old(files)[p := []]
    {
      if IsDir(p) {
        return Raised(IsADirectoryError(p));
      }
      files := files[p := []];
      return Ok(());
    }

    /** Everything a file opened with `open(p, mode)`, `mode` "r" or "rb",
        yields to its reader: the file's bytes. */
    method ReadAll(p: Path, mode: string) returns (b: seq<byte>)
      requires p in files && |mode| > 0 && mode[0] == 'r'
      ensures b == files[p]
    {
      b := files[p];
    }

    /** `file.write(b)` on a file opened for writing. */
    method Append(p: Path, b: seq<byte>)
      requires Valid() && p in files
      modifies this
      ensures Valid() && dirs == old(dirs)
      ensures files == old(files)[p := old(files)[p] + b]
    {
      files := files[p := files[p] + b];
    }
  }
}
