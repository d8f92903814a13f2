/**
 * The key/value cache over the filesystem (`Cache` in openmxr/cache.py).
 *
 * An entry for `key` in namespace `name` lives at
 * `./.cache/<name>/<mkmd5(key)>.cache`. The hash `mkmd5` and the codec's
 * `dump`/`load` are foreign code, so a cache holds them as function values.
 * The behaviour of `check_cache_exists`, `get` and `set` is first stated on a
 * `Disk` value (CheckIn, GetIn, SetIn), where the lemmas live; the methods of
 * class `Cache` are then proved to act on the filesystem exactly so.
 */
module CacheStore {
  import opened Common
  import opened FileSystem

  const CacheRoot: Path := "./.cache/"

  /** The namespace directory `path.join("./.cache/", name)`: the name
      under `./.cache/`, unless the name is absolute and replaces it. */
  function CacheDir(name: string): (dir: Path)
    ensures name != [] && name[0] == '/' ==> dir == name
    ensures (name == [] || name[0] != '/') ==> dir == CacheRoot + name
  {
    Join(CacheRoot, name)
  }

  /** A digest `posixpath.join` appends rather than substitutes. */
  predicate Relative(digest: string)
  {
    digest == [] || digest[0] != '/'
  }

  /** What `mkmd5` returns: 32 lower-case hex digits. */
  predicate IsHexDigest(h: string)
  {
    |h| == 32 && forall i :: 0 <= i < |h| ==> h[i] in "0123456789abcdef"
  }

  /** A hex digest never starts with `/`. */
  lemma HexIsRelative(h: string)
    requires IsHexDigest(h)
    ensures Relative(h)
  {
    assert h[0] in "0123456789abcdef";
  }

  /** A namespace that `posixpath.join` keeps as one relative component. */
  predicate PlainName(name: string)
  {
    name != [] && name[0] != '/' && name[|name| - 1] != '/'
  }

  /** `get_cache_filename`: the entry path for a key whose digest is `digest`.
      It lies strictly inside the namespace directory. */
  function EntryPath(name: string, digest: string): (p: Path)
    ensures Relative(digest) ==> |p| > |CacheDir(name)| && p[..|CacheDir(name)|] == CacheDir(name)
  {
    Join(CacheDir(name), digest + ".cache")
  }

  /** The mode string given to `open`: `r` or `w`, followed by `b` exactly
      when the cache's `binary_format` is set. */
  function Mode(op: char, binaryFormat: bool): (m: string)
    requires op == 'r' || op == 'w'
    ensures |m| > 0 && m[0] == op
    ensures 'b' in m <==> binaryFormat
  {
    [op] + (if binaryFormat then "b" else "")
  }

  /** What a codec's `dump` leaves in the file it writes to: the whole
      serialisation, or the part written before it raised. */
  datatype Dumped = Dumped(bytes: seq<byte>) | DumpFailed(partial: seq<byte>)

  /** A codec: `dump` may raise part-way, `load` may raise (None). */
  datatype Codec<!T> = Codec(dump: T -> Dumped, load: seq<byte> -> Option<T>)

  /** `check_cache_exists` on a disk: create the namespace directory only if
      `path.isdir` says it is missing; `makedirs` raises when the path is a
      regular file. No regular file changes. */
  function CheckIn(d: Disk, name: string): (r: (Disk, Outcome<()>))
    requires d.Valid()
    ensures r.0.Valid() && r.0.files == d.files
    ensures r.1.Ok? <==> CacheDir(name) !in d.files
    ensures r.1.Ok? ==> r.0.dirs == d.dirs + {CacheDir(name)}
    ensures r.1.Raised? ==> r.0 == d && r.1.error == FileExistsError(CacheDir(name))
    ensures CacheDir(name) in d.dirs ==> r == (d, Ok(()))
  {
    var dir := CacheDir(name);
    if dir in d.dirs then (d, Ok(()))
    else if dir in d.files then (d, Raised(FileExistsError(dir)))
    else (d.(dirs := d.dirs + {dir}), Ok(()))
  }

  /** The part of `get` before the codec runs: a missing path is a miss
      (`Ok(None)`), a directory makes `open` raise, a file yields its bytes. */
  function ReadEntry(d: Disk, p: Path): (r: Outcome<Option<seq<byte>>>)
    requires d.Valid()
    ensures r == Ok(None) <==> p !in d.files && p !in d.dirs
    ensures r.Raised? <==> p in d.dirs
    ensures r.Ok? && r.value.Some? <==> p in d.files
    ensures r.Ok? && r.value.Some? ==> r.value.value == d.files[p]
  {
    if p !in d.files && p !in d.dirs then Ok(None)
    else if p in d.dirs then Raised(IsADirectoryError(p))
    else Ok(Some(d.files[p]))
  }

  /** `get` on a disk: a missing entry and an entry that `load` cannot read
      are both misses; a hit is exactly what `load` makes of the file. */
  function GetIn<T>(d: Disk, name: string, digest: string, load: seq<byte> -> Option<T>): (r: Outcome<Option<T>>)
    requires d.Valid()
    ensures var p := EntryPath(name, digest);
      && (r.Raised? <==> p in d.dirs)
      && (r == Ok(None) <==> (p !in d.files && p !in d.dirs) || (p in d.files && load(d.files[p]) == None))
      && (r.Ok? && r.value.Some? ==> p in d.files && load(d.files[p]) == r.value)
  {
    match ReadEntry(d, EntryPath(name, digest))
    case Raised(e) => Raised(e)
    case Ok(None) => Ok(None)
    case Ok(Some(content)) => Ok(load(content))
  }

  /** Whether `set` gets as far as writing: the namespace directory can be
      made and the entry path is not a directory. */
  predicate OpensIn(d: Disk, name: string, digest: string)
    requires d.Valid()
  {
    CheckIn(d, name).1.Ok? && EntryPath(name, digest) !in CheckIn(d, name).0.dirs
  }

  /** `set` on a disk, given what the codec writes: ensure the namespace,
      truncate the entry, write. Only the entry's own file changes, and it
      ends up holding exactly what was written. */
  function SetIn(d: Disk, name: string, digest: string, w: Dumped): (r: (Disk, Outcome<()>))
    requires d.Valid()
    ensures r.0.Valid()
    ensures r.1.Ok? <==> OpensIn(d, name, digest) && w.Dumped?
    ensures r.0.files - {EntryPath(name, digest)} == d.files - {EntryPath(name, digest)}
    ensures r.0.dirs == CheckIn(d, name).0.dirs
    ensures OpensIn(d, name, digest) ==>
      && EntryPath(name, digest) in r.0.files
      && r.0.files[EntryPath(name, digest)] == (if w.Dumped? then w.bytes else w.partial)
    ensures !OpensIn(d, name, digest) ==> r.0.files == d.files
  {
    var (d1, c) := CheckIn(d, name);
    if c.Raised? then (d1, c)
    else
      var p := EntryPath(name, digest);
      if p in d1.dirs then (d1, Raised(IsADirectoryError(p)))
      else match w
        case Dumped(b) => (d1.(files := d1.files[p := b]), Ok(()))
        case DumpFailed(part) => (d1.(files := d1.files[p := part]), Raised(SerializationError))
  }

  /** The entry path, as a string, is `./.cache/<name>/<digest>.cache`. */
  lemma EntryPathShape(name: string, digest: string)
    requires PlainName(name) && Relative(digest)
    ensures EntryPath(name, digest) == "./.cache/" + name + "/" + digest + ".cache"
  {
    assert CacheDir(name) == "./.cache/" + name;
    var file := digest + ".cache";
    assert file[0] != '/';
    assert CacheDir(name)[|CacheDir(name)| - 1] == name[|name| - 1];
  }

  /** Within one namespace, two keys share an entry exactly when their
      digests are equal. */
  lemma EntryPathSeparatesDigests(name: string, d1: string, d2: string)
    requires Relative(d1) && Relative(d2)
    ensures EntryPath(name, d1) == EntryPath(name, d2) <==> d1 == d2
  {
    if EntryPath(name, d1) == EntryPath(name, d2) {
      var dir := CacheDir(name);
      var sep: string := if dir == [] || dir[|dir| - 1] == '/' then "" else "/";
      var f1, f2 := d1 + ".cache", d2 + ".cache";
      JoinRelative(dir, d1);
      JoinRelative(dir, d2);
      assert (dir + sep) + f1 == (dir + sep) + f2;
      CancelPrefix(dir + sep, f1, f2);
      CancelSuffix(d1, d2, ".cache");
    }
  }

  /** Joining a relative entry name appends it after at most one `/`. */
  lemma JoinRelative(dir: Path, digest: string)
    requires Relative(digest)
    ensures Join(dir, digest + ".cache")
      == (dir + (if dir == [] || dir[|dir| - 1] == '/' then "" else "/")) + (digest + ".cache")
  {
    var f := digest + ".cache";
    assert f[0] != '/' by {
      if digest == [] {
        assert f == ".cache";
      } else {
        assert f[0] == digest[0];
      }
    }
  }

  lemma CancelPrefix(a: string, x: string, y: string)
    requires a + x == a + y
    ensures x == y
  {
    assert x == (a + x)[|a|..];
    assert y == (a + y)[|a|..];
  }

  lemma CancelSuffix(x: string, y: string, z: string)
    requires x + z == y + z
    ensures x == y
  {
    assert |x| == |y|;
    assert x == (x + z)[..|x|];
    assert y == (y + z)[..|y|];
  }

  /** Across namespaces with plain names and hex digests, the entry path
      determines both the namespace and the digest. */
  lemma EntryPathInjective(n1: string, d1: string, n2: string, d2: string)
    requires PlainName(n1) && PlainName(n2) && IsHexDigest(d1) && IsHexDigest(d2)
    requires EntryPath(n1, d1) == EntryPath(n2, d2)
    ensures n1 == n2 && d1 == d2
  {
    assert d1[0] in "0123456789abcdef" && d2[0] in "0123456789abcdef";
    EntryPathShape(n1, d1);
    EntryPathShape(n2, d2);
    var p := EntryPath(n1, d1);
    assert |n1| == |n2|;
    assert n1 == p[9..9 + |n1|];
    assert n2 == p[9..9 + |n2|];
    EntryPathSeparatesDigests(n1, d1, d2);
  }

  /** `check_cache_exists` is idempotent: a second call changes nothing and
      reports what the first did. */
  lemma CheckIdempotent(d: Disk, name: string)
    requires d.Valid()
    ensures CheckIn(CheckIn(d, name).0, name) == CheckIn(d, name)
  {
  }

  /** Making the namespace directory never changes what `get` returns, so a
      fresh cache instance on the same disk sees every earlier entry. */
  lemma {:induction false} CheckKeepsEntries<T>(d: Disk, name: string, digest: string, load: seq<byte> -> Option<T>)
    requires d.Valid() && Relative(digest)
    ensures GetIn(CheckIn(d, name).0, name, digest, load) == GetIn(d, name, digest, load)
  {
    var p := EntryPath(name, digest);
    assert p != CacheDir(name);
  }

  /** A successful `set` followed by `get` yields the stored value whenever
      the codec's `load` inverts its `dump` on it (the JSON codec does). */
  lemma {:induction false} GetAfterSet<T>(d: Disk, name: string, digest: string, codec: Codec<T>, v: T)
    requires d.Valid()
    requires codec.dump(v).Dumped? && codec.load(codec.dump(v).bytes) == Some(v)
    requires SetIn(d, name, digest, codec.dump(v)).1.Ok?
    ensures GetIn(SetIn(d, name, digest, codec.dump(v)).0, name, digest, codec.load) == Ok(Some(v))
  {
    var d' := SetIn(d, name, digest, codec.dump(v)).0;
    var p := EntryPath(name, digest);
    assert p in d'.files && d'.files[p] == codec.dump(v).bytes;
  }

  /** `set` on one key leaves `get` on every key with another digest as it
      was. */
  lemma {:induction false} SetLeavesOtherKeys<T>(d: Disk, name: string, digest: string, w: Dumped,
                                                 other: string, load: seq<byte> -> Option<T>)
    requires d.Valid() && Relative(digest) && Relative(other) && other != digest
    ensures GetIn(SetIn(d, name, digest, w).0, name, other, load) == GetIn(d, name, other, load)
  {
    var d' := SetIn(d, name, digest, w).0;
    var p, q := EntryPath(name, digest), EntryPath(name, other);
    EntryPathSeparatesDigests(name, digest, other);
    assert q != CacheDir(name);
    assert q in d'.files <==> q in d.files by {
      assert q in d'.files - {p} <==> q in d.files - {p};
    }
    if q in d.files {
      assert (d'.files - {p})[q] == (d.files - {p})[q];
    }
  }

  /** Last writer wins: a second `set` on the same key leaves exactly the
      disk and the outcome that the second `set` alone would, with no
      residue of the first. */
  lemma {:induction false} SetOverwrites(d: Disk, name: string, digest: string, w1: Dumped, w2: Dumped)
    requires d.Valid() && Relative(digest)
    ensures SetIn(SetIn(d, name, digest, w1).0, name, digest, w2) == SetIn(d, name, digest, w2)
  {
    var d1 := SetIn(d, name, digest, w1).0;
    var p := EntryPath(name, digest);
    assert p != CacheDir(name);
    if OpensIn(d, name, digest) {
      assert OpensIn(d1, name, digest);
      var a, b := SetIn(d1, name, digest, w2).0, SetIn(d, name, digest, w2).0;
      assert a.files == b.files by {
        assert a.files.Keys == b.files.Keys by {
          assert a.files - {p} == b.files - {p};
        }
        forall q | q in a.files
          ensures a.files[q] == b.files[q]
        {
          if q != p {
            assert (a.files - {p})[q] == (b.files - {p})[q];
          }
        }
      }
    }
  }

  /** `check_cache_exists` on a live filesystem. */
  method CheckCacheExists(fs: FileSystem, name: string) returns (r: Outcome<()>)
    requires fs.Valid()
    modifies fs
    ensures fs.Valid()
    ensures (fs.State(), r) == CheckIn(old(fs.State()), name)
  {
    if !fs.IsDir(CacheDir(name)) {
      r := fs.MakeDirs(CacheDir(name));
    } else {
      r := Ok(());
    }
  }

  class Cache<T> {
    const name: string
    const md5: string -> string
    const codec: Codec<T>
    const fs: FileSystem
    const binaryFormat: bool := false

    ghost predicate Valid()
      reads fs
    {
      fs.Valid()
    }

    constructor (name: string, md5: string -> string, codec: Codec<T>, fs: FileSystem)
      ensures this.name == name && this.md5 == md5 && this.codec == codec && this.fs == fs
    {
      this.name, this.md5, this.codec, this.fs := name, md5, codec, fs;
    }

    /** `Cache(name)`: set the name, then `check_cache_exists`; the
        constructor raises when the namespace path is a regular file. */
    static method Open(name: string, md5: string -> string, codec: Codec<T>, fs: FileSystem)
      returns (r: Outcome<Cache<T>>)
      requires fs.Valid()
      modifies fs
      ensures fs.Valid()
      ensures fs.State() == CheckIn(old(fs.State()), name).0
      ensures r.Ok? <==> CheckIn(old(fs.State()), name).1.Ok?
      ensures r.Raised? ==> r.error == CheckIn(old(fs.State()), name).1.error
      ensures r.Ok? ==> r.value.name == name && r.value.md5 == md5 && r.value.codec == codec && r.value.fs == fs
    {
      var c := new Cache(name, md5, codec, fs);
      var chk := CheckCacheExists(fs, name);
      if chk.Raised? {
        return Raised(chk.error);
      }
      return Ok(c);
    }

    /** `get_cache_filename(key)`: for a plain name and an md5 digest,
        `./.cache/<name>/<digest>.cache`. */
    function GetCacheFilename(key: string): (p: Path)
      ensures PlainName(name) && IsHexDigest(md5(key)) ==> p == "./.cache/" + name + "/" + md5(key) + ".cache"
    {
      var digest := md5(key);
      if PlainName(name) && IsHexDigest(digest) then
        HexIsRelative(digest);
        EntryPathShape(name, digest);
        EntryPath(name, digest)
      else
        EntryPath(name, digest)
    }

    /** `get(key)`: the entry is opened in mode `Mode('r', binaryFormat)`. */
    method Get(key: string) returns (r: Outcome<Option<T>>)
      requires Valid()
      ensures r == GetIn(fs.State(), name, md5(key), codec.load)
    {
      var p := GetCacheFilename(key);
      if !fs.Exists(p) {
        return Ok(None);
      }
      if fs.IsDir(p) {
        return Raised(IsADirectoryError(p));
      }
      var content := fs.ReadAll(p, Mode('r', binaryFormat));
      return Ok(codec.load(content));
    }

    /** `set(key, data)`: the entry is opened in mode `Mode('w', binaryFormat)`. */
    method Set(key: string, data: T) returns (r: Outcome<()>)
      requires Valid()
      modifies fs
      ensures Valid()
      ensures (fs.State(), r) == SetIn(old(fs.State()), name, md5(key), codec.dump(data))
    {
      ghost var d0 := fs.State();
      r := CheckCacheExists(fs, name);
      if r.Raised? {
        return;
      }
      ghost var d1 := fs.State();
      var p := GetCacheFilename(key);
      r := fs.OpenForWrite(p, Mode('w', binaryFormat));
      if r.Raised? {
        return;
      }
      assert fs.files == d1.files[p := []];
      match codec.dump(data)
      case Dumped(b) =>
        fs.Append(p, b);
        assert [] + b == b;
        assert fs.files == d1.files[p := b];
        r := Ok(());
      case DumpFailed(part) =>
        fs.Append(p, part);
        assert [] + part == part;
        assert fs.files == d1.files[p := part];
        r := Raised(SerializationError);
    }
  }
}
