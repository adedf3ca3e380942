/** The file system the engines work on, as a value: a map from path to entry.
    Directories are explicit entries, symbolic links are entries holding their
    target text, and the host calls the engines make (`getsize`, `exists`,
    `isfile`, `isdir`, `shutil.copy`, `os.makedirs`, `os.unlink`, `os.symlink`,
    `os.chmod`, reading a file for its MD5) are functions from one map to the
    next.  Links are entries like any other: `GetSize` follows them, the other
    calls do not.  Where a link leads is the host's business (`Env.follow`).
    The digest, the bytes a copy actually writes, and the working directory
    come from outside, in `Env`. */
module FileSystems {
  import opened Paths

  newtype byte = b: int | 0 <= b < 256
  type Bytes = seq<byte>
  type Digest = seq<byte>

  /** A file's contents and permission bits, a directory, or a symbolic link. */
  datatype Entry = File(data: Bytes, mode: nat) | Dir | Link(target: Path)

  type FS = map<Path, Entry>

  /** What the model takes from outside the engines:
      `hash` stands for MD5 of a file's bytes (`md5_for_file`), `transfer` is
      what a copy actually stores for given bytes (the identity on a sound
      device), `cwd` is the process's working directory, and `follow` is
      where the host's path lookup goes from a link at `p` holding `target`
      (lexically, `LinkDestination`, when `LexicalLinks` holds). */
  datatype Env = Env(hash: Bytes -> Digest, transfer: Bytes -> Bytes, cwd: Path, follow: (Path, Path) -> Path)

  /** A device whose copies store exactly the bytes they are given. */
  ghost predicate Faithful(env: Env) {
    forall b: Bytes :: env.transfer(b) == b
  }

  /** The exceptions the engines raise.  `IOError` is the copy-verification
      failure with its message; `OSError` is any failing host call, naming its path. */
  datatype Error =
    | ValueError(msg: string)
    | IOError(msg: string)
    | OSError(path: Path)
    | AssertionError
    | NameError(name: string)

  datatype Result<T> = Ok(value: T) | Err(error: Error)

  /** The file system after a call, and what the call returned or raised. */
  datatype Outcome<T> = Outcome(fs: FS, res: Result<T>)

  /** The mode `os.chmod(p, 0o644)` sets. */
  const ModeRwRR: nat := 0x1A4

  /** A name made of separators only denotes the root, which always exists. */
  predicate IsRoot(p: Path) {
    p != [] && AllSeps(p)
  }

  /** `os.path.exists`. */
  predicate Exists(fs: FS, p: Path) {
    p in fs || IsRoot(p)
  }

  /** `os.path.isfile`. */
  predicate IsFile(fs: FS, p: Path) {
    p in fs && fs[p].File?
  }

  /** `os.path.isdir`. */
  predicate IsDir(fs: FS, p: Path) {
    if p in fs then fs[p].Dir? else IsRoot(p)
  }

  /** A new entry may be made at `p`: its parent directory exists (an empty
      head is the working directory). */
  predicate ParentIsDir(fs: FS, p: Path) {
    var head := Split(p).0;
    head == [] || IsDir(fs, head)
  }

  /** `os.path.getsize`. */
  function Size(fs: FS, p: Path): (r: Result<nat>)
    ensures r.Ok? <==> IsFile(fs, p)
    ensures r.Ok? ==> r.value == |fs[p].data|
  {
    if IsFile(fs, p) then Ok(|fs[p].data|) else Err(OSError(p))
  }

  /** `os.path.abspath(p)` written out: "/" and the normalised components of
      `p` read from the working directory `cwd`. */
  function AbsPath(cwd: Path, p: Path): (r: Path)
    ensures StartsWith(r, "/")
  {
    var parts := AbsParts(cwd, p);
    var r := if parts == [] then "/" else "/" + JoinAll(parts);
    assert r[..1] == "/";
    r
  }

  /** Two spellings with the same normalised parts have the same `abspath`. */
  lemma AbsPathSameParts(cwd: Path, x: Path, y: Path)
    requires AbsParts(cwd, x) == AbsParts(cwd, y)
    ensures AbsPath(cwd, x) == AbsPath(cwd, y)
  {
  }

  /** Where a link at `p` holding `target` leads, in the spelling of
      `AbsPath`: a relative target is read from the link's own directory. */
  function LinkDestination(cwd: Path, p: Path, target: Path): Path {
    AbsPath(cwd, Join(Split(p).0, target))
  }

  /** A host that resolves a link's text as `abspath` of the text read from
      the link's directory. */
  ghost predicate LexicalLinks(env: Env) {
    forall p, target :: env.follow(p, target) == LinkDestination(env.cwd, p, target)
  }

  /** What `os.stat(p)` finds once links are followed, at most `hops` of them:
      `None` for a missing entry, a dangling link or a longer chain. */
  function Resolve(env: Env, fs: FS, p: Path, hops: nat): (r: Option<Entry>)
    ensures r.Some? ==> !r.value.Link?
    ensures p in fs && !fs[p].Link? ==> r == Some(fs[p])
    ensures p !in fs ==> r == if IsRoot(p) then Some(Dir) else None
    ensures r.Some? && r.value.File? ==> exists q :: q in fs && fs[q] == r.value
    decreases hops
  {
    if p !in fs then (if IsRoot(p) then Some(Dir) else None)
    else match fs[p]
      case Link(t) => if hops == 0 then None else Resolve(env, fs, env.follow(p, t), hops - 1)
      case e => Some(e)
  }

  /** `os.path.getsize`, which follows links.  The lookup gives up after as
      many links as there are entries, which is when the chain has met a link
      twice and so can never end; only the size of a file is modelled. */
  function GetSize(env: Env, fs: FS, p: Path): (r: Result<nat>)
    ensures IsFile(fs, p) ==> r == Size(fs, p)
    ensures !Exists(fs, p) || IsDir(fs, p) ==> r.Err?
    ensures r.Ok? ==> exists q :: q in fs && fs[q].File? && r.value == |fs[q].data|
  {
    var e := Resolve(env, fs, p, |fs|);
    if e.Some? && e.value.File? then Ok(|e.value.data|) else Err(OSError(p))
  }

  /** `md5_for_file`: the digest of the file's bytes; reading anything but a
      file fails. */
  function ReadDigest(env: Env, fs: FS, p: Path): (r: Result<Digest>)
    ensures r.Ok? <==> IsFile(fs, p)
    ensures r.Ok? ==> r.value == env.hash(fs[p].data)
  {
    if IsFile(fs, p) then Ok(env.hash(fs[p].data)) else Err(OSError(p))
  }

  /** `shutil.copy(src, dst)` for a `dst` that is a file name: the bytes the
      device stores for the source's bytes, with the source's mode. */
  function CopyFile(env: Env, fs: FS, src: Path, dst: Path): (r: Result<FS>)
    ensures r.Ok? <==> IsFile(fs, src) && src != dst && ParentIsDir(fs, dst) && (dst in fs ==> fs[dst].File?)
    ensures r.Ok? ==> r.value == fs[dst := File(env.transfer(fs[src].data), fs[src].mode)]
  {
    if !IsFile(fs, src) then Err(OSError(src))
    else if src == dst || !ParentIsDir(fs, dst) || (dst in fs && !fs[dst].File?) then Err(OSError(dst))
    else Ok(fs[dst := File(env.transfer(fs[src].data), fs[src].mode)])
  }

  /** `os.mkdir(name)` inside `os.makedirs(name, exist_ok=True)`: an existing
      directory is accepted, anything else existing is an error. */
  function MakeDir(fs: FS, name: Path): (r: Result<FS>)
    ensures r.Ok? ==> IsDir(r.value, name)
    ensures r.Ok? ==> r.value == fs || (!Exists(fs, name) && r.value == fs[name := Dir])
  {
    if Exists(fs, name) then (if IsDir(fs, name) then Ok(fs) else Err(OSError(name)))
    else if name == [] || !ParentIsDir(fs, name) then Err(OSError(name))
    else Ok(fs[name := Dir])
  }

  /** `getsize` through a link whose target names a file gives that file's size. */
  lemma GetSizeFollows(env: Env, fs: FS, p: Path, q: Path)
    requires p in fs && fs[p].Link? && env.follow(p, fs[p].target) == q && IsFile(fs, q)
    ensures GetSize(env, fs, p) == Ok(|fs[q].data|)
  {
    assert Resolve(env, fs, p, |fs|) == Resolve(env, fs, q, |fs| - 1);
  }

  /** A link made in directory `d` (no trailing separator) under a bare
      `name`, holding `join(relpath(dataD, d), basename(stored))`, leads to
      `stored` when `stored` is the `abspath` spelling of that entry of `dataD`. */
  lemma FlatLinkLeadsTo(cwd: Path, d: Path, name: string, dataD: Path, stored: Path)
    requires (d == [] || d[|d| - 1] != '/') && NoSep(name)
    requires dataD != [] && NormalPart(Basename(RStripSep(stored)))
    requires stored == AbsPath(cwd, Join(dataD, Basename(RStripSep(stored))))
    ensures RelPath(dataD, d, cwd).Some?
    ensures LinkDestination(cwd, Join(d, name), Join(RelPath(dataD, d, cwd).value, Basename(RStripSep(stored))))
            == stored
  {
    var b := Basename(RStripSep(stored));
    RelLinkResolves(cwd, d, dataD, b);
    var target := Join(RelPath(dataD, d, cwd).value, b);
    SplitLinkHead(d, name);
    AbsPathSameParts(cwd, Join(d, target), Join(dataD, b));
  }

  /** `getsize` through a dangling link fails. */
  lemma GetSizeDangling(env: Env, fs: FS, p: Path)
    requires p in fs && fs[p].Link?
    requires var q := env.follow(p, fs[p].target); q !in fs && !IsRoot(q)
    ensures GetSize(env, fs, p).Err?
  {
  }

  /** A new entry keeps every old one and adds exactly its own path. */
  lemma NewEntryKeeps(fs: FS, p: Path, e: Entry)
    requires p !in fs
    ensures forall q :: q in fs ==> q in fs[p := e] && fs[p := e][q] == fs[q]
    ensures fs[p := e].Keys == fs.Keys + {p}
  {
  }

  /** Every entry of `fs` is still in `fs'` unchanged, and `fs'` adds only directories. */
  ghost predicate AddsOnlyDirs(fs: FS, fs': FS) {
    && (forall p :: p in fs ==> p in fs' && fs'[p] == fs[p])
    && (forall p :: p in fs' && p !in fs ==> fs'[p] == Dir)
  }

  lemma AddsOnlyDirsTrans(a: FS, b: FS, c: FS)
    requires AddsOnlyDirs(a, b) && AddsOnlyDirs(b, c)
    ensures AddsOnlyDirs(a, c)
  {
  }

  /** `os.makedirs(name, exist_ok=True)`: first the missing ancestors, then
      `name` itself. */
  function MakeDirs(fs: FS, name: Path): Result<FS>
    decreases |name|
  {
    var (head, tail) := MakeDirsSplit(name);
    if head != [] && tail != [] && !Exists(fs, head) then
      match MakeDirs(fs, head)
      case Err(e) => Err(e)
      case Ok(fs1) =>
        if tail == "." then Ok(fs1)
        else
          match MakeDir(fs1, name)
          case Err(e) => Err(e)
          case Ok(fs2) => Ok(fs2)
    else
      MakeDir(fs, name)
  }

  /** The head and tail `os.makedirs` works with: `split(name)`, split once
      more when the tail is empty (a trailing separator). */
  function MakeDirsSplit(name: Path): (r: (Path, string))
    ensures r.1 != [] ==> |r.0| < |name|
  {
    var (head0, tail0) := Split(name);
    if tail0 == [] then Split(head0) else (head0, tail0)
  }

  /** `os.makedirs` only adds directories. */
  lemma {:induction false} MakeDirsAddsOnlyDirs(fs: FS, name: Path)
    ensures MakeDirs(fs, name).Ok? ==> AddsOnlyDirs(fs, MakeDirs(fs, name).value)
    decreases |name|
  {
    var (head, tail) := MakeDirsSplit(name);
    if head != [] && tail != [] && !Exists(fs, head) {
      var made := MakeDirs(fs, head);
      MakeDirsAddsOnlyDirs(fs, head);
      if made.Ok? && tail != "." {
        var last := MakeDir(made.value, name);
        assert MakeDirs(fs, name) == last;
        if last.Ok? {
          MakeDirAddsOnlyDirs(made.value, name);
          AddsOnlyDirsTrans(fs, made.value, last.value);
        }
      }
    } else {
      assert MakeDirs(fs, name) == MakeDir(fs, name);
      MakeDirAddsOnlyDirs(fs, name);
    }
  }

  lemma MakeDirAddsOnlyDirs(fs: FS, name: Path)
    ensures MakeDir(fs, name).Ok? ==> AddsOnlyDirs(fs, MakeDir(fs, name).value)
  {
  }

  /** After `os.makedirs(name, exist_ok=True)` succeeds, `name` is a
      directory, unless it ends in a "." component whose parent was just made. */
  lemma MakeDirsMakesDir(fs: FS, name: Path)
    requires MakeDirs(fs, name).Ok?
    ensures IsDir(MakeDirs(fs, name).value, name) || MakeDirsSplit(name).1 == "."
  {
  }

  /** `os.unlink(p)`: removes a file or a link; a directory cannot be unlinked. */
  function Unlink(fs: FS, p: Path): (r: Result<FS>)
    ensures r.Ok? <==> p in fs && !fs[p].Dir?
    ensures r.Ok? ==> r.value == fs - {p}
  {
    if p in fs && !fs[p].Dir? then Ok(fs - {p}) else Err(OSError(p))
  }

  /** `os.symlink(target, p)`: a new link entry; `p` must not exist. */
  function Symlink(fs: FS, target: Path, p: Path): (r: Result<FS>)
    ensures r.Ok? <==> !Exists(fs, p) && ParentIsDir(fs, p)
    ensures r.Ok? ==> r.value == fs[p := Link(target)]
  {
    if Exists(fs, p) || !ParentIsDir(fs, p) then Err(OSError(p)) else Ok(fs[p := Link(target)])
  }

  /** `os.chmod(p, mode)` on a file. */
  function Chmod(fs: FS, p: Path, mode: nat): (r: Result<FS>)
    ensures r.Ok? <==> IsFile(fs, p)
    ensures r.Ok? ==> r.value == fs[p := File(fs[p].data, mode)]
  {
    if IsFile(fs, p) then Ok(fs[p := File(fs[p].data, mode)]) else Err(OSError(p))
  }

  /** Replace whatever is at `p` by a link to `target`: `if exists(p): unlink(p)`
      then `symlink(target, p)`. */
  function ReplaceWithLink(fs: FS, target: Path, p: Path): (r: Result<FS>)
    ensures r.Ok? ==> r.value == fs[p := Link(target)]
    ensures r.Ok? <==> ParentIsDir(fs, p) && !IsRoot(p) && (p in fs ==> !fs[p].Dir?)
  {
    if IsRoot(p) then Err(OSError(p))
    else if Exists(fs, p) then
      match Unlink(fs, p)
      case Err(e) => Err(e)
      case Ok(fs1) =>
        assert ParentIsDir(fs1, p) <==> ParentIsDir(fs, p) by { ParentUnaffected(fs, p); }
        match Symlink(fs1, target, p)
        case Err(e) => Err(e)
        case Ok(fs2) => Ok(fs2)
    else Symlink(fs, target, p)
  }

  /** Removing `p` does not remove `p`'s parent directory. */
  lemma ParentUnaffected(fs: FS, p: Path)
    requires p in fs && !fs[p].Dir? && !IsRoot(p)
    ensures ParentIsDir(fs - {p}, p) <==> ParentIsDir(fs, p)
  {
  }

  /** `files_are_identical(a, b)`: sizes first; only when they agree are both
      files read for their digests.  The second component lists the files
      whose digest was computed. */
  function FilesAreIdentical(env: Env, fs: FS, a: Path, b: Path): (r: Result<(bool, seq<Path>)>)
    ensures r.Ok? <==> IsFile(fs, a) && IsFile(fs, b)
    ensures r.Ok? && |fs[a].data| != |fs[b].data| ==> r.value == (false, [])
    ensures r.Ok? && |fs[a].data| == |fs[b].data| ==>
              r.value == (env.hash(fs[a].data) == env.hash(fs[b].data), [a, b])
  {
    match Size(fs, a)
    case Err(e) => Err(e)
    case Ok(sa) =>
      match Size(fs, b)
      case Err(e) => Err(e)
      case Ok(sb) =>
        if sa == sb then
          match ReadDigest(env, fs, a)
          case Err(e) => Err(e)
          case Ok(da) =>
            match ReadDigest(env, fs, b)
            case Err(e) => Err(e)
            case Ok(db) => Ok((da == db, [a, b]))
        else Ok((false, []))
  }

  /** The message `verified_copy_file` raises when the copy does not match. */
  function VerifyMessage(src: Path, dst: Path): string {
    "Verification of copy failed (md5 checksums to not match): " + src + " --> " + dst
  }

  /** The check `verified_copy_file` makes on a fresh copy of bytes `b`:
      equal sizes and equal digests. */
  predicate CopyMatches(env: Env, b: Bytes) {
    |env.transfer(b)| == |b| && env.hash(env.transfer(b)) == env.hash(b)
  }

  /** `verified_copy_file(src, dst)`: copy, then compare the two files; a
      mismatch raises `IOError` naming both paths and leaves the copy in place. */
  function VerifiedCopyFile(env: Env, fs: FS, src: Path, dst: Path): (r: Outcome<()>)
    ensures CopyFile(env, fs, src, dst).Err? ==> r == Outcome(fs, Err(CopyFile(env, fs, src, dst).error))
    ensures CopyFile(env, fs, src, dst).Ok? ==> r.fs == CopyFile(env, fs, src, dst).value
    ensures CopyFile(env, fs, src, dst).Ok? ==>
              r.res == if CopyMatches(env, fs[src].data) then Ok(()) else Err(IOError(VerifyMessage(src, dst)))
  {
    match CopyFile(env, fs, src, dst)
    case Err(e) => Outcome(fs, Err(e))
    case Ok(fs1) => Outcome(fs1, CheckCopy(env, fs1, src, dst, fs[src].data))
  }

  /** The comparison after the copy: `files_are_identical(src, dst)`, and the
      `IOError` when it says no. */
  function CheckCopy(env: Env, fs1: FS, src: Path, dst: Path, b: Bytes): (r: Result<()>)
    requires IsFile(fs1, src) && IsFile(fs1, dst)
    requires fs1[src].data == b && fs1[dst].data == env.transfer(b)
    ensures r == if CopyMatches(env, b) then Ok(()) else Err(IOError(VerifyMessage(src, dst)))
  {
    var same := FilesAreIdentical(env, fs1, src, dst);
    if same.value.0 then Ok(()) else Err(IOError(VerifyMessage(src, dst)))
  }

  /** The file system the engines mutate, and what they take from outside. */
  class FileSystem {
    var entries: FS
    const env: Env

    constructor (entries: FS, env: Env)
      ensures this.entries == entries && this.env == env
    {
      this.entries := entries;
      this.env := env;
    }
  }
}
