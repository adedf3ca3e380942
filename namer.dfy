/** The versioned namer: a stored file gets the name `base.<prefix><v>ext`,
    with `v` the smallest version number from 1 up whose path is not taken,
    written in decimal and left-padded with zeros to `num_digits`. */
module VersionedNamer {
  import opened Paths
  import opened Decimal
  import opened FileSystems

  /** The fixed parts of a versioned name: the directory, the name's stem and
      extension (as `os.path.splitext` cuts them), the prefix and the padding. */
  datatype NameScheme = NameScheme(dir: Path, base: string, prefix: string, digits: int, ext: string)

  /** `base + "." + ver_prefix + str(v).rjust(num_digits, "0") + ext`. */
  function VersionedName(s: NameScheme, v: nat): string {
    s.base + "." + s.prefix + Padded(v, s.digits) + s.ext
  }

  /** `os.path.join(dest_d, <versioned name>)`. */
  function VersionedPath(s: NameScheme, v: nat): Path {
    Join(s.dir, VersionedName(s, v))
  }

  /** The scheme `copy_and_add_ver_num` derives from `dest_p`: split into
      directory and name, then the name into stem and extension. */
  function SchemeFor(destP: Path, prefix: string, digits: int): (s: NameScheme)
    ensures s.base + s.ext == Split(destP).1 && s.dir == Split(destP).0
  {
    var (destD, destN) := Split(destP);
    var (base, ext) := SplitExt(destN);
    NameScheme(destD, base, prefix, digits, ext)
  }

  /** The smallest version from `from` up whose path does not exist, given
      that every version below `from` is taken.  It exists because an
      existing path is a key of the finite map and distinct versions make
      distinct paths. */
  function FreeVersion(fs: FS, s: NameScheme, from: nat): (v: nat)
    requires from >= 1
    requires forall u :: 1 <= u < from ==> Exists(fs, VersionedPath(s, u))
    ensures from <= v
    ensures !Exists(fs, VersionedPath(s, v))
    ensures forall u :: 1 <= u < v ==> Exists(fs, VersionedPath(s, u))
    decreases |fs.Keys| + 1 - from
  {
    if !Exists(fs, VersionedPath(s, from)) then from
    else
      TakenVersionsBounded(fs, s, from);
      TakenVersionsExtend(fs, s, from);
      FreeVersion(fs, s, from + 1)
  }

  /** The path `copy_and_add_ver_num` copies to. */
  function FreePath(fs: FS, s: NameScheme): Path {
    VersionedPath(s, FreeVersion(fs, s, 1))
  }

  /** `copy_and_add_ver_num(source_p, dest_p, ver_prefix, num_digits,
      do_verified_copy)`: copy (verified or plain) to the first free versioned
      path and return that path.  A failing copy raises; a verification
      failure leaves the copy in place. */
  function VersionedCopy(env: Env, fs: FS, sourceP: Path, destP: Path, prefix: string, digits: int, verify: bool)
    : (r: Outcome<Path>)
  {
    CopyTo(env, fs, sourceP, FreePath(fs, SchemeFor(destP, prefix, digits)), verify)
  }

  /** The copy at the end of `copy_and_add_ver_num`, to the chosen path `p`:
      `verified_copy_file(source_p, dest_p)` or `shutil.copy(source_p, dest_p)`,
      then `return dest_p`. */
  function CopyTo(env: Env, fs: FS, sourceP: Path, p: Path, verify: bool): (r: Outcome<Path>)
    ensures r.res.Ok? ==> r.res.value == p
  {
    if verify then
      var out := VerifiedCopyFile(env, fs, sourceP, p);
      match out.res
      case Err(e) => Outcome(out.fs, Err(e))
      case Ok(_) => Outcome(out.fs, Ok(p))
    else
      match CopyFile(env, fs, sourceP, p)
      case Err(e) => Outcome(fs, Err(e))
      case Ok(fs1) => Outcome(fs1, Ok(p))
  }

  /** `copy_and_add_ver_num` on the mutable file system: the `while True`
      loop that probes versions 1, 2, ... until a path is free, then the copy. */
  method CopyAndAddVerNum(fs: FileSystem, sourceP: Path, destP: Path, prefix: string := "v",
                          digits: int := 4, verify: bool := false)
    returns (r: Result<Path>)
    modifies fs
    ensures Outcome(fs.entries, r) == VersionedCopy(fs.env, old(fs.entries), sourceP, destP, prefix, digits, verify)
  {
    var (destD, destN) := Split(destP);
    var (base, ext) := SplitExt(destN);
    var scheme := NameScheme(destD, base, prefix, digits, ext);
    var entries := fs.entries;
    var v := 1;
    while Exists(entries, VersionedPath(scheme, v))
      invariant v >= 1 && fs.entries == entries
      invariant forall u :: 1 <= u < v ==> Exists(entries, VersionedPath(scheme, u))
      invariant FreeVersion(entries, scheme, v) == FreeVersion(entries, scheme, 1)
      decreases |entries.Keys| + 1 - v
    {
      TakenVersionsBounded(entries, scheme, v);
      TakenVersionsExtend(entries, scheme, v);
      v := v + 1;
    }
    var p := VersionedPath(scheme, v);
    assert p == FreePath(entries, SchemeFor(destP, prefix, digits));
    if verify {
      var out := VerifiedCopyFile(fs.env, entries, sourceP, p);
      fs.entries := out.fs;
      if out.res.Err? {
        return Err(out.res.error);
      }
    } else {
      var copied := CopyFile(fs.env, entries, sourceP, p);
      if copied.Err? {
        return Err(copied.error);
      }
      fs.entries := copied.value;
    }
    return Ok(p);
  }

  // ---------------------------------------------------------------------------
  // Lemmas

  /** Distinct versions give distinct names. */
  lemma VersionedNameInjective(s: NameScheme, u: nat, v: nat)
    requires VersionedName(s, u) == VersionedName(s, v)
    ensures u == v
  {
    var x := s.base + "." + s.prefix;
    var nu, nv := VersionedName(s, u), VersionedName(s, v);
    assert nu == x + Padded(u, s.digits) + s.ext;
    assert nv == x + Padded(v, s.digits) + s.ext;
    assert Padded(u, s.digits) == nu[|x|..|nu| - |s.ext|];
    assert Padded(v, s.digits) == nv[|x|..|nv| - |s.ext|];
    PaddedInjective(u, v, s.digits);
  }

  /** Every versioned name starts with the stem, or with the '.' when the stem is empty. */
  lemma VersionedNameHead(s: NameScheme, v: nat)
    ensures VersionedName(s, v) != []
    ensures VersionedName(s, v)[0] == if s.base == [] then '.' else s.base[0]
  {
  }

  /** Joining onto the same directory keeps names apart when both are
      absolute or both are relative. */
  lemma JoinInjective(dir: Path, a: Path, b: Path)
    requires Join(dir, a) == Join(dir, b)
    requires StartsWith(a, "/") == StartsWith(b, "/")
    ensures a == b
  {
    var j := Join(dir, a);
    if !StartsWith(a, "/") {
      if dir == [] || dir[|dir| - 1] == '/' {
        assert a == j[|dir|..] && b == j[|dir|..];
      } else {
        assert a == j[|dir| + 1..] && b == j[|dir| + 1..];
      }
    }
  }

  /** Distinct versions give distinct paths. */
  lemma VersionedPathInjective(s: NameScheme, u: nat, v: nat)
    requires VersionedPath(s, u) == VersionedPath(s, v)
    ensures u == v
  {
    VersionedNameHead(s, u);
    VersionedNameHead(s, v);
    StartsWithSep(VersionedName(s, u));
    StartsWithSep(VersionedName(s, v));
    JoinInjective(s.dir, VersionedName(s, u), VersionedName(s, v));
    VersionedNameInjective(s, u, v);
  }

  /** A versioned path contains a '.', so it is never the root. */
  lemma VersionedPathNotRoot(s: NameScheme, v: nat)
    ensures !IsRoot(VersionedPath(s, v))
  {
    var n := VersionedName(s, v);
    var p := VersionedPath(s, v);
    assert n[|s.base|] == '.';
    assert p[|p| - |n|..] == n;
    assert p[|p| - |n| + |s.base|] == '.';
  }

  /** If versions 1 .. v-1 all name members of `keys`, there are at least v-1 keys. */
  lemma {:induction false} VersionsBounded(keys: set<Path>, s: NameScheme, v: nat)
    requires v >= 1
    requires forall u :: 1 <= u < v ==> VersionedPath(s, u) in keys
    ensures v - 1 <= |keys|
    decreases v
  {
    if v > 1 {
      var last := VersionedPath(s, v - 1);
      var rest := keys - {last};
      forall u | 1 <= u < v - 1
        ensures VersionedPath(s, u) in rest
      {
        if VersionedPath(s, u) == last {
          VersionedPathInjective(s, u, v - 1);
        }
      }
      VersionsBounded(rest, s, v - 1);
    }
  }

  /** All of versions 1 .. v taken means at least v entries. */
  lemma TakenVersionsBounded(fs: FS, s: NameScheme, v: nat)
    requires v >= 1
    requires forall u :: 1 <= u < v ==> Exists(fs, VersionedPath(s, u))
    requires Exists(fs, VersionedPath(s, v))
    ensures v <= |fs.Keys|
  {
    forall u | 1 <= u < v + 1
      ensures VersionedPath(s, u) in fs.Keys
    {
      VersionedPathNotRoot(s, u);
    }
    VersionsBounded(fs.Keys, s, v + 1);
  }

  /** Versions 1 .. v-1 taken and v taken: versions 1 .. v taken. */
  lemma TakenVersionsExtend(fs: FS, s: NameScheme, v: nat)
    requires forall u :: 1 <= u < v ==> Exists(fs, VersionedPath(s, u))
    requires Exists(fs, VersionedPath(s, v))
    ensures forall u :: 1 <= u < v + 1 ==> Exists(fs, VersionedPath(s, u))
  {
  }

  /** The path the namer picks is the least free one: it does not exist and
      every smaller version does. */
  lemma FreePathLeast(fs: FS, s: NameScheme)
    ensures !Exists(fs, FreePath(fs, s))
    ensures forall u :: 1 <= u < FreeVersion(fs, s, 1) ==> Exists(fs, VersionedPath(s, u))
    ensures FreeVersion(fs, s, 1) >= 1
  {
  }

  /** What the copy to a path `p` that does not exist does, in full.  When
      the source is a file and `p`'s directory exists, the copy is stored at
      `p` (the device's bytes, the source's mode) and the call returns `p`,
      or, for a verified copy whose bytes do not match, raises `IOError` with
      the copy left in place; otherwise the copy fails and nothing changes. */
  lemma CopyToEffect(env: Env, fs: FS, sourceP: Path, p: Path, verify: bool)
    requires p !in fs
    ensures var r := CopyTo(env, fs, sourceP, p, verify);
            if IsFile(fs, sourceP) && ParentIsDir(fs, p) then
              && r.fs == fs[p := File(env.transfer(fs[sourceP].data), fs[sourceP].mode)]
              && r.res == if !verify || CopyMatches(env, fs[sourceP].data) then Ok(p)
                          else Err(IOError(VerifyMessage(sourceP, p)))
            else
              r == Outcome(fs, Err(CopyFile(env, fs, sourceP, p).error))
  {
    if IsFile(fs, sourceP) {
      assert sourceP != p;
    }
  }

  /** Copying to `join(data_d, name)` for a plain file name puts the copy
      inside `data_d`. */
  lemma FreePathInDir(fs: FS, dataD: Path, name: string, prefix: string, digits: int)
    requires dataD != [] && dataD[|dataD| - 1] != '/'
    requires NoSep(name)
    ensures StartsWith(FreePath(fs, SchemeFor(Join(dataD, name), prefix, digits)), dataD)
  {
    var s := SchemeFor(Join(dataD, name), prefix, digits);
    assert s.dir == dataD && s.base + s.ext == name by {
      SplitJoin(dataD, name);
    }
    var v := FreeVersion(fs, s, 1);
    VersionedPathInDir(s, v, name);
  }

  /** A versioned path of a scheme whose directory is `s.dir` and whose
      stem and extension make a plain name lies inside `s.dir`. */
  lemma VersionedPathInDir(s: NameScheme, v: nat, name: string)
    requires s.dir != [] && s.dir[|s.dir| - 1] != '/'
    requires s.base + s.ext == name && NoSep(name)
    ensures StartsWith(VersionedPath(s, v), s.dir)
  {
    var n := VersionedName(s, v);
    assert n != [] && n[0] != '/' by {
      VersionedNameHead(s, v);
      if s.base != [] {
        StemHead(s.base, s.ext, name);
      }
    }
    JoinBelow(s.dir, n);
  }

  /** The stem of a plain name does not start with a separator. */
  lemma StemHead(base: string, ext: string, name: string)
    requires base + ext == name && NoSep(name) && base != []
    ensures base[0] != '/'
  {
    assert name[0] == base[0];
  }

  /** Joining a relative name onto a directory stays below it. */
  lemma JoinBelow(d: Path, n: string)
    requires d != [] && d[|d| - 1] != '/'
    requires n != [] && n[0] != '/'
    ensures StartsWith(Join(d, n), d)
  {
    JoinPlain(d, n);
    assert (d + "/" + n)[..|d|] == d;
  }

  /** `copy_and_add_ver_num` never overwrites: it copies to a path that did
      not exist, every entry that existed before is still there unchanged,
      whether the copy succeeds, fails, or fails verification, and a
      successful call adds exactly the returned path. */
  lemma {:induction false} VersionedCopyKeepsEntries(env: Env, fs: FS, sourceP: Path, destP: Path,
                                                     prefix: string, digits: int, verify: bool)
    ensures var r := VersionedCopy(env, fs, sourceP, destP, prefix, digits, verify);
            && FreePath(fs, SchemeFor(destP, prefix, digits)) !in fs
            && (forall q :: q in fs ==> q in r.fs && r.fs[q] == fs[q])
            && (r.res.Ok? ==> r.res.value !in fs && r.fs.Keys == fs.Keys + {r.res.value})
  {
    var s := SchemeFor(destP, prefix, digits);
    var p := FreePath(fs, s);
    VersionedPathNotRoot(s, FreeVersion(fs, s, 1));
    CopyToKeepsEntries(env, fs, sourceP, p, verify);
  }

  lemma CopyToKeepsEntries(env: Env, fs: FS, sourceP: Path, p: Path, verify: bool)
    requires p !in fs
    ensures var r := CopyTo(env, fs, sourceP, p, verify);
            && (forall q :: q in fs ==> q in r.fs && r.fs[q] == fs[q])
            && (r.res.Ok? ==> r.fs.Keys == fs.Keys + {p})
  {
    CopyToEffect(env, fs, sourceP, p, verify);
    if IsFile(fs, sourceP) && ParentIsDir(fs, p) {
      NewEntryKeeps(fs, p, File(env.transfer(fs[sourceP].data), fs[sourceP].mode));
    }
  }
}
