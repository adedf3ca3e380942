/** The older deduplicating store of `src/bvzversionedfiles.py`.  Its
    helpers assert what they need of their arguments, its
    `copy_and_add_ver_num` takes a directory and an optional name, and its
    `copy_files_deduplicated` takes plain source paths, links each one flat
    into the destination directory, indexes the *source* path by its size and
    returns a bare path or a list. */
module LegacyEngine {
  import opened Paths
  import opened FileSystems
  import opened MatchResolver
  import opened VersionedNamer
  import opened DedupEngine

  // ---------------------------------------------------------------------------
  // The helpers

  /** `files_are_identical(a, b)`: both paths must be files (a failing
      `assert` otherwise); sizes are compared first and the files are read for
      their digests only when the sizes agree.  The second component lists the
      files read.  Where both are files it is the newer engine's rule. */
  function LegacyFilesAreIdentical(env: Env, fs: FS, a: Path, b: Path): (r: Result<(bool, seq<Path>)>)
    ensures r.Ok? <==> IsFile(fs, a) && IsFile(fs, b)
    ensures r.Err? ==> r.error == AssertionError
    ensures r.Ok? ==> (r.value.0 <==> |fs[a].data| == |fs[b].data| && env.hash(fs[a].data) == env.hash(fs[b].data))
    ensures r.Ok? ==> r.value.1 == if |fs[a].data| == |fs[b].data| then [a, b] else []
    ensures r.Ok? ==> r == FilesAreIdentical(env, fs, a, b)
  {
    if !Exists(fs, a) || !IsFile(fs, a) || !Exists(fs, b) || !IsFile(fs, b) then Err(AssertionError)
    else if |fs[a].data| == |fs[b].data| then
      var da := Md5ForFile(env, fs, a, true);
      var db := Md5ForFile(env, fs, b, true);
      Ok((da.value == db.value, [a, b]))
    else Ok((false, []))
  }

  /** `verified_copy_file(src, dst)`: the source must be a file and the
      destination's directory a directory, else an `assert` fails; then copy
      and compare, raising `IOError` on a mismatch with the copy left in place. */
  function LegacyVerifiedCopyFile(env: Env, fs: FS, src: Path, dst: Path): (r: Outcome<()>)
    ensures !IsFile(fs, src) || !IsDir(fs, Split(dst).0) ==> r == Outcome(fs, Err(AssertionError))
  {
    var dstD := Split(dst).0;
    if !Exists(fs, src) || !IsFile(fs, src) || !Exists(fs, dstD) || !IsDir(fs, dstD) then
      Outcome(fs, Err(AssertionError))
    else
      match CopyFile(env, fs, src, dst)
      case Err(e) => Outcome(fs, Err(e))
      case Ok(fs1) =>
        match LegacyFilesAreIdentical(env, fs1, src, dst)
        case Err(e) => Outcome(fs1, Err(e))
        case Ok(same) => Outcome(fs1, if same.0 then Ok(()) else Err(IOError(VerifyMessage(src, dst))))
  }

  /** The name the copy is made from: `dest_n`, or the source's own name when
      `dest_n` is `None` or empty (both written `""` here). */
  function DefaultName(sourceP: Path, destN: string): string {
    if destN == "" then Split(sourceP).1 else destN
  }

  /** The versioned names `copy_and_add_ver_num(source_p, dest_d, dest_n, ...)`
      tries: inside `dest_d`, from the stem and extension of the chosen name. */
  function LegacyScheme(sourceP: Path, destD: Path, destN: string, prefix: string, digits: int): (s: NameScheme)
    ensures s.dir == destD && s.base + s.ext == DefaultName(sourceP, destN)
    ensures s.prefix == prefix && s.digits == digits
    ensures destN == "" ==> s.base + s.ext == Basename(sourceP)
  {
    var (base, ext) := SplitExt(DefaultName(sourceP, destN));
    NameScheme(destD, base, prefix, digits, ext)
  }

  /** The copy at the end of `copy_and_add_ver_num`, to the chosen path `p`. */
  function LegacyCopyTo(env: Env, fs: FS, sourceP: Path, p: Path, verify: bool): (r: Outcome<Path>)
    ensures r.res.Ok? ==> r.res.value == p
  {
    if verify then
      var out := LegacyVerifiedCopyFile(env, fs, sourceP, p);
      Outcome(out.fs, if out.res.Err? then Err(out.res.error) else Ok(p))
    else
      match CopyFile(env, fs, sourceP, p)
      case Err(e) => Outcome(fs, Err(e))
      case Ok(fs1) => Outcome(fs1, Ok(p))
  }

  /** `copy_and_add_ver_num(source_p, dest_d, dest_n, ver_prefix, num_digits,
      do_verified_copy)`: the source must be a file and `dest_d` a directory,
      else an `assert` fails; then copy to the first free versioned path. */
  function LegacyVersionedCopy(env: Env, fs: FS, sourceP: Path, destD: Path, destN: string,
                               prefix: string, digits: int, verify: bool): (r: Outcome<Path>)
    ensures !IsFile(fs, sourceP) || !IsDir(fs, destD) ==> r == Outcome(fs, Err(AssertionError))
  {
    if !Exists(fs, sourceP) || !IsFile(fs, sourceP) || !Exists(fs, destD) || !IsDir(fs, destD) then
      Outcome(fs, Err(AssertionError))
    else
      LegacyCopyTo(env, fs, sourceP, FreePath(fs, LegacyScheme(sourceP, destD, destN, prefix, digits)), verify)
  }

  // ---------------------------------------------------------------------------
  // A batch: `copy_files_deduplicated`

  /** `sources_p`: a single path given as a string, or a list of paths. */
  datatype Sources = OnePath(p: Path) | PathList(ps: seq<Path>)

  /** What the call returns: the stored path when there was exactly one
      source, else the stored paths in source order. */
  datatype Returned = StoredPath(path: Path) | StoredPaths(paths: seq<Path>)

  /** The store after the copy loop, and the stored paths so far or the
      error that ended it. */
  datatype Progress = Progress(st: Store, res: Result<seq<Path>>)

  /** The list the loop runs over: a lone string is wrapped. */
  function SourceList(sources: Sources): seq<Path> {
    if sources.OnePath? then [sources.p] else sources.ps
  }

  /** `dest_n` as the loop sees it: `None` and `""` both mean "use the source's name". */
  function NameArg(destN: Option<string>): string {
    if destN.Some? then destN.value else ""
  }

  /** The `assert`s ahead of the loop: `dest_d` does not start with `data_d`,
      both are directories, and `dest_n` comes only with a single source. */
  predicate ArgumentsAccepted(fs: FS, sources: Sources, destD: Path, destN: Option<string>, dataD: Path) {
    && !StartsWith(destD, dataD) && IsDir(fs, dataD) && IsDir(fs, destD)
    && (destN.Some? ==> sources.OnePath? || |sources.ps| == 1)
  }

  /** Every path is a file (the `assert`s on each source before any change). */
  predicate AllFiles(fs: FS, ps: seq<Path>) {
    forall i :: 0 <= i < |ps| ==> IsFile(fs, ps[i])
  }

  /** `if len(output) == 1: return output[0]`, else the list. */
  function ReturnValue(out: seq<Path>): Returned {
    if |out| == 1 then StoredPath(out[0]) else StoredPaths(out)
  }

  /** One turn of the loop: the source's size, the match among the stored
      files of that size (the source is read for its digest whatever the
      bucket holds), a versioned copy into `data_d` on a miss, then the mode,
      the link and the index. */
  function LegacyStep(env: Env, st: Store, sourceP: Path, destD: Path, destN: string, cfg: Settings,
                      rel: Option<Path>): Step
  {
    match Size(st.fs, sourceP)
    case Err(e) => Step(st, Err(e))
    case Ok(_) =>
      var scan := LegacyResolvedMatch(env, st.fs, st.sizes, st.cache, sourceP);
      match scan.res
      case Err(e) => Step(Store(st.fs, st.sizes, scan.cache), Err(e))
      case Ok(m) => LegacyStoreAndLink(env, Store(st.fs, st.sizes, scan.cache), sourceP, destD, DefaultName(sourceP, destN), m, cfg, rel)
  }

  /** The stored file to link to: the match, or a versioned copy of the
      source in `data_d` named `destination_name`. */
  function LegacyStoreData(env: Env, fs: FS, sourceP: Path, name: string, m: Option<Path>, cfg: Settings): Outcome<Path> {
    if m.Some? then Outcome(fs, Ok(m.value))
    else LegacyVersionedCopy(env, fs, sourceP, cfg.dataD, name, cfg.prefix, cfg.digits, cfg.verify)
  }

  /** After the match is resolved: store unless found, then mode, link and index. */
  function LegacyStoreAndLink(env: Env, st: Store, sourceP: Path, destD: Path, name: string, m: Option<Path>,
                              cfg: Settings, rel: Option<Path>): Step
  {
    var stored := LegacyStoreData(env, st.fs, sourceP, name, m, cfg);
    match stored.res
    case Err(e) => Step(Store(stored.fs, st.sizes, st.cache), Err(e))
    case Ok(matched) => LegacyLinkAndIndex(env, Store(stored.fs, st.sizes, st.cache), sourceP, matched, destD, name, rel)
  }

  /** The end of the loop body: `chmod(matched_p, 0o644)`; a link at
      `join(dest_d.rstrip('/'), destination_name)` whose text is
      `join(relpath(data_d, dest_d), basename(matched_p))`, replacing what was
      there; and the *source* path added to the size index. */
  function LegacyLinkAndIndex(env: Env, st: Store, sourceP: Path, matched: Path, destD: Path, name: string,
                              rel: Option<Path>): Step
  {
    match Chmod(st.fs, matched, ModeRwRR)
    case Err(e) => Step(st, Err(e))
    case Ok(fs1) => LegacyFlatLink(env, Store(fs1, st.sizes, st.cache), sourceP, matched, destD, name, rel)
  }

  /** After the mode: the flat link and the index update; `rel` is
      `relpath(data_d, dest_d)` (see `LegacyRelDir`).  The size is taken
      after the link is made, so where the link replaced the source itself
      `getsize` follows it. */
  function LegacyFlatLink(env: Env, st: Store, sourceP: Path, matched: Path, destD: Path, name: string,
                          rel: Option<Path>): Step
  {
    var d := RStripSep(destD);
    match rel
    case None => Step(st, Err(ValueError(NoPathMessage())))
    case Some(relD) =>
      match ReplaceWithLink(st.fs, Join(relD, Basename(RStripSep(matched))), Join(d, name))
      case Err(e) => Step(st, Err(e))
      case Ok(fs2) =>
        match GetSize(env, fs2, sourceP)
        case Err(e) => Step(Store(fs2, st.sizes, st.cache), Err(e))
        case Ok(n) => Step(Store(fs2, st.sizes[n := Bucket(st.sizes, n) + [sourceP]], st.cache), Ok(matched))
  }

  /** `relpath(data_d, dest_d)` after `dest_d = dest_d.rstrip('/')`.  The
      loop body computes it on every turn; since the strip is idempotent and
      neither directory changes, it is the same value each time, worked out
      here once per batch. */
  function LegacyRelDir(env: Env, destD: Path, dataD: Path): Option<Path> {
    RelPath(dataD, RStripSep(destD), env.cwd)
  }

  /** A loop that runs `step` on each source in turn, appending what it
      returns to `out` and stopping at the first error: on success there is
      exactly one stored path per source, after those already output. */
  function RunSteps(step: (Store, Path) -> Step, st: Store, srcs: seq<Path>, out: seq<Path>): (r: Progress)
    ensures r.res.Ok? ==> |r.res.value| == |out| + |srcs| && r.res.value[..|out|] == out
    decreases |srcs|
  {
    if srcs == [] then Progress(st, Ok(out))
    else
      var s := step(st, srcs[0]);
      match s.res
      case Err(e) => Progress(s.st, Err(e))
      case Ok(p) =>
        var r := RunSteps(step, s.st, srcs[1..], out + [p]);
        assert r.res.Ok? ==> r.res.value[..|out|] == (out + [p])[..|out|];
        r
  }

  /** The copy loop from source `srcs[0]` on, with the stored paths `out` so far. */
  function LegacyRun(env: Env, st: Store, srcs: seq<Path>, destD: Path, destN: string, cfg: Settings,
                     rel: Option<Path>, out: seq<Path>): Progress
  {
    RunSteps((s: Store, p: Path) => LegacyStep(env, s, p, destD, destN, cfg, rel), st, srcs, out)
  }

  /** `copy_files_deduplicated(sources_p, dest_d, data_d, dest_n, ...)`, with
      `index` standing for `dir_files_keyed_by_size(data_d)`.  Every check is
      an `assert` made before any change; the `ValueError` the code raises for
      a `dest_d` inside `data_d` comes after the `assert` on the same
      condition and so is never reached. */
  function LegacyBatch(env: Env, fs: FS, sources: Sources, destD: Path, index: SizeIndex, destN: Option<string>,
                       cfg: Settings): (r: Outcome<Returned>)
    ensures !ArgumentsAccepted(fs, sources, destD, destN, cfg.dataD) ==> r == Outcome(fs, Err(AssertionError))
    ensures !AllFiles(fs, SourceList(sources)) ==> r == Outcome(fs, Err(AssertionError))
  {
    if !ArgumentsAccepted(fs, sources, destD, destN, cfg.dataD) then Outcome(fs, Err(AssertionError))
    else if !AllFiles(fs, SourceList(sources)) then Outcome(fs, Err(AssertionError))
    else
      var run := LegacyRun(env, Store(fs, index, map[]), SourceList(sources), destD, NameArg(destN), cfg,
                           LegacyRelDir(env, destD, cfg.dataD), []);
      match run.res
      case Err(e) => Outcome(run.st.fs, Err(e))
      case Ok(out) => Outcome(run.st.fs, Ok(ReturnValue(out)))
  }

  // ---------------------------------------------------------------------------
  // The engine on the mutable file system

  /** `copy_and_add_ver_num` on the file system: the `assert`s, the name, the
      `while True` loop probing versions 1, 2, ... and the copy. */
  method LegacyCopyAndAddVerNum(fs: FileSystem, sourceP: Path, destD: Path, destN: string := "",
                                prefix: string := "v", digits: int := 4, verify: bool := false)
    returns (r: Result<Path>)
    modifies fs
    ensures Outcome(fs.entries, r) == LegacyVersionedCopy(fs.env, old(fs.entries), sourceP, destD, destN, prefix, digits, verify)
  {
    var entries := fs.entries;
    if !Exists(entries, sourceP) || !IsFile(entries, sourceP) || !Exists(entries, destD) || !IsDir(entries, destD) {
      return Err(AssertionError);
    }
    var name := destN;
    if name == "" {
      name := Split(sourceP).1;
    }
    var (base, ext) := SplitExt(name);
    var scheme := NameScheme(destD, base, prefix, digits, ext);
    var v := 1;
    while Exists(entries, VersionedPath(scheme, v))
      invariant v >= 1 && fs.entries == entries
      invariant forall u :: 1 <= u < v ==> Exists(entries, VersionedPath(scheme, u))
      invariant FreeVersion(entries, scheme, v) == FreeVersion(entries, scheme, 1)
      decreases |entries.Keys| + 1 - v
    {
      TakenVersionsBounded(entries, scheme, v);
      TakenVersionsExtend(entries, scheme, v);
      v := v + 1;
    }
    var p := VersionedPath(scheme, v);
    assert p == FreePath(entries, LegacyScheme(sourceP, destD, destN, prefix, digits));
    if verify {
      var out := LegacyVerifiedCopyFile(fs.env, entries, sourceP, p);
      fs.entries := out.fs;
      if out.res.Err? {
        return Err(out.res.error);
      }
    } else {
      var copied := CopyFile(fs.env, entries, sourceP, p);
      if copied.Err? {
        return Err(copied.error);
      }
      fs.entries := copied.value;
    }
    return Ok(p);
  }

  /** The loop of `assert`s on every source, before any change. */
  method LegacyCheckSources(fs: FS, srcs: seq<Path>) returns (ok: bool)
    ensures ok == AllFiles(fs, srcs)
  {
    for k := 0 to |srcs|
      invariant forall j :: 0 <= j < k ==> IsFile(fs, srcs[j])
    {
      if !Exists(fs, srcs[k]) || !IsFile(fs, srcs[k]) {
        return false;
      }
    }
    return true;
  }

  /** The size lookup and candidate loop: the source's digest is taken first,
      then the candidates of its size are scanned on the batch's cache. */
  method LegacyResolveMatch(fs: FileSystem, batch: BatchState, sourceP: Path) returns (matched: Result<Option<Path>>)
    requires IsFile(fs.entries, sourceP)
    modifies batch
    ensures var scan := LegacyResolvedMatch(fs.env, fs.entries, old(batch.sizes), old(batch.md5), sourceP);
            matched == scan.res && batch.md5 == scan.cache && batch.sizes == old(batch.sizes)
  {
    var possibleMatches := Bucket(batch.sizes, |fs.entries[sourceP].data|);
    var sourceMd5 := Md5ForFile(fs.env, fs.entries, sourceP, true);
    ghost var hashed;
    matched, hashed := FindMatch(fs, batch, possibleMatches, sourceMd5.value, true);
  }

  /** The mode, the link and the index update at the end of the loop body. */
  method LegacyLinkAndAddToIndex(fs: FileSystem, batch: BatchState, sourceP: Path, matched: Path, destD: Path,
                                 name: string, relativeD: Option<Path>)
    returns (r: Result<Path>)
    modifies fs, batch
    ensures Step(Store(fs.entries, batch.sizes, batch.md5), r)
            == LegacyLinkAndIndex(fs.env, Store(old(fs.entries), old(batch.sizes), old(batch.md5)), sourceP, matched,
                                  destD, name, relativeD)
  {
    var moded := Chmod(fs.entries, matched, ModeRwRR);
    if moded.Err? {
      return Err(moded.error);
    }
    fs.entries := moded.value;
    r := LegacyLinkFlat(fs, batch, sourceP, matched, destD, name, relativeD);
  }

  /** The flat link at `join(dest_d.rstrip('/'), destination_name)` and the
      source path added to the size index. */
  method LegacyLinkFlat(fs: FileSystem, batch: BatchState, sourceP: Path, matched: Path, destD: Path,
                        name: string, relativeD: Option<Path>)
    returns (r: Result<Path>)
    modifies fs, batch
    ensures Step(Store(fs.entries, batch.sizes, batch.md5), r)
            == LegacyFlatLink(fs.env, Store(old(fs.entries), old(batch.sizes), old(batch.md5)), sourceP, matched,
                              destD, name, relativeD)
  {
    var d := RStripSep(destD);
    var matchedName := Split(RStripSep(matched)).1;
    if relativeD.None? {
      return Err(ValueError(NoPathMessage()));
    }
    var linked := ReplaceWithLink(fs.entries, Join(relativeD.value, matchedName), Join(d, name));
    if linked.Err? {
      return Err(linked.error);
    }
    fs.entries := linked.value;
    var size := GetSize(fs.env, linked.value, sourceP);
    if size.Err? {
      return Err(size.error);
    }
    batch.sizes := batch.sizes[size.value := Bucket(batch.sizes, size.value) + [sourceP]];
    return Ok(matched);
  }

  /** One turn of the loop on the file system and the batch's index and cache. */
  method LegacyCopyOne(fs: FileSystem, batch: BatchState, sourceP: Path, destD: Path, destN: string, cfg: Settings,
                       relativeD: Option<Path>)
    returns (r: Result<Path>)
    modifies fs, batch
    ensures Step(Store(fs.entries, batch.sizes, batch.md5), r)
            == LegacyStep(fs.env, Store(old(fs.entries), old(batch.sizes), old(batch.md5)), sourceP, destD, destN, cfg,
                          relativeD)
  {
    var size := Size(fs.entries, sourceP);
    if size.Err? {
      return Err(size.error);
    }
    var name := DefaultName(sourceP, destN);
    var found := LegacyResolveMatch(fs, batch, sourceP);
    if found.Err? {
      return Err(found.error);
    }
    var matched: Path;
    if found.value.None? {
      var copied := LegacyCopyAndAddVerNum(fs, sourceP, cfg.dataD, name, cfg.prefix, cfg.digits, cfg.verify);
      if copied.Err? {
        return Err(copied.error);
      }
      matched := copied.value;
    } else {
      matched := found.value.value;
    }
    r := LegacyLinkAndAddToIndex(fs, batch, sourceP, matched, destD, name, relativeD);
  }

  /** The copy loop over the sources, on a fresh index and cache, appending
      each stored path to `output`. */
  method LegacyRunBatch(fs: FileSystem, srcs: seq<Path>, destD: Path, index: SizeIndex, destN: string, cfg: Settings,
                        relativeD: Option<Path>)
    returns (r: Result<seq<Path>>)
    modifies fs
    ensures var run := LegacyRun(fs.env, Store(old(fs.entries), index, map[]), srcs, destD, destN, cfg, relativeD, []);
            fs.entries == run.st.fs && r == run.res
  {
    ghost var goal := LegacyRun(fs.env, Store(fs.entries, index, map[]), srcs, destD, destN, cfg, relativeD, []);
    var output: seq<Path> := [];
    var batch := new BatchState(index);
    var i := 0;
    while i < |srcs|
      invariant 0 <= i <= |srcs|
      invariant goal == LegacyRun(fs.env, Store(fs.entries, batch.sizes, batch.md5), srcs[i..], destD, destN, cfg,
                                  relativeD, output)
    {
      assert srcs[i..][0] == srcs[i] && srcs[i..][1..] == srcs[i + 1..];
      var p := LegacyCopyOne(fs, batch, srcs[i], destD, destN, cfg, relativeD);
      if p.Err? {
        return Err(p.error);
      }
      output := output + [p.value];
      i := i + 1;
    }
    return Ok(output);
  }

  /** `copy_files_deduplicated` of the older engine on the file system. */
  method LegacyCopyFilesDeduplicated(fs: FileSystem, sources: Sources, destD: Path, index: SizeIndex,
                                     destN: Option<string>, cfg: Settings)
    returns (r: Result<Returned>)
    modifies fs
    ensures Outcome(fs.entries, r) == LegacyBatch(fs.env, old(fs.entries), sources, destD, index, destN, cfg)
  {
    var entries := fs.entries;
    if StartsWith(destD, cfg.dataD) || !Exists(entries, cfg.dataD) || !IsDir(entries, cfg.dataD)
       || !Exists(entries, destD) || !IsDir(entries, destD)
    {
      return Err(AssertionError);
    }
    if destN.Some? && !(sources.OnePath? || |sources.ps| == 1) {
      return Err(AssertionError);
    }
    assert ArgumentsAccepted(entries, sources, destD, destN, cfg.dataD);
    var srcs := if sources.PathList? then sources.ps else [sources.p];
    assert srcs == SourceList(sources);
    var ok := LegacyCheckSources(entries, srcs);
    if !ok {
      return Err(AssertionError);
    }
    var nameArg := if destN.Some? then destN.value else "";
    assert nameArg == NameArg(destN);
    var relativeD := RelPath(cfg.dataD, RStripSep(destD), fs.env.cwd);
    assert relativeD == LegacyRelDir(fs.env, destD, cfg.dataD);
    ghost var run := LegacyRun(fs.env, Store(entries, index, map[]), srcs, destD, nameArg, cfg, relativeD, []);
    assert LegacyBatch(fs.env, entries, sources, destD, index, destN, cfg)
           == if run.res.Err? then Outcome(run.st.fs, Err(run.res.error)) else Outcome(run.st.fs, Ok(ReturnValue(run.res.value)));
    var output := LegacyRunBatch(fs, srcs, destD, index, nameArg, cfg, relativeD);
    if output.Err? {
      return Err(output.error);
    }
    if |output.value| == 1 {
      return Ok(StoredPath(output.value[0]));
    }
    return Ok(StoredPaths(output.value));
  }

  // ---------------------------------------------------------------------------
  // Lemmas

  /** A verified copy to a new path `dst` whose directory exists stores the
      device's bytes there with the source's mode, and raises `IOError` exactly
      when the copy's size or digest differs from the source's. */
  lemma LegacyVerifiedCopyEffect(env: Env, fs: FS, src: Path, dst: Path)
    requires IsFile(fs, src) && IsDir(fs, Split(dst).0) && dst !in fs
    ensures var r := LegacyVerifiedCopyFile(env, fs, src, dst);
            && r.fs == fs[dst := File(env.transfer(fs[src].data), fs[src].mode)]
            && r.res == if CopyMatches(env, fs[src].data) then Ok(()) else Err(IOError(VerifyMessage(src, dst)))
  {
    var b := fs[src].data;
    var fs1 := fs[dst := File(env.transfer(b), fs[src].mode)];
    assert CopyFile(env, fs, src, dst) == Ok(fs1) by {
      assert src != dst && ParentIsDir(fs, dst);
    }
    SameAfterCopy(env, fs1, src, dst, b);
  }

  /** After a copy the older comparison sees the source's bytes and the
      device's bytes, and says yes exactly when their sizes and digests agree. */
  lemma SameAfterCopy(env: Env, fs1: FS, src: Path, dst: Path, b: Bytes)
    requires IsFile(fs1, src) && IsFile(fs1, dst) && fs1[src].data == b && fs1[dst].data == env.transfer(b)
    ensures LegacyFilesAreIdentical(env, fs1, src, dst).Ok?
    ensures LegacyFilesAreIdentical(env, fs1, src, dst).value.0 == CopyMatches(env, b)
  {
  }

  /** The copy to a new path `p`: on success `p` holds the device's bytes of
      the source with its mode; whatever happens, nothing else changes. */
  lemma LegacyCopyToEffect(env: Env, fs: FS, sourceP: Path, p: Path, verify: bool)
    requires IsFile(fs, sourceP) && p !in fs
    ensures var r := LegacyCopyTo(env, fs, sourceP, p, verify);
            var copy := fs[p := File(env.transfer(fs[sourceP].data), fs[sourceP].mode)];
            && (r.fs == fs || r.fs == copy)
            && (r.res.Ok? ==> r.fs == copy && (!verify || CopyMatches(env, fs[sourceP].data)))
            && (!verify ==> (r.res.Ok? <==> ParentIsDir(fs, p)))
  {
    if verify {
      if IsDir(fs, Split(p).0) {
        LegacyVerifiedCopyEffect(env, fs, sourceP, p);
      }
    } else {
      assert sourceP != p;
    }
  }

  /** `copy_and_add_ver_num` of the older engine picks the least free
      versioned path, never overwrites, and on success has stored the
      device's bytes of the source there; a plain copy succeeds exactly when
      the path's directory exists. */
  lemma LegacyVersionedCopyEffect(env: Env, fs: FS, sourceP: Path, destD: Path, destN: string,
                                  prefix: string, digits: int, verify: bool)
    requires IsFile(fs, sourceP) && IsDir(fs, destD)
    ensures var s := LegacyScheme(sourceP, destD, destN, prefix, digits);
            var p := FreePath(fs, s);
            var r := LegacyVersionedCopy(env, fs, sourceP, destD, destN, prefix, digits, verify);
            var copy := fs[p := File(env.transfer(fs[sourceP].data), fs[sourceP].mode)];
            && !Exists(fs, p)
            && (forall u :: 1 <= u < FreeVersion(fs, s, 1) ==> Exists(fs, VersionedPath(s, u)))
            && (r.fs == fs || r.fs == copy)
            && (r.res.Ok? ==> r.res.value == p && r.fs == copy && (!verify || CopyMatches(env, fs[sourceP].data)))
            && (!verify ==> (r.res.Ok? <==> ParentIsDir(fs, p)))
  {
    var s := LegacyScheme(sourceP, destD, destN, prefix, digits);
    var p := FreePath(fs, s);
    FreePathLeast(fs, s);
    assert LegacyVersionedCopy(env, fs, sourceP, destD, destN, prefix, digits, verify)
           == LegacyCopyTo(env, fs, sourceP, p, verify);
    LegacyCopyToEffect(env, fs, sourceP, p, verify);
  }

  /** For a directory written without a trailing separator and a plain name,
      the older engine's names are the newer engine's names for
      `join(dest_d, name)`. */
  lemma LegacySchemeAgrees(sourceP: Path, destD: Path, destN: string, prefix: string, digits: int)
    requires destD != [] && destD[|destD| - 1] != '/'
    requires NoSep(DefaultName(sourceP, destN))
    ensures LegacyScheme(sourceP, destD, destN, prefix, digits)
            == SchemeFor(Join(destD, DefaultName(sourceP, destN)), prefix, digits)
  {
    SplitJoin(destD, DefaultName(sourceP, destN));
  }

  /** On a miss the copy goes inside `data_d` when the name is plain, as it
      is when no `dest_n` is given. */
  lemma LegacyCopyInDir(fs: FS, sourceP: Path, dataD: Path, destN: string, prefix: string, digits: int)
    requires dataD != [] && dataD[|dataD| - 1] != '/'
    requires NoSep(DefaultName(sourceP, destN))
    ensures StartsWith(FreePath(fs, LegacyScheme(sourceP, dataD, destN, prefix, digits)), dataD)
  {
    var s := LegacyScheme(sourceP, dataD, destN, prefix, digits);
    VersionedPathInDir(s, FreeVersion(fs, s, 1), DefaultName(sourceP, destN));
  }

  /** A versioned name is never the bare name it was made from. */
  lemma StoredNameDiffers(s: NameScheme, v: nat)
    ensures VersionedName(s, v) != s.base + s.ext
  {
    assert |VersionedName(s, v)| > |s.base + s.ext|;
  }

  /** The end of the loop body: on success the resolved file had its mode
      set to 0o644, then the flat link `join(dest_d.rstrip('/'),
      destination_name)` was made (replacing what was there) holding
      `join(relpath(data_d, dest_d), basename(matched_p))`, and the source
      path was appended to the list of the size `getsize` then gives for it:
      its own size unless the link replaced it; on failure the index is as
      it was. */
  lemma LegacyLinkEffect(env: Env, st: Store, sourceP: Path, matched: Path, destD: Path, name: string,
                         rel: Option<Path>)
    requires IsFile(st.fs, sourceP)
    ensures var s := LegacyLinkAndIndex(env, st, sourceP, matched, destD, name, rel);
            var d := RStripSep(destD);
            var size := GetSize(env, s.st.fs, sourceP);
            && s.st.cache == st.cache
            && (s.res.Err? ==> s.st.sizes == st.sizes)
            && (s.res.Ok? ==>
                  && s.res.value == matched && IsFile(st.fs, matched) && rel.Some?
                  && s.st.fs == st.fs[matched := File(st.fs[matched].data, ModeRwRR)]
                                     [Join(d, name) := Link(Join(rel.value, Basename(RStripSep(matched))))]
                  && size.Ok? && s.st.sizes == st.sizes[size.value := Bucket(st.sizes, size.value) + [sourceP]]
                  && (Join(d, name) != sourceP ==> size.value == |st.fs[sourceP].data|))
  {
    var ch := Chmod(st.fs, matched, ModeRwRR);
    if ch.Ok? {
      assert ch.value[sourceP].data == st.fs[sourceP].data;
      LegacyFlatLinkEffect(env, Store(ch.value, st.sizes, st.cache), sourceP, matched, destD, name, rel);
    }
  }

  /** The flat link and the index update after the mode is set. */
  lemma LegacyFlatLinkEffect(env: Env, st: Store, sourceP: Path, matched: Path, destD: Path, name: string,
                             rel: Option<Path>)
    requires IsFile(st.fs, sourceP)
    ensures var s := LegacyFlatLink(env, st, sourceP, matched, destD, name, rel);
            var d := RStripSep(destD);
            var size := GetSize(env, s.st.fs, sourceP);
            && s.st.cache == st.cache
            && (s.res.Err? ==> s.st.sizes == st.sizes)
            && (s.res.Ok? ==>
                  && s.res.value == matched && rel.Some?
                  && s.st.fs == st.fs[Join(d, name) := Link(Join(rel.value, Basename(RStripSep(matched))))]
                  && size.Ok? && s.st.sizes == st.sizes[size.value := Bucket(st.sizes, size.value) + [sourceP]]
                  && (Join(d, name) != sourceP ==> size.value == |st.fs[sourceP].data|))
  {
    if rel.Some? {
      var linkP := Join(RStripSep(destD), name);
      var ln := ReplaceWithLink(st.fs, Join(rel.value, Basename(RStripSep(matched))), linkP);
      if ln.Ok? && linkP != sourceP {
        assert ln.value[sourceP] == st.fs[sourceP];
      }
    }
  }

  /** The link replaces the source itself (the source lies in `dest_d` under
      `destination_name`): when the stored file is spelled as `abspath`
      spells the entry of its base name in `data_d`, `getsize` of the source
      path follows the new link to the stored file, and it is that file's
      size the source path is indexed under. */
  lemma LegacyLinkOverSource(env: Env, st: Store, sourceP: Path, matched: Path, destD: Path, name: string,
                             dataD: Path)
    requires IsFile(st.fs, sourceP) && ParentIsDir(st.fs, sourceP)
    requires IsFile(st.fs, matched) && matched != sourceP
    requires name != [] && NoSep(name) && sourceP == Join(RStripSep(destD), name)
    requires dataD != [] && NormalPart(Basename(RStripSep(matched)))
    requires LexicalLinks(env) && matched == AbsPath(env.cwd, Join(dataD, Basename(RStripSep(matched))))
    ensures var s := LegacyLinkAndIndex(env, st, sourceP, matched, destD, name, LegacyRelDir(env, destD, dataD));
            var n := |st.fs[matched].data|;
            s.res == Ok(matched) && s.st.sizes == st.sizes[n := Bucket(st.sizes, n) + [sourceP]]
  {
    FlatLinkLeadsTo(env.cwd, RStripSep(destD), name, dataD, matched);
    LegacyLinkLeadsTo(env, st, sourceP, matched, destD, name, LegacyRelDir(env, destD, dataD));
  }

  /** The mode, the link over the source and the index, once the link's text
      is known to lead to the stored file. */
  lemma LegacyLinkLeadsTo(env: Env, st: Store, sourceP: Path, matched: Path, destD: Path, name: string,
                          rel: Option<Path>)
    requires IsFile(st.fs, sourceP) && ParentIsDir(st.fs, sourceP)
    requires IsFile(st.fs, matched) && matched != sourceP
    requires name != [] && NoSep(name) && sourceP == Join(RStripSep(destD), name)
    requires rel.Some? && env.follow(sourceP, Join(rel.value, Basename(RStripSep(matched)))) == matched
    ensures var s := LegacyLinkAndIndex(env, st, sourceP, matched, destD, name, rel);
            var n := |st.fs[matched].data|;
            s.res == Ok(matched) && s.st.sizes == st.sizes[n := Bucket(st.sizes, n) + [sourceP]]
  {
    var fs1 := st.fs[matched := File(st.fs[matched].data, ModeRwRR)];
    assert ParentIsDir(fs1, sourceP);
    JoinNamed(RStripSep(destD), name);
    assert Chmod(st.fs, matched, ModeRwRR) == Ok(fs1);
    assert LegacyLinkAndIndex(env, st, sourceP, matched, destD, name, rel)
           == LegacyFlatLink(env, Store(fs1, st.sizes, st.cache), sourceP, matched, destD, name, rel);
    LegacyFlatLinkFollows(env, Store(fs1, st.sizes, st.cache), sourceP, matched, destD, name, rel);
  }

  /** The flat link over the source, once its text is known to lead to the
      stored file. */
  lemma LegacyFlatLinkFollows(env: Env, st: Store, sourceP: Path, matched: Path, destD: Path, name: string,
                              rel: Option<Path>)
    requires rel.Some? && sourceP == Join(RStripSep(destD), name)
    requires IsFile(st.fs, sourceP) && ParentIsDir(st.fs, sourceP) && !IsRoot(sourceP)
    requires IsFile(st.fs, matched) && matched != sourceP
    requires env.follow(sourceP, Join(rel.value, Basename(RStripSep(matched)))) == matched
    ensures var n := |st.fs[matched].data|;
            LegacyFlatLink(env, st, sourceP, matched, destD, name, rel)
            == Step(Store(st.fs[sourceP := Link(Join(rel.value, Basename(RStripSep(matched))))],
                          st.sizes[n := Bucket(st.sizes, n) + [sourceP]], st.cache), Ok(matched))
  {
    var target := Join(rel.value, Basename(RStripSep(matched)));
    var fs2 := st.fs[sourceP := Link(target)];
    assert ReplaceWithLink(st.fs, target, Join(RStripSep(destD), name)) == Ok(fs2);
    GetSizeFollows(env, fs2, sourceP, matched);
  }

  /** A map that is `fs` or `fs` with a new key keeps every entry of `fs`. */
  lemma AddKeeps(fs: FS, fs': FS, p: Path, e: Entry)
    requires p !in fs && (fs' == fs || fs' == fs[p := e])
    ensures forall q :: q in fs ==> q in fs' && fs'[q] == fs[q]
  {
  }

  /** The stored file to link to: the match itself, or on a miss the least
      free versioned path in `data_d`, new; no entry is changed on the way. */
  lemma LegacyStoreEffect(env: Env, fs: FS, sourceP: Path, name: string, m: Option<Path>, cfg: Settings)
    requires IsFile(fs, sourceP)
    ensures var r := LegacyStoreData(env, fs, sourceP, name, m, cfg);
            && (m.Some? ==> r == Outcome(fs, Ok(m.value)))
            && (m.None? && r.res.Ok? ==>
                  r.res.value == FreePath(fs, LegacyScheme(sourceP, cfg.dataD, name, cfg.prefix, cfg.digits))
                  && r.res.value !in fs)
            && (forall q :: q in fs ==> q in r.fs && r.fs[q] == fs[q])
  {
    if m.None? {
      var r := LegacyStoreData(env, fs, sourceP, name, m, cfg);
      assert r == LegacyVersionedCopy(env, fs, sourceP, cfg.dataD, name, cfg.prefix, cfg.digits, cfg.verify);
      if IsDir(fs, cfg.dataD) {
        LegacyVersionedCopyEffect(env, fs, sourceP, cfg.dataD, name, cfg.prefix, cfg.digits, cfg.verify);
        var p := FreePath(fs, LegacyScheme(sourceP, cfg.dataD, name, cfg.prefix, cfg.digits));
        AddKeeps(fs, r.fs, p, File(env.transfer(fs[sourceP].data), fs[sourceP].mode));
      }
    }
  }

  /** Storing and linking: the stored path is the match or the new copy,
      and the source path joins the list of its size. */
  lemma LegacyStoreAndLinkEffect(env: Env, st: Store, sourceP: Path, destD: Path, name: string, m: Option<Path>,
                                 cfg: Settings, rel: Option<Path>)
    requires IsFile(st.fs, sourceP)
    ensures var s := LegacyStoreAndLink(env, st, sourceP, destD, name, m, cfg, rel);
            var n := |st.fs[sourceP].data|;
            var size := GetSize(env, s.st.fs, sourceP);
            s.res.Ok? ==>
              && s.res.value == (if m.Some? then m.value
                                 else FreePath(st.fs, LegacyScheme(sourceP, cfg.dataD, name, cfg.prefix, cfg.digits)))
              && size.Ok? && s.st.sizes == st.sizes[size.value := Bucket(st.sizes, size.value) + [sourceP]]
              && (Join(RStripSep(destD), name) != sourceP ==> size.value == n)
  {
    var stored := LegacyStoreData(env, st.fs, sourceP, name, m, cfg);
    LegacyStoreEffect(env, st.fs, sourceP, name, m, cfg);
    if stored.res.Ok? {
      assert IsFile(stored.fs, sourceP) && stored.fs[sourceP] == st.fs[sourceP];
      LegacyLinkEffect(env, Store(stored.fs, st.sizes, st.cache), sourceP, stored.res.value, destD, name, rel);
    }
  }

  /** One turn of the older loop, on a consistent cache: the stored path is
      the first stored file of the source's size with its digest, or a new
      versioned copy in `data_d` when there is none; and it is the source
      path, not the stored path, that is added to the size index. */
  lemma LegacyStepEffect(env: Env, st: Store, sourceP: Path, destD: Path, destN: string, cfg: Settings,
                         rel: Option<Path>)
    requires IsFile(st.fs, sourceP) && Consistent(env, st.fs, st.cache)
    ensures var s := LegacyStep(env, st, sourceP, destD, destN, cfg, rel);
            var n := |st.fs[sourceP].data|;
            var hit := FirstMatch(env, st.fs, Bucket(st.sizes, n), env.hash(st.fs[sourceP].data), true);
            var size := GetSize(env, s.st.fs, sourceP);
            s.res.Ok? ==>
              && hit.Ok?
              && s.res.value == (if hit.value.Some? then hit.value.value
                                 else FreePath(st.fs, LegacyScheme(sourceP, cfg.dataD, DefaultName(sourceP, destN),
                                                                   cfg.prefix, cfg.digits)))
              && size.Ok? && s.st.sizes == st.sizes[size.value := Bucket(st.sizes, size.value) + [sourceP]]
              && (Join(RStripSep(destD), DefaultName(sourceP, destN)) != sourceP ==> size.value == n)
  {
    var n := |st.fs[sourceP].data|;
    var d := env.hash(st.fs[sourceP].data);
    var scan := LegacyResolvedMatch(env, st.fs, st.sizes, st.cache, sourceP);
    ScanAgrees(env, st.fs, st.cache, Bucket(st.sizes, n), d, true);
    if scan.res.Ok? {
      var st1 := Store(st.fs, st.sizes, scan.cache);
      assert LegacyStep(env, st, sourceP, destD, destN, cfg, rel)
             == LegacyStoreAndLink(env, st1, sourceP, destD, DefaultName(sourceP, destN), scan.res.value, cfg, rel);
      LegacyStoreAndLinkEffect(env, st1, sourceP, destD, DefaultName(sourceP, destN), scan.res.value, cfg, rel);
    }
  }

  /** The consequence of indexing the source path: once source `a` is in
      the list of its size, a later source `b` with the same size and digest,
      for which no stored file matched, resolves to `a` itself, a path
      outside the data directory, and not to the copy stored for `a`. */
  lemma LegacyIndexedSourceMatches(env: Env, fs: FS, sizes: SizeIndex, cache: DigestCache, a: Path, b: Path)
    requires IsFile(fs, a) && IsFile(fs, b) && Consistent(env, fs, cache)
    requires |fs[b].data| == |fs[a].data| && env.hash(fs[b].data) == env.hash(fs[a].data)
    requires FirstMatch(env, fs, Bucket(sizes, |fs[a].data|), env.hash(fs[a].data), true) == Ok(None)
    ensures var n := |fs[a].data|;
            LegacyResolvedMatch(env, fs, sizes[n := Bucket(sizes, n) + [a]], cache, b).res == Ok(Some(a))
  {
    var n := |fs[a].data|;
    var d := env.hash(fs[a].data);
    var sizes' := sizes[n := Bucket(sizes, n) + [a]];
    assert Bucket(sizes', n) == Bucket(sizes, n) + [a];
    ScanAgrees(env, fs, cache, Bucket(sizes', n), d, true);
    FirstMatchAppendNone(env, fs, Bucket(sizes, n), a, d, true);
  }

  /** `dest_d.rstrip('/')` of the root is empty, so for the root the flat
      link is made at the bare name, in the working directory. */
  lemma LegacyRootDestination(destD: Path, name: string)
    requires IsRoot(destD) && !StartsWith(name, "/")
    ensures RStripSep(destD) == [] && Join(RStripSep(destD), name) == name
  {
  }

  /** The return contract: a bare stored path exactly when there was one
      source (always for a lone string), otherwise one stored path per source. */
  lemma LegacyReturnShape(env: Env, fs: FS, sources: Sources, destD: Path, index: SizeIndex, destN: Option<string>,
                          cfg: Settings)
    ensures var r := LegacyBatch(env, fs, sources, destD, index, destN, cfg);
            r.res.Ok? ==>
              && (r.res.value.StoredPath? <==> |SourceList(sources)| == 1)
              && (r.res.value.StoredPaths? ==> |r.res.value.paths| == |SourceList(sources)|)
              && (sources.OnePath? ==> r.res.value.StoredPath?)
  {
  }
}
