/** The deduplicating store of `src/bvzversionedfiles/bvzversionedfiles.py`:
    `copy_file_deduplicated` for one request and `copy_files_deduplicated`
    for a batch, with the state a batch threads from request to request. */
module DedupEngine {
  import opened Paths
  import opened FileSystems
  import opened MatchResolver
  import opened VersionedNamer
  import opened CopyDescriptors

  /** The options both functions take: the data directory and how the
      versioned copies are named and made (`ver_prefix`, `num_digits`,
      `do_verified_copy`). */
  datatype Settings = Settings(dataD: Path, prefix: string, digits: int, verify: bool)

  /** What a batch carries between requests: the file system, the size index
      `data_sizes` and the digest cache `cached_md5`. */
  datatype Store = Store(fs: FS, sizes: SizeIndex, cache: DigestCache)

  /** The store after one request, and the stored path it returned or the
      error it raised. */
  datatype Step = Step(st: Store, res: Result<Path>)

  /** The store after a batch, and the `source -> stored path` map or the
      error that ended it. */
  datatype Run = Run(st: Store, res: Result<map<Path, Path>>)

  function ChildFileMessage(): string {
    "Destination file may not be a child of the data directory"
  }

  function NotAFileMessage(sourceP: Path): string {
    "copy_file_deduplicated failed: source file is not a file or does not exist: " + sourceP
  }

  function ChildDirMessage(): string {
    "Destination directory may not be a child of the data directory"
  }

  /** What `os.path.relpath` raises for an empty path. */
  function NoPathMessage(): string {
    "no path specified"
  }

  /** `bvzfilesystemlib.add_file_to_dict_by_size(p, data_sizes)`, taken to
      append `p` to the list of its size. */
  function AddBySize(fs: FS, sizes: SizeIndex, p: Path): (r: Result<SizeIndex>)
    ensures r.Ok? <==> IsFile(fs, p)
  {
    match Size(fs, p)
    case Err(e) => Err(e)
    case Ok(n) => Ok(sizes[n := Bucket(sizes, n) + [p]])
  }

  // ---------------------------------------------------------------------------
  // One request: `copy_file_deduplicated`

  /** `copy_file_deduplicated(source_p, dest_p, data_d, data_sizes,
      cached_md5, ...)`: reject a destination inside the data directory and a
      source that is not a file; look for a stored file with the source's
      contents; store a new versioned copy when there is none; link `dest_p`
      to the stored file; index the stored file by its size. */
  function DedupStep(env: Env, st: Store, sourceP: Path, destP: Path, cfg: Settings): Step {
    if StartsWith(destP, cfg.dataD) then Step(st, Err(ValueError(ChildFileMessage())))
    else if !IsFile(st.fs, sourceP) then Step(st, Err(ValueError(NotAFileMessage(sourceP))))
    else ResolveAndStore(env, st, sourceP, destP, cfg)
  }

  /** After the checks: look for a stored file with the source's contents,
      caching the digests read, then store and link. */
  function ResolveAndStore(env: Env, st: Store, sourceP: Path, destP: Path, cfg: Settings): Step
    requires IsFile(st.fs, sourceP)
  {
    var scan := ResolvedMatch(env, st.fs, st.sizes, st.cache, sourceP);
    match scan.res
    case Err(e) => Step(Store(st.fs, st.sizes, scan.cache), Err(e))
    case Ok(m) => StoreAndLink(env, Store(st.fs, st.sizes, scan.cache), sourceP, destP, m, cfg)
  }

  /** After the match is resolved: store the data unless it was found, then
      link `dest_p` to the stored file and index it. */
  function StoreAndLink(env: Env, st: Store, sourceP: Path, destP: Path, m: Option<Path>, cfg: Settings): Step {
    var stored := StoreData(env, st.fs, sourceP, destP, m, cfg);
    match stored.res
    case Err(e) => Step(Store(stored.fs, st.sizes, st.cache), Err(e))
    case Ok(dataFileP) => LinkAndIndex(env, Store(stored.fs, st.sizes, st.cache), dataFileP, destP)
  }

  /** The stored file to link to: the match, or else a new versioned copy of
      the source in the data directory, named after the destination. */
  function StoreData(env: Env, fs: FS, sourceP: Path, destP: Path, m: Option<Path>, cfg: Settings): Outcome<Path> {
    if m.Some? then Outcome(fs, Ok(m.value))
    else VersionedCopy(env, fs, sourceP, Join(cfg.dataD, Basename(destP)), cfg.prefix, cfg.digits, cfg.verify)
  }

  /** The end of `copy_file_deduplicated`: make the destination's directory,
      replace `dest_p` by a link whose text is the stored file's path
      relative to that directory, and index the stored file. */
  function LinkAndIndex(env: Env, st: Store, dataFileP: Path, destP: Path): Step {
    var destDir := Split(destP).0;
    match MakeDirs(st.fs, destDir)
    case Err(e) => Step(st, Err(e))
    case Ok(fs1) =>
      match RelPath(dataFileP, destDir, env.cwd)
      case None => Step(Store(fs1, st.sizes, st.cache), Err(ValueError(NoPathMessage())))
      case Some(rel) =>
        match ReplaceWithLink(fs1, rel, destP)
        case Err(e) => Step(Store(fs1, st.sizes, st.cache), Err(e))
        case Ok(fs2) =>
          match AddBySize(fs2, st.sizes, dataFileP)
          case Err(e) => Step(Store(fs2, st.sizes, st.cache), Err(e))
          case Ok(sizes) => Step(Store(fs2, sizes, st.cache), Ok(dataFileP))
  }

  /** A link-in-place request: make the destination's directory, then
      replace `dest_p` by a link to the source path as given. */
  function LinkInPlace(fs: FS, sourceP: Path, destP: Path): Outcome<()> {
    match MakeDirs(fs, Split(destP).0)
    case Err(e) => Outcome(fs, Err(e))
    case Ok(fs1) =>
      match ReplaceWithLink(fs1, sourceP, destP)
      case Err(e) => Outcome(fs1, Err(e))
      case Ok(fs2) => Outcome(fs2, Ok(()))
  }

  // ---------------------------------------------------------------------------
  // A batch: `copy_files_deduplicated`

  /** Every request's source is a file (the check before the copy loop). */
  predicate SourcesAreFiles(fs: FS, reqs: seq<Copydescriptor>) {
    forall i :: 0 <= i < |reqs| ==> IsFile(fs, reqs[i].sourceP)
  }

  /** One turn of the copy loop: a request is either copied with
      deduplication, its stored path recorded under its source, or linked in
      place, leaving the index, the cache and the output as they were. */
  function RequestStep(env: Env, st: Store, c: Copydescriptor, destD: Path, cfg: Settings,
                       out: map<Path, Path>): Run
  {
    var destP := Join(destD, c.destRelativeP);
    if !c.linkInPlace then
      var s := DedupStep(env, st, c.sourceP, destP, cfg);
      match s.res
      case Err(e) => Run(s.st, Err(e))
      case Ok(p) => Run(s.st, Ok(out[c.sourceP := p]))
    else
      var l := LinkInPlace(st.fs, c.sourceP, destP);
      Run(Store(l.fs, st.sizes, st.cache), if l.res.Err? then Err(l.res.error) else Ok(out))
  }

  /** The copy loop from request `reqs[0]` on, with output `out` so far. */
  function DedupRun(env: Env, st: Store, reqs: seq<Copydescriptor>, destD: Path, cfg: Settings,
                    out: map<Path, Path>): Run
    decreases |reqs|
  {
    if reqs == [] then Run(st, Ok(out))
    else
      var r := RequestStep(env, st, reqs[0], destD, cfg, out);
      if r.res.Err? then r else DedupRun(env, r.st, reqs[1..], destD, cfg, r.res.value)
  }

  /** `copy_files_deduplicated(copydescriptors, dest_d, data_d, ...)`, with
      `index` standing for `dir_files_keyed_by_size(data_d)`.  The two checks
      come before any change; a source that is not a file raises `NameError`,
      because the message that would report it names a variable that is not
      defined there. */
  function DedupBatch(env: Env, fs: FS, reqs: seq<Copydescriptor>, destD: Path, index: SizeIndex,
                      cfg: Settings): (r: Outcome<map<Path, Path>>)
    ensures StartsWith(destD, cfg.dataD) ==> r == Outcome(fs, Err(ValueError(ChildDirMessage())))
    ensures !SourcesAreFiles(fs, reqs) ==> r.fs == fs && r.res.Err?
  {
    if StartsWith(destD, cfg.dataD) then Outcome(fs, Err(ValueError(ChildDirMessage())))
    else if !SourcesAreFiles(fs, reqs) then Outcome(fs, Err(NameError("source_p")))
    else
      var run := DedupRun(env, Store(fs, index, map[]), reqs, destD, cfg, map[]);
      Outcome(run.st.fs, run.res)
  }

  // ---------------------------------------------------------------------------
  // The engine on the mutable file system

  /** `copy_file_deduplicated` on the file system and the batch's index and cache. */
  method CopyFileDeduplicated(fs: FileSystem, batch: BatchState, sourceP: Path, destP: Path, cfg: Settings)
    returns (r: Result<Path>)
    modifies fs, batch
    ensures Step(Store(fs.entries, batch.sizes, batch.md5), r)
            == DedupStep(fs.env, Store(old(fs.entries), old(batch.sizes), old(batch.md5)), sourceP, destP, cfg)
  {
    if StartsWith(destP, cfg.dataD) {
      return Err(ValueError(ChildFileMessage()));
    }
    if !IsFile(fs.entries, sourceP) {
      return Err(ValueError(NotAFileMessage(sourceP)));
    }
    var found := ResolveMatch(fs, batch, sourceP);
    if found.Err? {
      return Err(found.error);
    }
    var matched := found.value;
    var dataFileP: Path;
    if matched.None? {
      var copied := CopyAndAddVerNum(fs, sourceP, Join(cfg.dataD, Split(destP).1), cfg.prefix, cfg.digits, cfg.verify);
      if copied.Err? {
        return Err(copied.error);
      }
      dataFileP := copied.value;
    } else {
      dataFileP := matched.value;
    }
    r := LinkAndAddToIndex(fs, batch, dataFileP, destP);
  }

  /** The size lookup and the candidate loop of `copy_file_deduplicated`:
      with no stored file of the source's size nothing is read; otherwise
      the source's digest is taken, then the candidates are scanned. */
  method ResolveMatch(fs: FileSystem, batch: BatchState, sourceP: Path) returns (matched: Result<Option<Path>>)
    requires IsFile(fs.entries, sourceP)
    modifies batch
    ensures var scan := ResolvedMatch(fs.env, fs.entries, old(batch.sizes), old(batch.md5), sourceP);
            matched == scan.res && batch.md5 == scan.cache && batch.sizes == old(batch.sizes)
  {
    var size := |fs.entries[sourceP].data|;
    var possibleMatches := Bucket(batch.sizes, size);
    if possibleMatches == [] {
      return Ok(None);
    }
    var sourceMd5 := Md5ForFile(fs.env, fs.entries, sourceP, false);
    ghost var hashed;
    matched, hashed := FindMatch(fs, batch, possibleMatches, sourceMd5.value, false);
  }

  /** Making the link's directory, the link and the index update at the end
      of `copy_file_deduplicated`. */
  method LinkAndAddToIndex(fs: FileSystem, batch: BatchState, dataFileP: Path, destP: Path)
    returns (r: Result<Path>)
    modifies fs, batch
    ensures Step(Store(fs.entries, batch.sizes, batch.md5), r)
            == LinkAndIndex(fs.env, Store(old(fs.entries), old(batch.sizes), old(batch.md5)), dataFileP, destP)
  {
    var destDir := Split(destP).0;
    var made := MakeDirs(fs.entries, destDir);
    if made.Err? {
      return Err(made.error);
    }
    fs.entries := made.value;
    var relativeP := RelPath(dataFileP, destDir, fs.env.cwd);
    if relativeP.None? {
      return Err(ValueError(NoPathMessage()));
    }
    var linked := ReplaceWithLink(fs.entries, relativeP.value, destP);
    if linked.Err? {
      return Err(linked.error);
    }
    fs.entries := linked.value;
    var added := AddBySize(fs.entries, batch.sizes, dataFileP);
    if added.Err? {
      return Err(added.error);
    }
    batch.sizes := added.value;
    return Ok(dataFileP);
  }

  /** A link-in-place request on the file system. */
  method LinkSourceInPlace(fs: FileSystem, sourceP: Path, destP: Path) returns (r: Result<()>)
    modifies fs
    ensures Outcome(fs.entries, r) == LinkInPlace(old(fs.entries), sourceP, destP)
  {
    var made := MakeDirs(fs.entries, Split(destP).0);
    if made.Err? {
      return Err(made.error);
    }
    fs.entries := made.value;
    var linked := ReplaceWithLink(fs.entries, sourceP, destP);
    if linked.Err? {
      return Err(linked.error);
    }
    fs.entries := linked.value;
    return Ok(());
  }

  /** `copy_files_deduplicated`: the two checks, then one fresh index and
      cache for the batch and the loop over the requests. */
  method CopyFilesDeduplicated(fs: FileSystem, reqs: seq<Copydescriptor>, destD: Path, index: SizeIndex,
                               cfg: Settings)
    returns (r: Result<map<Path, Path>>)
    modifies fs
    ensures Outcome(fs.entries, r) == DedupBatch(fs.env, old(fs.entries), reqs, destD, index, cfg)
  {
    if StartsWith(destD, cfg.dataD) {
      return Err(ValueError(ChildDirMessage()));
    }
    var ok := CheckSources(fs.entries, reqs);
    if !ok {
      return Err(NameError("source_p"));
    }
    r := RunBatch(fs, reqs, destD, index, cfg);
  }

  /** The copy loop of `copy_files_deduplicated`, on a fresh index and cache. */
  method RunBatch(fs: FileSystem, reqs: seq<Copydescriptor>, destD: Path, index: SizeIndex, cfg: Settings)
    returns (r: Result<map<Path, Path>>)
    modifies fs
    ensures var run := DedupRun(fs.env, Store(old(fs.entries), index, map[]), reqs, destD, cfg, map[]);
            fs.entries == run.st.fs && r == run.res
  {
    ghost var goal := DedupRun(fs.env, Store(fs.entries, index, map[]), reqs, destD, cfg, map[]);
    var output: map<Path, Path> := map[];
    var batch := new BatchState(index);
    var i := 0;
    while i < |reqs|
      invariant 0 <= i <= |reqs|
      invariant goal == DedupRun(fs.env, Store(fs.entries, batch.sizes, batch.md5), reqs[i..], destD, cfg, output)
    {
      assert reqs[i..][0] == reqs[i] && reqs[i..][1..] == reqs[i + 1..];
      var next := CopyRequest(fs, batch, reqs[i], destD, cfg, output);
      if next.Err? {
        return Err(next.error);
      }
      output := next.value;
      i := i + 1;
    }
    return Ok(output);
  }

  /** The check before the copy loop: `os.path.exists`, then
      `os.path.isfile`, on every source. */
  method CheckSources(fs: FS, reqs: seq<Copydescriptor>) returns (ok: bool)
    ensures ok == SourcesAreFiles(fs, reqs)
  {
    var k := 0;
    while k < |reqs|
      invariant 0 <= k <= |reqs|
      invariant forall j :: 0 <= j < k ==> IsFile(fs, reqs[j].sourceP)
    {
      if !Exists(fs, reqs[k].sourceP) || !IsFile(fs, reqs[k].sourceP) {
        return false;
      }
      k := k + 1;
    }
    return true;
  }

  /** One turn of the copy loop on the file system and the batch. */
  method CopyRequest(fs: FileSystem, batch: BatchState, c: Copydescriptor, destD: Path, cfg: Settings,
                     output: map<Path, Path>)
    returns (r: Result<map<Path, Path>>)
    modifies fs, batch
    ensures Run(Store(fs.entries, batch.sizes, batch.md5), r)
            == RequestStep(fs.env, Store(old(fs.entries), old(batch.sizes), old(batch.md5)), c, destD, cfg, output)
  {
    var destP := Join(destD, c.destRelativeP);
    if !c.linkInPlace {
      var p := CopyFileDeduplicated(fs, batch, c.sourceP, destP, cfg);
      if p.Err? {
        return Err(p.error);
      }
      return Ok(output[c.sourceP := p.value]);
    } else {
      var linked := LinkSourceInPlace(fs, c.sourceP, destP);
      if linked.Err? {
        return Err(linked.error);
      }
      return Ok(output);
    }
  }
}
