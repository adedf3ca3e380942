/** What the deduplicating engine guarantees: what one request writes and
    returns, and, over a whole batch, that sources with the same contents
    are given the same stored file. */
module DedupProperties {
  import opened Paths
  import opened FileSystems
  import opened MatchResolver
  import opened VersionedNamer
  import opened CopyDescriptors
  import opened DedupEngine

  /** A data directory as the lemmas take it: not empty, no trailing separator. */
  predicate WellFormedDir(d: Path) {
    d != [] && d[|d| - 1] != '/'
  }

  /** Every indexed path is a file of the size it is listed under, inside
      the data directory. */
  ghost predicate IndexSound(fs: FS, sizes: SizeIndex, dataD: Path) {
    forall n, q :: n in sizes && q in sizes[n] ==> IsFile(fs, q) && |fs[q].data| == n && StartsWith(q, dataD)
  }

  /** Every cached digest is that of a file inside the data directory. */
  ghost predicate CacheSound(env: Env, fs: FS, cache: DigestCache, dataD: Path) {
    Consistent(env, fs, cache) && forall q :: q in cache ==> StartsWith(q, dataD)
  }

  /** Every entry inside the data directory is kept as it is. */
  ghost predicate KeepsData(fs: FS, fs': FS, dataD: Path) {
    forall q :: q in fs && StartsWith(q, dataD) ==> q in fs' && fs'[q] == fs[q]
  }

  /** No entry disappears, and an entry that is a file afterwards was that
      same file before. */
  ghost predicate FilesKept(fs: FS, fs': FS) {
    forall q :: q in fs ==> q in fs' && (fs'[q].File? ==> fs'[q] == fs[q])
  }

  /** The stored file the index gives for contents `c`: the first file
      listed under `c`'s size whose digest is `c`'s. */
  ghost predicate Located(env: Env, fs: FS, sizes: SizeIndex, c: Bytes, s: Path) {
    FirstMatch(env, fs, Bucket(sizes, |c|), env.hash(c), false) == Ok(Some(s))
  }

  /** The index after `add_file_to_dict_by_size(x, ...)`. */
  function Added(fs: FS, sizes: SizeIndex, x: Path): SizeIndex
    requires IsFile(fs, x)
  {
    var n := |fs[x].data|;
    sizes[n := Bucket(sizes, n) + [x]]
  }

  // ---------------------------------------------------------------------------
  // The index, the cache and the file system

  lemma KeepsDataTrans(a: FS, b: FS, c: FS, dataD: Path)
    requires KeepsData(a, b, dataD) && KeepsData(b, c, dataD)
    ensures KeepsData(a, c, dataD)
  {
  }

  lemma FilesKeptTrans(a: FS, b: FS, c: FS)
    requires FilesKept(a, b) && FilesKept(b, c)
    ensures FilesKept(a, c)
  {
  }

  /** The files of a size bucket, as a sound index lists them. */
  lemma BucketSound(fs: FS, sizes: SizeIndex, dataD: Path, n: nat)
    requires IndexSound(fs, sizes, dataD)
    ensures forall k :: 0 <= k < |Bucket(sizes, n)| ==>
              var q := Bucket(sizes, n)[k];
              IsFile(fs, q) && |fs[q].data| == n && StartsWith(q, dataD)
  {
    if n in sizes {
      forall k | 0 <= k < |sizes[n]|
        ensures IsFile(fs, sizes[n][k]) && |fs[sizes[n][k]].data| == n && StartsWith(sizes[n][k], dataD)
      {
        assert sizes[n][k] in sizes[n];
      }
    }
  }

  /** Keeping the data directory keeps a sound index and cache sound. */
  lemma KeptSound(env: Env, fs: FS, fs': FS, sizes: SizeIndex, cache: DigestCache, dataD: Path)
    requires IndexSound(fs, sizes, dataD) && CacheSound(env, fs, cache, dataD) && KeepsData(fs, fs', dataD)
    ensures IndexSound(fs', sizes, dataD) && CacheSound(env, fs', cache, dataD)
  {
    forall n, q | n in sizes && q in sizes[n]
      ensures IsFile(fs', q) && |fs'[q].data| == n && StartsWith(q, dataD)
    {
      assert IsFile(fs, q) && StartsWith(q, dataD);
    }
  }

  /** Keeping the data directory keeps every match the index gives. */
  lemma KeptMatch(env: Env, fs: FS, fs': FS, sizes: SizeIndex, dataD: Path, n: nat, d: Digest)
    requires IndexSound(fs, sizes, dataD) && KeepsData(fs, fs', dataD)
    ensures FirstMatch(env, fs', Bucket(sizes, n), d, false) == FirstMatch(env, fs, Bucket(sizes, n), d, false)
  {
    BucketSound(fs, sizes, dataD, n);
    FirstMatchFrame(env, fs, fs', Bucket(sizes, n), d, false);
  }

  /** Adding a file of the data directory keeps the index sound. */
  lemma AddedSound(fs: FS, sizes: SizeIndex, x: Path, dataD: Path)
    requires IndexSound(fs, sizes, dataD) && IsFile(fs, x) && StartsWith(x, dataD)
    ensures IndexSound(fs, Added(fs, sizes, x), dataD)
  {
    var n := |fs[x].data|;
    var sizes' := Added(fs, sizes, x);
    forall m, q | m in sizes' && q in sizes'[m]
      ensures IsFile(fs, q) && |fs[q].data| == m && StartsWith(q, dataD)
    {
      if m == n && q != x {
        assert q in Bucket(sizes, n);
      }
    }
  }

  /** Adding a file to the index keeps every match already found. */
  lemma AddedMatch(env: Env, fs: FS, sizes: SizeIndex, x: Path, n: nat, d: Digest)
    requires IsFile(fs, x)
    requires FirstMatch(env, fs, Bucket(sizes, n), d, false).Ok?
    requires FirstMatch(env, fs, Bucket(sizes, n), d, false).value.Some?
    ensures FirstMatch(env, fs, Bucket(Added(fs, sizes, x), n), d, false) == FirstMatch(env, fs, Bucket(sizes, n), d, false)
  {
    if n == |fs[x].data| {
      FirstMatchAppendSome(env, fs, Bucket(sizes, n), x, d, false);
    }
  }

  /** The file just added is where contents `c` are found when it holds
      them: either it was already the match, or there was none. */
  lemma AddedLocated(env: Env, fs: FS, sizes: SizeIndex, x: Path, c: Bytes)
    requires IsFile(fs, x) && |fs[x].data| == |c| && env.hash(fs[x].data) == env.hash(c)
    requires var m := FirstMatch(env, fs, Bucket(sizes, |c|), env.hash(c), false);
             m == Ok(None) || m == Ok(Some(x))
    ensures Located(env, fs, Added(fs, sizes, x), c, x)
  {
    var b := Bucket(sizes, |c|);
    assert Bucket(Added(fs, sizes, x), |c|) == b + [x];
    if FirstMatch(env, fs, b, env.hash(c), false) == Ok(None) {
      FirstMatchAppendNone(env, fs, b, x, env.hash(c), false);
    } else {
      FirstMatchAppendSome(env, fs, b, x, env.hash(c), false);
    }
  }

  // ---------------------------------------------------------------------------
  // What one request writes

  /** Where a missed request stores its copy: the first free versioned path
      for the destination's name inside the data directory. */
  function StorePath(fs: FS, destP: Path, cfg: Settings): Path {
    FreePath(fs, SchemeFor(Join(cfg.dataD, Basename(destP)), cfg.prefix, cfg.digits))
  }

  /** `fs'` keeps every entry of `fs`, except that `destP` may have become a
      link, and adds only directories, `destP` and the paths in `news`. */
  ghost predicate WritesOnly(fs: FS, fs': FS, destP: Path, news: set<Path>) {
    && (forall q :: q in fs ==> q in fs' && (fs'[q] == fs[q] || (q == destP && fs'[q].Link?)))
    && (forall q :: q in fs' && q !in fs ==> q == destP || q in news || fs'[q].Dir?)
  }

  lemma WritesOnlyTrans(a: FS, b: FS, c: FS, destP: Path, n1: set<Path>, n2: set<Path>)
    requires WritesOnly(a, b, destP, n1) && WritesOnly(b, c, destP, n2) && n2 <= n1
    ensures WritesOnly(a, c, destP, n1)
  {
  }

  /** Writing only below `destP`, outside the data directory, keeps the data
      directory and every file. */
  lemma WritesKeep(fs: FS, fs': FS, destP: Path, news: set<Path>, dataD: Path)
    requires WritesOnly(fs, fs', destP, news) && !StartsWith(destP, dataD)
    ensures KeepsData(fs, fs', dataD) && FilesKept(fs, fs')
  {
  }

  /** `LinkInPlace` and the link half of `LinkAndIndex` write only
      directories and the link at `destP`. */
  lemma MakeDirsThenLink(fs: FS, fs1: FS, target: Path, destP: Path)
    requires AddsOnlyDirs(fs, fs1) && ReplaceWithLink(fs1, target, destP).Ok?
    ensures WritesOnly(fs, ReplaceWithLink(fs1, target, destP).value, destP, {})
    ensures ReplaceWithLink(fs1, target, destP).value[destP] == Link(target)
  {
  }

  /** The scan reads the bucket in order and caches only digests of
      indexed files: its answer is the first match, and the cache stays sound. */
  lemma ResolveSound(env: Env, fs: FS, sizes: SizeIndex, cache: DigestCache, sourceP: Path, dataD: Path)
    requires IsFile(fs, sourceP) && IndexSound(fs, sizes, dataD) && CacheSound(env, fs, cache, dataD)
    ensures var scan := ResolvedMatch(env, fs, sizes, cache, sourceP);
            var c := fs[sourceP].data;
            && scan.res == FirstMatch(env, fs, Bucket(sizes, |c|), env.hash(c), false)
            && CacheSound(env, fs, scan.cache, dataD)
  {
    ResolvedMatchFirst(env, fs, sizes, cache, sourceP);
    var c := fs[sourceP].data;
    var bucket := Bucket(sizes, |c|);
    if bucket != [] {
      var scan := ResolvedMatch(env, fs, sizes, cache, sourceP);
      ScanExtends(env, fs, cache, bucket, env.hash(c), false);
      BucketSound(fs, sizes, dataD, |c|);
      forall q | q in scan.cache
        ensures StartsWith(q, dataD)
      {
        if q !in cache {
          var k := IndexOf(bucket, q);
          assert bucket[k] == q;
        }
      }
    }
  }

  /** Storing the data: a hit keeps everything; a miss adds at most the new
      versioned copy, at a path that did not exist, inside the data
      directory.  A stored path holds a file of the source's size and digest
      when copies are faithful or verified. */
  lemma StoreDataSound(env: Env, fs: FS, sizes: SizeIndex, sourceP: Path, destP: Path, m: Option<Path>, cfg: Settings)
    requires IsFile(fs, sourceP) && WellFormedDir(cfg.dataD) && (Faithful(env) || cfg.verify)
    requires m.Some? ==> var y := m.value;
               IsFile(fs, y) && StartsWith(y, cfg.dataD) && |fs[y].data| == |fs[sourceP].data|
               && env.hash(fs[y].data) == env.hash(fs[sourceP].data)
    ensures var r := StoreData(env, fs, sourceP, destP, m, cfg);
            var c := fs[sourceP].data;
            && WritesOnly(fs, r.fs, destP, {StorePath(fs, destP, cfg)})
            && KeepsData(fs, r.fs, cfg.dataD) && FilesKept(fs, r.fs)
            && (m.Some? ==> r == Outcome(fs, Ok(m.value)))
            && (m.None? && r.res.Ok? ==> r.res.value == StorePath(fs, destP, cfg) && r.res.value !in fs)
            && (r.res.Ok? ==> var x := r.res.value;
                  IsFile(r.fs, x) && StartsWith(x, cfg.dataD) && |r.fs[x].data| == |c|
                  && env.hash(r.fs[x].data) == env.hash(c))
  {
    if m.None? {
      var p := StorePath(fs, destP, cfg);
      assert p !in fs && StartsWith(p, cfg.dataD) by {
        FreePathLeast(fs, SchemeFor(Join(cfg.dataD, Basename(destP)), cfg.prefix, cfg.digits));
        FreePathInDir(fs, cfg.dataD, Basename(destP), cfg.prefix, cfg.digits);
      }
      assert StoreData(env, fs, sourceP, destP, m, cfg) == CopyTo(env, fs, sourceP, p, cfg.verify);
      CopySound(env, fs, sourceP, p, cfg.verify, cfg.dataD, destP);
    }
  }

  /** The copy to a free path inside the data directory. */
  lemma CopySound(env: Env, fs: FS, sourceP: Path, p: Path, verify: bool, dataD: Path, destP: Path)
    requires IsFile(fs, sourceP) && p !in fs && StartsWith(p, dataD) && (Faithful(env) || verify)
    ensures var r := CopyTo(env, fs, sourceP, p, verify);
            var c := fs[sourceP].data;
            && WritesOnly(fs, r.fs, destP, {p})
            && KeepsData(fs, r.fs, dataD) && FilesKept(fs, r.fs)
            && (r.res.Ok? ==> r.res.value == p && IsFile(r.fs, p) && |r.fs[p].data| == |c|
                              && env.hash(r.fs[p].data) == env.hash(c))
  {
    CopyToEffect(env, fs, sourceP, p, verify);
    var r := CopyTo(env, fs, sourceP, p, verify);
    var c := fs[sourceP].data;
    if ParentIsDir(fs, p) {
      var e := File(env.transfer(c), fs[sourceP].mode);
      AddEntry(fs, p, e, destP, dataD);
      if !verify {
        assert env.transfer(c) == c;
      }
    }
  }

  /** A new entry at a path that did not exist keeps everything else. */
  lemma AddEntry(fs: FS, p: Path, e: Entry, destP: Path, dataD: Path)
    requires p !in fs
    ensures WritesOnly(fs, fs[p := e], destP, {p})
    ensures KeepsData(fs, fs[p := e], dataD) && FilesKept(fs, fs[p := e])
  {
  }

  /** Linking and indexing writes only directories and the link at `destP`,
      leaves the cache alone, and on success indexes the stored file. */
  lemma LinkAndIndexWrites(env: Env, st: Store, x: Path, destP: Path)
    ensures var r := LinkAndIndex(env, st, x, destP);
            && WritesOnly(st.fs, r.st.fs, destP, {})
            && r.st.cache == st.cache
            && (r.res.Err? ==> r.st.sizes == st.sizes)
            && (r.res.Ok? ==> && r.res.value == x && IsFile(r.st.fs, x)
                              && r.st.sizes == Added(r.st.fs, st.sizes, x)
                              && destP in r.st.fs && r.st.fs[destP].Link?
                              && RelPath(x, Split(destP).0, env.cwd) == Some(r.st.fs[destP].target))
  {
    var r := LinkAndIndex(env, st, x, destP);
    var destDir := Split(destP).0;
    var made := MakeDirs(st.fs, destDir);
    if made.Err? {
      assert r == Step(st, Err(made.error));
    } else {
      var fs1 := made.value;
      MakeDirsAddsOnlyDirs(st.fs, destDir);
      DirsOnly(st.fs, fs1, destP);
      var rel := RelPath(x, destDir, env.cwd);
      if rel.None? {
        assert r == Step(Store(fs1, st.sizes, st.cache), Err(ValueError(NoPathMessage())));
      } else {
        var linked := ReplaceWithLink(fs1, rel.value, destP);
        if linked.Err? {
          assert r == Step(Store(fs1, st.sizes, st.cache), Err(linked.error));
        } else {
          var fs2 := linked.value;
          MakeDirsThenLink(st.fs, fs1, rel.value, destP);
          var added := AddBySize(fs2, st.sizes, x);
          if added.Err? {
            assert r == Step(Store(fs2, st.sizes, st.cache), Err(added.error));
          } else {
            assert r == Step(Store(fs2, added.value, st.cache), Ok(x));
          }
        }
      }
    }
  }

  lemma DirsOnly(fs: FS, fs': FS, destP: Path)
    requires AddsOnlyDirs(fs, fs')
    ensures WritesOnly(fs, fs', destP, {})
  {
  }

  /** The link's text, read from the destination's directory, names the
      stored file. */
  lemma LinkResolves(env: Env, st: Store, x: Path, destP: Path)
    requires x != []
    ensures var r := LinkAndIndex(env, st, x, destP);
            r.res.Ok? ==>
              && destP in r.st.fs && r.st.fs[destP].Link?
              && AbsParts(env.cwd, Join(Split(destP).0, r.st.fs[destP].target)) == AbsParts(env.cwd, x)
  {
    LinkAndIndexWrites(env, st, x, destP);
    RelPathResolves(x, Split(destP).0, env.cwd);
  }

  /** Linking outside the data directory and indexing a stored file keeps
      the index and the cache sound. */
  lemma LinkAndIndexSound(env: Env, st: Store, x: Path, destP: Path, dataD: Path)
    requires IndexSound(st.fs, st.sizes, dataD) && CacheSound(env, st.fs, st.cache, dataD)
    requires !StartsWith(destP, dataD) && IsFile(st.fs, x) && StartsWith(x, dataD)
    ensures var r := LinkAndIndex(env, st, x, destP);
            && KeepsData(st.fs, r.st.fs, dataD) && FilesKept(st.fs, r.st.fs)
            && IndexSound(r.st.fs, r.st.sizes, dataD) && CacheSound(env, r.st.fs, r.st.cache, dataD)
            && (r.res.Ok? ==> r.st.fs[x] == st.fs[x])
  {
    var r := LinkAndIndex(env, st, x, destP);
    LinkAndIndexWrites(env, st, x, destP);
    WritesKeep(st.fs, r.st.fs, destP, {}, dataD);
    KeptSound(env, st.fs, r.st.fs, st.sizes, st.cache, dataD);
    if r.res.Ok? {
      AddedSound(r.st.fs, st.sizes, x, dataD);
    }
  }

  // ---------------------------------------------------------------------------
  // One request: `copy_file_deduplicated`

  /** The assumptions a request is taken under: a well-formed data directory,
      copies that are faithful or verified, and a sound index and cache. */
  ghost predicate Sound(env: Env, st: Store, cfg: Settings) {
    && WellFormedDir(cfg.dataD) && (Faithful(env) || cfg.verify)
    && IndexSound(st.fs, st.sizes, cfg.dataD) && CacheSound(env, st.fs, st.cache, cfg.dataD)
  }

  /** A match the index gives is a stored file of the source's size and digest. */
  lemma MatchSound(env: Env, fs: FS, sizes: SizeIndex, c: Bytes, dataD: Path)
    requires IndexSound(fs, sizes, dataD)
    ensures var r := FirstMatch(env, fs, Bucket(sizes, |c|), env.hash(c), false);
            r.Ok? && r.value.Some? ==>
              var y := r.value.value;
              IsFile(fs, y) && StartsWith(y, dataD) && |fs[y].data| == |c| && env.hash(fs[y].data) == env.hash(c)
  {
    var bucket := Bucket(sizes, |c|);
    var r := FirstMatch(env, fs, bucket, env.hash(c), false);
    FirstMatchFound(env, fs, bucket, env.hash(c), false);
    if r.Ok? && r.value.Some? {
      BucketSound(fs, sizes, dataD, |c|);
      var k := IndexOf(bucket, r.value.value);
      assert bucket[k] == r.value.value;
    }
  }

  /** One request writes only new directories, the link at `dest_p` and the
      new versioned copy, keeps the data directory and every file, and
      leaves the index and the cache sound, whether it succeeds or fails. */
  lemma StepSound(env: Env, st: Store, sourceP: Path, destP: Path, cfg: Settings)
    requires Sound(env, st, cfg)
    ensures var s := DedupStep(env, st, sourceP, destP, cfg);
            && WritesOnly(st.fs, s.st.fs, destP, {StorePath(st.fs, destP, cfg)})
            && KeepsData(st.fs, s.st.fs, cfg.dataD) && FilesKept(st.fs, s.st.fs)
            && Sound(env, s.st, cfg)
  {
    if StartsWith(destP, cfg.dataD) || !IsFile(st.fs, sourceP) {
      Unchanged(st.fs, destP, {StorePath(st.fs, destP, cfg)}, cfg.dataD);
    } else {
      ResolveAndStoreSound(env, st, sourceP, destP, cfg);
    }
  }

  lemma Unchanged(fs: FS, destP: Path, news: set<Path>, dataD: Path)
    ensures WritesOnly(fs, fs, destP, news) && FilesKept(fs, fs) && KeepsData(fs, fs, dataD)
  {
  }

  /** A request past its checks. */
  lemma ResolveAndStoreSound(env: Env, st: Store, sourceP: Path, destP: Path, cfg: Settings)
    requires Sound(env, st, cfg) && IsFile(st.fs, sourceP) && !StartsWith(destP, cfg.dataD)
    ensures var s := ResolveAndStore(env, st, sourceP, destP, cfg);
            && WritesOnly(st.fs, s.st.fs, destP, {StorePath(st.fs, destP, cfg)})
            && KeepsData(st.fs, s.st.fs, cfg.dataD) && FilesKept(st.fs, s.st.fs)
            && Sound(env, s.st, cfg)
  {
    var s := ResolveAndStore(env, st, sourceP, destP, cfg);
    var c := st.fs[sourceP].data;
    var scan := ResolvedMatch(env, st.fs, st.sizes, st.cache, sourceP);
    var st1 := Store(st.fs, st.sizes, scan.cache);
    ResolveSound(env, st.fs, st.sizes, st.cache, sourceP, cfg.dataD);
    if scan.res.Err? {
      assert s.st == st1;
      Unchanged(st.fs, destP, {StorePath(st.fs, destP, cfg)}, cfg.dataD);
    } else {
      assert s == StoreAndLink(env, st1, sourceP, destP, scan.res.value, cfg);
      MatchSound(env, st.fs, st.sizes, c, cfg.dataD);
      StoreAndLinkSound(env, st1, sourceP, destP, scan.res.value, cfg);
    }
  }

  /** The tail of a request, from a resolved match `m` on. */
  lemma StoreAndLinkSound(env: Env, st: Store, sourceP: Path, destP: Path, m: Option<Path>, cfg: Settings)
    requires Sound(env, st, cfg) && IsFile(st.fs, sourceP) && !StartsWith(destP, cfg.dataD)
    requires m.Some? ==> var y := m.value;
               IsFile(st.fs, y) && StartsWith(y, cfg.dataD) && |st.fs[y].data| == |st.fs[sourceP].data|
               && env.hash(st.fs[y].data) == env.hash(st.fs[sourceP].data)
    ensures var s := StoreAndLink(env, st, sourceP, destP, m, cfg);
            && WritesOnly(st.fs, s.st.fs, destP, {StorePath(st.fs, destP, cfg)})
            && KeepsData(st.fs, s.st.fs, cfg.dataD) && FilesKept(st.fs, s.st.fs)
            && Sound(env, s.st, cfg)
  {
    var s := StoreAndLink(env, st, sourceP, destP, m, cfg);
    var stored := StoreData(env, st.fs, sourceP, destP, m, cfg);
    var p := StorePath(st.fs, destP, cfg);
    var st1 := Store(stored.fs, st.sizes, st.cache);
    assert WritesOnly(st.fs, st1.fs, destP, {p}) && Sound(env, st1, cfg)
        && (stored.res.Ok? ==> IsFile(st1.fs, stored.res.value) && StartsWith(stored.res.value, cfg.dataD)) by {
      StoreDataSound(env, st.fs, st.sizes, sourceP, destP, m, cfg);
      KeptSound(env, st.fs, stored.fs, st.sizes, st.cache, cfg.dataD);
    }
    if stored.res.Ok? {
      var x := stored.res.value;
      assert s == LinkAndIndex(env, st1, x, destP);
      assert WritesOnly(st.fs, s.st.fs, destP, {p}) by {
        LinkAndIndexWrites(env, st1, x, destP);
        WritesOnlyTrans(st.fs, st1.fs, s.st.fs, destP, {p}, {});
      }
      assert Sound(env, s.st, cfg) by {
        LinkAndIndexSound(env, st1, x, destP, cfg.dataD);
      }
    }
    WritesKeep(st.fs, s.st.fs, destP, {p}, cfg.dataD);
  }

  /** A request that succeeds returns the stored file the updated index
      gives for the source's contents. */
  lemma StepLocated(env: Env, st: Store, sourceP: Path, destP: Path, cfg: Settings)
    requires Sound(env, st, cfg)
    ensures var s := DedupStep(env, st, sourceP, destP, cfg);
            s.res.Ok? ==> IsFile(st.fs, sourceP) && Located(env, s.st.fs, s.st.sizes, st.fs[sourceP].data, s.res.value)
  {
    if StartsWith(destP, cfg.dataD) {
      assert DedupStep(env, st, sourceP, destP, cfg).res.Err?;
    } else if !IsFile(st.fs, sourceP) {
      assert DedupStep(env, st, sourceP, destP, cfg).res.Err?;
    } else {
      ResolveAndStoreLocated(env, st, sourceP, destP, cfg);
    }
  }

  lemma ResolveAndStoreLocated(env: Env, st: Store, sourceP: Path, destP: Path, cfg: Settings)
    requires Sound(env, st, cfg) && IsFile(st.fs, sourceP) && !StartsWith(destP, cfg.dataD)
    ensures var s := ResolveAndStore(env, st, sourceP, destP, cfg);
            s.res.Ok? ==> Located(env, s.st.fs, s.st.sizes, st.fs[sourceP].data, s.res.value)
  {
    var s := ResolveAndStore(env, st, sourceP, destP, cfg);
    var scan := ResolvedMatch(env, st.fs, st.sizes, st.cache, sourceP);
    ResolveSound(env, st.fs, st.sizes, st.cache, sourceP, cfg.dataD);
    if scan.res.Ok? {
      var st1 := Store(st.fs, st.sizes, scan.cache);
      assert s == StoreAndLink(env, st1, sourceP, destP, scan.res.value, cfg);
      MatchSound(env, st.fs, st.sizes, st.fs[sourceP].data, cfg.dataD);
      StoreAndLinkLocated(env, st1, sourceP, destP, scan.res.value, cfg);
    }
  }

  /** The tail of a request locates the source's contents at its result,
      given that `m` is the index's first match for them. */
  lemma StoreAndLinkLocated(env: Env, st: Store, sourceP: Path, destP: Path, m: Option<Path>, cfg: Settings)
    requires Sound(env, st, cfg) && IsFile(st.fs, sourceP) && !StartsWith(destP, cfg.dataD)
    requires var c := st.fs[sourceP].data;
             FirstMatch(env, st.fs, Bucket(st.sizes, |c|), env.hash(c), false) == Ok(m)
    requires m.Some? ==> var y := m.value;
               IsFile(st.fs, y) && StartsWith(y, cfg.dataD) && |st.fs[y].data| == |st.fs[sourceP].data|
               && env.hash(st.fs[y].data) == env.hash(st.fs[sourceP].data)
    ensures var s := StoreAndLink(env, st, sourceP, destP, m, cfg);
            s.res.Ok? ==> Located(env, s.st.fs, s.st.sizes, st.fs[sourceP].data, s.res.value)
  {
    var s := StoreAndLink(env, st, sourceP, destP, m, cfg);
    var c := st.fs[sourceP].data;
    var stored := StoreData(env, st.fs, sourceP, destP, m, cfg);
    StoreDataSound(env, st.fs, st.sizes, sourceP, destP, m, cfg);
    var st1 := Store(stored.fs, st.sizes, st.cache);
    KeptSound(env, st.fs, stored.fs, st.sizes, st.cache, cfg.dataD);
    if stored.res.Ok? {
      var x := stored.res.value;
      assert s == LinkAndIndex(env, st1, x, destP);
      LinkAndIndexSound(env, st1, x, destP, cfg.dataD);
      LinkAndIndexWrites(env, st1, x, destP);
      if s.res.Ok? {
        KeptMatch(env, st.fs, stored.fs, st.sizes, cfg.dataD, |c|, env.hash(c));
        KeptMatch(env, stored.fs, s.st.fs, st.sizes, cfg.dataD, |c|, env.hash(c));
        AddedLocated(env, s.st.fs, st.sizes, x, c);
      }
    }
  }

  /** A request that succeeds keeps every match the index gave before it. */
  lemma StepKeepsLocated(env: Env, st: Store, sourceP: Path, destP: Path, cfg: Settings, c: Bytes, y: Path)
    requires Sound(env, st, cfg) && Located(env, st.fs, st.sizes, c, y)
    ensures var s := DedupStep(env, st, sourceP, destP, cfg);
            s.res.Ok? ==> Located(env, s.st.fs, s.st.sizes, c, y)
  {
    if !StartsWith(destP, cfg.dataD) && IsFile(st.fs, sourceP) {
      ResolveAndStoreKeeps(env, st, sourceP, destP, cfg, c, y);
    }
  }

  lemma ResolveAndStoreKeeps(env: Env, st: Store, sourceP: Path, destP: Path, cfg: Settings, c: Bytes, y: Path)
    requires Sound(env, st, cfg) && IsFile(st.fs, sourceP) && !StartsWith(destP, cfg.dataD)
    requires Located(env, st.fs, st.sizes, c, y)
    ensures var s := ResolveAndStore(env, st, sourceP, destP, cfg);
            s.res.Ok? ==> Located(env, s.st.fs, s.st.sizes, c, y)
  {
    var s := ResolveAndStore(env, st, sourceP, destP, cfg);
    var scan := ResolvedMatch(env, st.fs, st.sizes, st.cache, sourceP);
    ResolveSound(env, st.fs, st.sizes, st.cache, sourceP, cfg.dataD);
    if scan.res.Ok? {
      var st1 := Store(st.fs, st.sizes, scan.cache);
      assert s == StoreAndLink(env, st1, sourceP, destP, scan.res.value, cfg);
      MatchSound(env, st.fs, st.sizes, st.fs[sourceP].data, cfg.dataD);
      StoreAndLinkKeeps(env, st1, sourceP, destP, scan.res.value, cfg, c, y);
    }
  }

  lemma StoreAndLinkKeeps(env: Env, st: Store, sourceP: Path, destP: Path, m: Option<Path>, cfg: Settings, c: Bytes, y: Path)
    requires Sound(env, st, cfg) && IsFile(st.fs, sourceP) && !StartsWith(destP, cfg.dataD)
    requires m.Some? ==> var y := m.value;
               IsFile(st.fs, y) && StartsWith(y, cfg.dataD) && |st.fs[y].data| == |st.fs[sourceP].data|
               && env.hash(st.fs[y].data) == env.hash(st.fs[sourceP].data)
    requires Located(env, st.fs, st.sizes, c, y)
    ensures var s := StoreAndLink(env, st, sourceP, destP, m, cfg);
            s.res.Ok? ==> Located(env, s.st.fs, s.st.sizes, c, y)
  {
    var s := StoreAndLink(env, st, sourceP, destP, m, cfg);
    var stored := StoreData(env, st.fs, sourceP, destP, m, cfg);
    StoreDataSound(env, st.fs, st.sizes, sourceP, destP, m, cfg);
    var st1 := Store(stored.fs, st.sizes, st.cache);
    KeptSound(env, st.fs, stored.fs, st.sizes, st.cache, cfg.dataD);
    if stored.res.Ok? {
      var x := stored.res.value;
      assert s == LinkAndIndex(env, st1, x, destP);
      LinkAndIndexSound(env, st1, x, destP, cfg.dataD);
      LinkAndIndexWrites(env, st1, x, destP);
      if s.res.Ok? {
        KeptMatch(env, st.fs, stored.fs, st.sizes, cfg.dataD, |c|, env.hash(c));
        KeptMatch(env, stored.fs, s.st.fs, st.sizes, cfg.dataD, |c|, env.hash(c));
        AddedMatch(env, s.st.fs, st.sizes, x, |c|, env.hash(c));
      }
    }
  }

  /** A link-in-place request writes only directories and the link, which
      names the source path as given. */
  lemma LinkInPlaceWrites(fs: FS, sourceP: Path, destP: Path)
    ensures var r := LinkInPlace(fs, sourceP, destP);
            && WritesOnly(fs, r.fs, destP, {})
            && (r.res.Ok? ==> destP in r.fs && r.fs[destP] == Link(sourceP))
  {
    var made := MakeDirs(fs, Split(destP).0);
    if made.Ok? {
      MakeDirsAddsOnlyDirs(fs, Split(destP).0);
      DirsOnly(fs, made.value, destP);
      if ReplaceWithLink(made.value, sourceP, destP).Ok? {
        MakeDirsThenLink(fs, made.value, sourceP, destP);
      }
    }
  }

  // ---------------------------------------------------------------------------
  // A batch: `copy_files_deduplicated`

  /** Link-in-place requests link outside the data directory. */
  predicate LinksOutside(reqs: seq<Copydescriptor>, destD: Path, dataD: Path) {
    forall i :: 0 <= i < |reqs| && reqs[i].linkInPlace ==> !StartsWith(Join(destD, reqs[i].destRelativeP), dataD)
  }

  /** What holds after every successful turn of the copy loop, for a batch
      that started on `fs0`: the index and cache are sound, entries inside
      the data directory are as they were, no entry is gone and every entry
      that is a file is the file it was (a file at a destination path may have
      been replaced by a link), and every source recorded in the output is
      mapped to the stored file the index gives for its original contents. */
  ghost predicate BatchInv(env: Env, fs0: FS, st: Store, out: map<Path, Path>, cfg: Settings) {
    && Sound(env, st, cfg) && KeepsData(fs0, st.fs, cfg.dataD) && FilesKept(fs0, st.fs)
    && forall a :: a in out ==> IsFile(fs0, a) && Located(env, st.fs, st.sizes, fs0[a].data, out[a])
  }

  /** One turn of the copy loop keeps the batch invariant. */
  lemma RequestPreserves(env: Env, fs0: FS, st: Store, c: Copydescriptor, destD: Path, cfg: Settings,
                         out: map<Path, Path>)
    requires BatchInv(env, fs0, st, out, cfg) && IsFile(fs0, c.sourceP)
    requires c.linkInPlace ==> !StartsWith(Join(destD, c.destRelativeP), cfg.dataD)
    ensures var r := RequestStep(env, st, c, destD, cfg, out);
            r.res.Ok? ==> BatchInv(env, fs0, r.st, r.res.value, cfg)
  {
    var destP := Join(destD, c.destRelativeP);
    var r := RequestStep(env, st, c, destD, cfg, out);
    if !c.linkInPlace {
      var s := DedupStep(env, st, c.sourceP, destP, cfg);
      DedupPreserves(env, fs0, st, c.sourceP, destP, cfg, out);
      if s.res.Ok? {
        assert r == Run(s.st, Ok(out[c.sourceP := s.res.value]));
      }
    } else {
      var l := LinkInPlace(st.fs, c.sourceP, destP);
      LinkPreserves(env, fs0, st, c.sourceP, destP, cfg, out);
      if l.res.Ok? {
        assert r == Run(Store(l.fs, st.sizes, st.cache), Ok(out));
      }
    }
  }

  /** A copied request records its stored file and keeps the invariant. */
  lemma DedupPreserves(env: Env, fs0: FS, st: Store, sourceP: Path, destP: Path, cfg: Settings,
                       out: map<Path, Path>)
    requires BatchInv(env, fs0, st, out, cfg) && IsFile(fs0, sourceP)
    ensures var s := DedupStep(env, st, sourceP, destP, cfg);
            s.res.Ok? ==> BatchInv(env, fs0, s.st, out[sourceP := s.res.value], cfg)
  {
    var s := DedupStep(env, st, sourceP, destP, cfg);
    StepSound(env, st, sourceP, destP, cfg);
    StepLocated(env, st, sourceP, destP, cfg);
    StepKeepsAll(env, st, sourceP, destP, cfg);
    if s.res.Ok? {
      OutputExtends(env, fs0, st, s.st, sourceP, s.res.value, cfg, out);
    }
  }

  /** `StepKeepsLocated` for every match at once. */
  lemma StepKeepsAll(env: Env, st: Store, sourceP: Path, destP: Path, cfg: Settings)
    requires Sound(env, st, cfg)
    ensures var s := DedupStep(env, st, sourceP, destP, cfg);
            s.res.Ok? ==> forall c, y :: Located(env, st.fs, st.sizes, c, y) ==> Located(env, s.st.fs, s.st.sizes, c, y)
  {
    forall c, y | Located(env, st.fs, st.sizes, c, y)
      ensures var s := DedupStep(env, st, sourceP, destP, cfg);
              s.res.Ok? ==> Located(env, s.st.fs, s.st.sizes, c, y)
    {
      StepKeepsLocated(env, st, sourceP, destP, cfg, c, y);
    }
  }

  /** Recording a source's stored file after a step that keeps the index's
      earlier matches. */
  lemma OutputExtends(env: Env, fs0: FS, st: Store, st': Store, sourceP: Path, p: Path, cfg: Settings,
                      out: map<Path, Path>)
    requires BatchInv(env, fs0, st, out, cfg) && IsFile(fs0, sourceP)
    requires Sound(env, st', cfg) && KeepsData(st.fs, st'.fs, cfg.dataD) && FilesKept(st.fs, st'.fs)
    requires IsFile(st.fs, sourceP) && Located(env, st'.fs, st'.sizes, st.fs[sourceP].data, p)
    requires forall c, y :: Located(env, st.fs, st.sizes, c, y) ==> Located(env, st'.fs, st'.sizes, c, y)
    ensures BatchInv(env, fs0, st', out[sourceP := p], cfg)
  {
    KeepsDataTrans(fs0, st.fs, st'.fs, cfg.dataD);
    FilesKeptTrans(fs0, st.fs, st'.fs);
    assert st.fs[sourceP] == fs0[sourceP];
  }

  /** A link-in-place request keeps the invariant and the output. */
  lemma LinkPreserves(env: Env, fs0: FS, st: Store, sourceP: Path, destP: Path, cfg: Settings,
                      out: map<Path, Path>)
    requires BatchInv(env, fs0, st, out, cfg) && !StartsWith(destP, cfg.dataD)
    ensures var l := LinkInPlace(st.fs, sourceP, destP);
            l.res.Ok? ==> BatchInv(env, fs0, Store(l.fs, st.sizes, st.cache), out, cfg)
  {
    var l := LinkInPlace(st.fs, sourceP, destP);
    LinkInPlaceWrites(st.fs, sourceP, destP);
    WritesKeep(st.fs, l.fs, destP, {}, cfg.dataD);
    KeptSound(env, st.fs, l.fs, st.sizes, st.cache, cfg.dataD);
    KeepsDataTrans(fs0, st.fs, l.fs, cfg.dataD);
    FilesKeptTrans(fs0, st.fs, l.fs);
    forall a | a in out
      ensures Located(env, l.fs, st.sizes, fs0[a].data, out[a])
    {
      KeptMatch(env, st.fs, l.fs, st.sizes, cfg.dataD, |fs0[a].data|, env.hash(fs0[a].data));
    }
  }

  /** The copy loop keeps the batch invariant from any request on. */
  lemma {:induction false} RunPreserves(env: Env, fs0: FS, st: Store, reqs: seq<Copydescriptor>, destD: Path,
                                         cfg: Settings, out: map<Path, Path>)
    requires BatchInv(env, fs0, st, out, cfg)
    requires SourcesAreFiles(fs0, reqs) && LinksOutside(reqs, destD, cfg.dataD)
    ensures var run := DedupRun(env, st, reqs, destD, cfg, out);
            run.res.Ok? ==> BatchInv(env, fs0, run.st, run.res.value, cfg)
    decreases |reqs|
  {
    if reqs != [] {
      var r := RequestStep(env, st, reqs[0], destD, cfg, out);
      RunStepFacts(env, fs0, st, reqs, destD, cfg, out);
      if r.res.Ok? {
        RunPreserves(env, fs0, r.st, reqs[1..], destD, cfg, r.res.value);
      }
    }
  }

  /** The first turn of the copy loop: how the run continues, and the
      invariant and side conditions it continues from. */
  lemma RunStepFacts(env: Env, fs0: FS, st: Store, reqs: seq<Copydescriptor>, destD: Path,
                     cfg: Settings, out: map<Path, Path>)
    requires reqs != [] && BatchInv(env, fs0, st, out, cfg)
    requires SourcesAreFiles(fs0, reqs) && LinksOutside(reqs, destD, cfg.dataD)
    ensures var r := RequestStep(env, st, reqs[0], destD, cfg, out);
            && DedupRun(env, st, reqs, destD, cfg, out)
               == (if r.res.Err? then r else DedupRun(env, r.st, reqs[1..], destD, cfg, r.res.value))
            && (r.res.Ok? ==> && BatchInv(env, fs0, r.st, r.res.value, cfg)
                              && SourcesAreFiles(fs0, reqs[1..]) && LinksOutside(reqs[1..], destD, cfg.dataD))
  {
    RunUnfold(env, st, reqs, destD, cfg, out);
    RequestPreserves(env, fs0, st, reqs[0], destD, cfg, out);
    TailConditions(fs0, reqs, destD, cfg.dataD);
  }

  lemma RunUnfold(env: Env, st: Store, reqs: seq<Copydescriptor>, destD: Path, cfg: Settings, out: map<Path, Path>)
    requires reqs != []
    ensures var r := RequestStep(env, st, reqs[0], destD, cfg, out);
            DedupRun(env, st, reqs, destD, cfg, out)
            == (if r.res.Err? then r else DedupRun(env, r.st, reqs[1..], destD, cfg, r.res.value))
  {
  }

  lemma TailConditions(fs0: FS, reqs: seq<Copydescriptor>, destD: Path, dataD: Path)
    requires reqs != [] && SourcesAreFiles(fs0, reqs) && LinksOutside(reqs, destD, dataD)
    ensures IsFile(fs0, reqs[0].sourceP)
    ensures reqs[0].linkInPlace ==> !StartsWith(Join(destD, reqs[0].destRelativeP), dataD)
    ensures SourcesAreFiles(fs0, reqs[1..]) && LinksOutside(reqs[1..], destD, dataD)
  {
    var rest := reqs[1..];
    assert forall i :: 0 <= i < |rest| ==> rest[i] == reqs[i + 1];
  }

  /** The sources of the requests that are copied rather than linked in place. */
  function CopiedSources(reqs: seq<Copydescriptor>): set<Path> {
    set i | 0 <= i < |reqs| && !reqs[i].linkInPlace :: reqs[i].sourceP
  }

  lemma CopiedSourcesSplit(reqs: seq<Copydescriptor>)
    requires reqs != []
    ensures CopiedSources(reqs) == (if reqs[0].linkInPlace then {} else {reqs[0].sourceP}) + CopiedSources(reqs[1..])
  {
    var rest := reqs[1..];
    assert forall j :: 0 <= j < |rest| ==> rest[j] == reqs[j + 1];
    forall x | x in CopiedSources(reqs)
      ensures x in (if reqs[0].linkInPlace then {} else {reqs[0].sourceP}) + CopiedSources(rest)
    {
      var i :| 0 <= i < |reqs| && !reqs[i].linkInPlace && reqs[i].sourceP == x;
      if i > 0 {
        assert rest[i - 1] == reqs[i];
      }
    }
  }

  /** A copied request adds its source to the output and leaves the other
      entries as they were. */
  lemma RequestCopied(env: Env, st: Store, c: Copydescriptor, destD: Path, cfg: Settings, out: map<Path, Path>)
    requires !c.linkInPlace
    ensures var r := RequestStep(env, st, c, destD, cfg, out);
            r.res.Ok? ==> && r.res.value.Keys == out.Keys + {c.sourceP}
                          && forall a :: a in out && a != c.sourceP ==> r.res.value[a] == out[a]
  {
    var r := RequestStep(env, st, c, destD, cfg, out);
    var s := DedupStep(env, st, c.sourceP, Join(destD, c.destRelativeP), cfg);
    assert r == Run(s.st, if s.res.Err? then Err(s.res.error) else Ok(out[c.sourceP := s.res.value]));
    if s.res.Ok? {
      UpdateKeys(out, c.sourceP, s.res.value);
    }
  }

  lemma UpdateKeys(out: map<Path, Path>, k: Path, v: Path)
    ensures out[k := v].Keys == out.Keys + {k}
    ensures forall a :: a in out && a != k ==> out[k := v][a] == out[a]
  {
  }

  /** A link-in-place request links `dest_p` to the source path as given
      and leaves the index, the cache and the output as they were. */
  lemma RequestInPlace(env: Env, st: Store, c: Copydescriptor, destD: Path, cfg: Settings, out: map<Path, Path>)
    requires c.linkInPlace
    ensures var r := RequestStep(env, st, c, destD, cfg, out);
            var destP := Join(destD, c.destRelativeP);
            && r.st.sizes == st.sizes && r.st.cache == st.cache
            && (r.res.Ok? ==> r.res.value == out && destP in r.st.fs && r.st.fs[destP] == Link(c.sourceP))
  {
    var destP := Join(destD, c.destRelativeP);
    var l := LinkInPlace(st.fs, c.sourceP, destP);
    LinkInPlaceWrites(st.fs, c.sourceP, destP);
    assert RequestStep(env, st, c, destD, cfg, out)
           == Run(Store(l.fs, st.sizes, st.cache), if l.res.Err? then Err(l.res.error) else Ok(out));
  }

  /** The output's keys are the sources of the copied requests, one entry
      per distinct source. */
  lemma {:induction false} RunOutputKeys(env: Env, st: Store, reqs: seq<Copydescriptor>, destD: Path, cfg: Settings,
                                         out: map<Path, Path>)
    ensures var run := DedupRun(env, st, reqs, destD, cfg, out);
            run.res.Ok? ==> run.res.value.Keys == out.Keys + CopiedSources(reqs)
    decreases |reqs|
  {
    if reqs == [] {
      assert CopiedSources(reqs) == {};
    } else {
      var r := RunFirstKeys(env, st, reqs, destD, cfg, out);
      if r.res.Ok? {
        RunOutputKeys(env, r.st, reqs[1..], destD, cfg, r.res.value);
        var run := DedupRun(env, r.st, reqs[1..], destD, cfg, r.res.value);
        if run.res.Ok? {
          KeysCombine(run.res.value.Keys, r.res.value.Keys, out.Keys,
                      if reqs[0].linkInPlace then {} else {reqs[0].sourceP}, CopiedSources(reqs[1..]), CopiedSources(reqs));
        }
      }
    }
  }

  /** The first turn of the copy loop, returned as `r`, and the keys it adds. */
  lemma RunFirstKeys(env: Env, st: Store, reqs: seq<Copydescriptor>, destD: Path, cfg: Settings, out: map<Path, Path>)
    returns (r: Run)
    requires reqs != []
    ensures DedupRun(env, st, reqs, destD, cfg, out)
            == (if r.res.Err? then r else DedupRun(env, r.st, reqs[1..], destD, cfg, r.res.value))
    ensures r.res.Ok? ==> r.res.value.Keys == out.Keys + (if reqs[0].linkInPlace then {} else {reqs[0].sourceP})
    ensures CopiedSources(reqs) == (if reqs[0].linkInPlace then {} else {reqs[0].sourceP}) + CopiedSources(reqs[1..])
  {
    r := RequestStep(env, st, reqs[0], destD, cfg, out);
    RunUnfold(env, st, reqs, destD, cfg, out);
    if reqs[0].linkInPlace {
      RequestInPlace(env, st, reqs[0], destD, cfg, out);
    } else {
      RequestCopied(env, st, reqs[0], destD, cfg, out);
    }
    CopiedSourcesSplit(reqs);
  }

  lemma KeysCombine(runKeys: set<Path>, rKeys: set<Path>, outKeys: set<Path>, first: set<Path>, rest: set<Path>,
                    all: set<Path>)
    requires rKeys == outKeys + first && runKeys == rKeys + rest && all == first + rest
    ensures runKeys == outKeys + all
  {
  }

  /** `copy_files_deduplicated` returns an entry for exactly the sources
      that were not linked in place. */
  lemma BatchOutputKeys(env: Env, fs: FS, reqs: seq<Copydescriptor>, destD: Path, index: SizeIndex, cfg: Settings)
    ensures var r := DedupBatch(env, fs, reqs, destD, index, cfg);
            r.res.Ok? ==> r.res.value.Keys == CopiedSources(reqs)
  {
    RunOutputKeys(env, Store(fs, index, map[]), reqs, destD, cfg, map[]);
  }

  /** Where a source's contents ended up: a file inside the data directory
      with the size and digest of the source's original contents. */
  ghost predicate Stored(env: Env, fs0: FS, fs: FS, a: Path, s: Path, dataD: Path) {
    && IsFile(fs0, a) && IsFile(fs, s) && StartsWith(s, dataD)
    && |fs[s].data| == |fs0[a].data| && env.hash(fs[s].data) == env.hash(fs0[a].data)
  }

  /** Two contents the engine cannot tell apart: same size and same digest. */
  predicate SameDigest(env: Env, x: Bytes, y: Bytes) {
    |x| == |y| && env.hash(x) == env.hash(y)
  }

  /** What the invariant says about the output: each source's stored file
      holds its contents, and two sources share a stored file exactly when
      their contents have the same size and digest. */
  lemma InvOutput(env: Env, fs0: FS, st: Store, out: map<Path, Path>, cfg: Settings)
    requires BatchInv(env, fs0, st, out, cfg)
    ensures forall a :: a in out ==> Stored(env, fs0, st.fs, a, out[a], cfg.dataD)
    ensures forall a, b :: a in out && b in out ==>
              (out[a] == out[b] <==> SameDigest(env, fs0[a].data, fs0[b].data))
  {
    forall a | a in out
      ensures Stored(env, fs0, st.fs, a, out[a], cfg.dataD)
    {
      MatchSound(env, st.fs, st.sizes, fs0[a].data, cfg.dataD);
    }
  }

  /** `copy_files_deduplicated` deduplicates: when it succeeds, no entry of
      the data directory was changed, no entry was removed, every entry that
      is a file is the file it was (an original file at a destination path may
      have become a link), every copied source is mapped to a
      stored file holding its contents, and two sources are mapped to the
      same stored file exactly when their contents have the same size and
      digest.  This holds when the index of the data directory is sound,
      copies are faithful or verified, and link-in-place requests link
      outside the data directory. */
  lemma BatchDeduplicates(env: Env, fs: FS, reqs: seq<Copydescriptor>, destD: Path, index: SizeIndex, cfg: Settings)
    requires WellFormedDir(cfg.dataD) && (Faithful(env) || cfg.verify)
    requires IndexSound(fs, index, cfg.dataD) && LinksOutside(reqs, destD, cfg.dataD)
    ensures var r := DedupBatch(env, fs, reqs, destD, index, cfg);
            r.res.Ok? ==>
              && KeepsData(fs, r.fs, cfg.dataD) && FilesKept(fs, r.fs)
              && (forall a :: a in r.res.value ==> Stored(env, fs, r.fs, a, r.res.value[a], cfg.dataD))
              && (forall a, b :: a in r.res.value && b in r.res.value ==>
                    (r.res.value[a] == r.res.value[b] <==> SameDigest(env, fs[a].data, fs[b].data)))
  {
    var r := DedupBatch(env, fs, reqs, destD, index, cfg);
    if !StartsWith(destD, cfg.dataD) && SourcesAreFiles(fs, reqs) {
      var st0 := Store(fs, index, map[]);
      assert BatchInv(env, fs, st0, map[], cfg);
      RunPreserves(env, fs, st0, reqs, destD, cfg, map[]);
      var run := DedupRun(env, st0, reqs, destD, cfg, map[]);
      assert r == Outcome(run.st.fs, run.res);
      if run.res.Ok? {
        InvOutput(env, fs, run.st, run.res.value, cfg);
      }
    }
  }

  /** No two contents share a digest: `unhash` recovers every content from
      its digest. */
  ghost predicate CollisionFree(env: Env, unhash: Digest -> Bytes) {
    forall x: Bytes :: unhash(env.hash(x)) == x
  }

  /** With a collision-free digest, two sources share a stored file exactly
      when their contents are equal. */
  lemma BatchSharesEqualContents(env: Env, fs: FS, reqs: seq<Copydescriptor>, destD: Path, index: SizeIndex, cfg: Settings,
                                 unhash: Digest -> Bytes)
    requires WellFormedDir(cfg.dataD) && (Faithful(env) || cfg.verify) && CollisionFree(env, unhash)
    requires IndexSound(fs, index, cfg.dataD) && LinksOutside(reqs, destD, cfg.dataD)
    ensures var r := DedupBatch(env, fs, reqs, destD, index, cfg);
            r.res.Ok? ==>
              forall a, b :: a in r.res.value && b in r.res.value ==>
                IsFile(fs, a) && IsFile(fs, b) && (r.res.value[a] == r.res.value[b] <==> fs[a].data == fs[b].data)
  {
    var r := DedupBatch(env, fs, reqs, destD, index, cfg);
    BatchDeduplicates(env, fs, reqs, destD, index, cfg);
    if r.res.Ok? {
      var out := r.res.value;
      forall a, b | a in out && b in out
        ensures IsFile(fs, a) && IsFile(fs, b) && (out[a] == out[b] <==> fs[a].data == fs[b].data)
      {
        assert Stored(env, fs, r.fs, a, out[a], cfg.dataD) && Stored(env, fs, r.fs, b, out[b], cfg.dataD);
      }
    }
  }
}
