/** Match resolution: for a source file, find a stored file with the same
    contents among the stored files of the same size, comparing digests and
    remembering every digest computed, so that no stored file is read twice
    in one batch. */
module MatchResolver {
  import opened Paths
  import opened FileSystems

  /** `data_sizes`: a file size to the stored files of that size, in the
      order they were added. */
  type SizeIndex = map<nat, seq<Path>>

  /** `cached_md5`: stored file to its digest, filled during one batch. */
  type DigestCache = map<Path, Digest>

  /** `data_sizes[size]`, with a missing size read as no candidates. */
  function Bucket(sizes: SizeIndex, size: nat): (r: seq<Path>)
    ensures size !in sizes ==> r == []
  {
    if size in sizes then sizes[size] else []
  }

  /** `md5_for_file`.  The older engine's version first asserts that the
      path exists; either version fails on anything but a file. */
  function Md5ForFile(env: Env, fs: FS, p: Path, legacy: bool): (r: Result<Digest>)
    ensures r.Ok? <==> IsFile(fs, p)
    ensures r.Ok? ==> r.value == env.hash(fs[p].data)
    ensures r.Err? ==> r.error == if legacy && !Exists(fs, p) then AssertionError else OSError(p)
  {
    if legacy && !Exists(fs, p) then Err(AssertionError) else ReadDigest(env, fs, p)
  }

  /** Every cached digest is the digest of a file's current contents. */
  predicate Consistent(env: Env, fs: FS, cache: DigestCache) {
    forall p :: p in cache ==> IsFile(fs, p) && cache[p] == env.hash(fs[p].data)
  }

  /** The first position of `x` in `s`. */
  function IndexOf(s: seq<Path>, x: Path): (i: nat)
    requires x in s
    ensures i < |s| && s[i] == x
    ensures forall k :: 0 <= k < i ==> s[k] != x
  {
    if s[0] == x then 0 else 1 + IndexOf(s[1..], x)
  }

  /** What a scan leaves behind: the cache, the files it read (in order), and
      the match it found, none, or the error a read raised. */
  datatype ScanResult = ScanResult(cache: DigestCache, hashed: seq<Path>, res: Result<Option<Path>>)

  /** The candidate loop: take each candidate's digest from the cache, or
      read it and cache it; the first candidate whose digest equals `d` wins. */
  function Scan(env: Env, fs: FS, cache: DigestCache, cands: seq<Path>, d: Digest, legacy: bool): (r: ScanResult)
    decreases |cands|
  {
    if cands == [] then ScanResult(cache, [], Ok(None))
    else
      var p := cands[0];
      if p in cache then
        if cache[p] == d then ScanResult(cache, [], Ok(Some(p)))
        else
          Scan(env, fs, cache, cands[1..], d, legacy)
      else
        match Md5ForFile(env, fs, p, legacy)
        case Err(e) => ScanResult(cache, [p], Err(e))
        case Ok(h) =>
          if h == d then ScanResult(cache[p := h], [p], Ok(Some(p)))
          else
            var rest := Scan(env, fs, cache[p := h], cands[1..], d, legacy);
            ScanResult(rest.cache, [p] + rest.hashed, rest.res)
  }

  /** The reference the scan is measured against: the first candidate whose
      current contents have digest `d`, reading every candidate afresh. */
  function FirstMatch(env: Env, fs: FS, cands: seq<Path>, d: Digest, legacy: bool): Result<Option<Path>>
    decreases |cands|
  {
    if cands == [] then Ok(None)
    else
      match Md5ForFile(env, fs, cands[0], legacy)
      case Err(e) => Err(e)
      case Ok(h) => if h == d then Ok(Some(cands[0])) else FirstMatch(env, fs, cands[1..], d, legacy)
  }

  /** The match resolution of `copy_file_deduplicated` for a source that is
      a file: with no stored file of the source's size nothing is read at
      all; otherwise the source is read once, then the candidates are scanned. */
  function ResolvedMatch(env: Env, fs: FS, sizes: SizeIndex, cache: DigestCache, sourceP: Path): (r: ScanResult)
    requires IsFile(fs, sourceP)
  {
    var bucket := Bucket(sizes, |fs[sourceP].data|);
    if bucket == [] then ScanResult(cache, [], Ok(None))
    else
      var s := Scan(env, fs, cache, bucket, env.hash(fs[sourceP].data), false);
      ScanResult(s.cache, [sourceP] + s.hashed, s.res)
  }

  /** The older engine's match resolution: the source is read for its digest
      whether or not any stored file has its size. */
  function LegacyResolvedMatch(env: Env, fs: FS, sizes: SizeIndex, cache: DigestCache, sourceP: Path): (r: ScanResult)
    requires IsFile(fs, sourceP)
  {
    var s := Scan(env, fs, cache, Bucket(sizes, |fs[sourceP].data|), env.hash(fs[sourceP].data), true);
    ScanResult(s.cache, [sourceP] + s.hashed, s.res)
  }

  /** The per-batch state the engines thread through their loops: the size
      index and the digest cache. */
  class BatchState {
    var sizes: SizeIndex
    var md5: DigestCache

    constructor (sizes: SizeIndex)
      ensures this.sizes == sizes && this.md5 == map[]
    {
      this.sizes := sizes;
      this.md5 := map[];
    }
  }

  /** The candidate loop on the batch's cache: `for possible_match_p in
      possible_matches_p`, with the `try`/`except KeyError` cache fill and
      the `break` on the first equal digest.  `hashed` lists the files read. */
  method FindMatch(fs: FileSystem, batch: BatchState, cands: seq<Path>, d: Digest, legacy: bool)
    returns (matched: Result<Option<Path>>, ghost hashed: seq<Path>)
    modifies batch
    ensures ScanResult(batch.md5, hashed, matched) == Scan(fs.env, fs.entries, old(batch.md5), cands, d, legacy)
    ensures batch.sizes == old(batch.sizes)
  {
    var env, entries := fs.env, fs.entries;
    ghost var goal := Scan(env, entries, batch.md5, cands, d, legacy);
    hashed := [];
    var i := 0;
    while i < |cands|
      invariant 0 <= i <= |cands|
      invariant batch.sizes == old(batch.sizes)
      invariant Resumes(goal, hashed, Scan(env, entries, batch.md5, cands[i..], d, legacy))
    {
      var p := cands[i];
      ScanStep(env, entries, batch.md5, cands[i..], d, legacy);
      assert cands[i..][1..] == cands[i + 1..];
      ghost var before := hashed;
      var h, read := CachedDigest(fs, batch, p, legacy);
      if read {
        hashed := hashed + [p];
      }
      if h.Err? {
        return Err(h.error), hashed;
      }
      if h.value == d {
        return Ok(Some(p)), hashed;
      }
      if read {
        ResumeAfterRead(goal, before, p, Scan(env, entries, batch.md5, cands[i + 1..], d, legacy));
      }
      i := i + 1;
    }
    return Ok(None), hashed;
  }

  /** The `try`/`except KeyError` block: the cached digest of `p`, or else a
      fresh read, cached when it succeeds.  `read` tells whether the file was read. */
  method CachedDigest(fs: FileSystem, batch: BatchState, p: Path, legacy: bool)
    returns (h: Result<Digest>, ghost read: bool)
    modifies batch
    ensures batch.sizes == old(batch.sizes)
    ensures p in old(batch.md5) ==> !read && h == Ok(old(batch.md5)[p]) && batch.md5 == old(batch.md5)
    ensures p !in old(batch.md5) ==>
              && read && h == Md5ForFile(fs.env, fs.entries, p, legacy)
              && batch.md5 == if h.Ok? then old(batch.md5)[p := h.value] else old(batch.md5)
  {
    if p in batch.md5 {
      return Ok(batch.md5[p]), false;
    }
    h := Md5ForFile(fs.env, fs.entries, p, legacy);
    if h.Ok? {
      batch.md5 := batch.md5[p := h.value];
    }
    return h, true;
  }

  /** The whole scan `goal` is what is left to scan, `rest`, after the files
      in `hashed` were read. */
  predicate Resumes(goal: ScanResult, hashed: seq<Path>, rest: ScanResult) {
    goal == ScanResult(rest.cache, hashed + rest.hashed, rest.res)
  }

  /** Reading one more file moves it from what is left to what was read. */
  lemma ResumeAfterRead(goal: ScanResult, hashed: seq<Path>, p: Path, rest: ScanResult)
    requires Resumes(goal, hashed, ScanResult(rest.cache, [p] + rest.hashed, rest.res))
    ensures Resumes(goal, hashed + [p], rest)
  {
    assert hashed + ([p] + rest.hashed) == (hashed + [p]) + rest.hashed;
  }

  /** One turn of the candidate loop, as the scan defines it. */
  lemma ScanStep(env: Env, fs: FS, cache: DigestCache, cands: seq<Path>, d: Digest, legacy: bool)
    requires cands != []
    ensures var p := cands[0];
            var r := Scan(env, fs, cache, cands, d, legacy);
            if p in cache then
              r == (if cache[p] == d then ScanResult(cache, [], Ok(Some(p)))
                    else Scan(env, fs, cache, cands[1..], d, legacy))
            else if !IsFile(fs, p) then
              r == ScanResult(cache, [p], Err(Md5ForFile(env, fs, p, legacy).error))
            else
              var h := env.hash(fs[p].data);
              r == if h == d then ScanResult(cache[p := h], [p], Ok(Some(p)))
                   else var rest := Scan(env, fs, cache[p := h], cands[1..], d, legacy);
                        ScanResult(rest.cache, [p] + rest.hashed, rest.res)
  {
  }

  // ---------------------------------------------------------------------------
  // Lemmas

  /** Every candidate before the first occurrence of `m` is cached with a
      digest other than `d`. */
  predicate ExaminedBefore(cands: seq<Path>, m: Path, c: DigestCache, d: Digest)
    requires m in cands
  {
    forall k :: 0 <= k < IndexOf(cands, m) ==> cands[k] in c && c[cands[k]] != d
  }

  /** A differing first candidate extends what was examined before `m`. */
  lemma ExaminedShift(cands: seq<Path>, m: Path, c: DigestCache, d: Digest)
    requires cands != [] && cands[0] in c && c[cands[0]] != d
    requires m in cands[1..] && m in c && c[m] == d
    requires ExaminedBefore(cands[1..], m, c, d)
    ensures m in cands && ExaminedBefore(cands, m, c, d)
  {
    assert cands[0] != m;
    assert IndexOf(cands, m) == 1 + IndexOf(cands[1..], m);
    forall k | 1 <= k < IndexOf(cands, m)
      ensures cands[k] in c && c[cands[k]] != d
    {
      assert cands[k] == cands[1..][k - 1];
    }
  }

  /** A match is a candidate whose digest is `d`, and every candidate before
      its first occurrence was examined and differs. */
  lemma {:induction false} ScanFound(env: Env, fs: FS, cache: DigestCache, cands: seq<Path>, d: Digest, legacy: bool)
    ensures var r := Scan(env, fs, cache, cands, d, legacy);
            r.res.Ok? && r.res.value.Some? ==>
              var m := r.res.value.value;
              m in cands && m in r.cache && r.cache[m] == d && ExaminedBefore(cands, m, r.cache, d)
    decreases |cands|
  {
    if cands != [] {
      var p := cands[0];
      var r := Scan(env, fs, cache, cands, d, legacy);
      if p in cache && cache[p] != d {
        ScanFound(env, fs, cache, cands[1..], d, legacy);
        ScanExtends(env, fs, cache, cands[1..], d, legacy);
        if r.res.Ok? && r.res.value.Some? {
          ExaminedShift(cands, r.res.value.value, r.cache, d);
        }
      } else if p !in cache && IsFile(fs, p) && env.hash(fs[p].data) != d {
        ScanFound(env, fs, cache[p := env.hash(fs[p].data)], cands[1..], d, legacy);
        ScanExtends(env, fs, cache[p := env.hash(fs[p].data)], cands[1..], d, legacy);
        if r.res.Ok? && r.res.value.Some? {
          ExaminedShift(cands, r.res.value.value, r.cache, d);
        }
      }
    }
  }

  /** No match means every candidate was examined and differs. */
  lemma {:induction false} ScanNotFound(env: Env, fs: FS, cache: DigestCache, cands: seq<Path>, d: Digest, legacy: bool)
    ensures var r := Scan(env, fs, cache, cands, d, legacy);
            r.res == Ok(None) ==> forall k :: 0 <= k < |cands| ==> cands[k] in r.cache && r.cache[cands[k]] != d
    decreases |cands|
  {
    if cands != [] {
      var p := cands[0];
      var r := Scan(env, fs, cache, cands, d, legacy);
      if (p in cache && cache[p] != d) || (p !in cache && IsFile(fs, p) && env.hash(fs[p].data) != d) {
        var c' := if p in cache then cache else cache[p := env.hash(fs[p].data)];
        ScanNotFound(env, fs, c', cands[1..], d, legacy);
        ScanExtends(env, fs, c', cands[1..], d, legacy);
        if r.res == Ok(None) {
          forall k | 1 <= k < |cands|
            ensures cands[k] in r.cache && r.cache[cands[k]] != d
          {
            assert cands[k] == cands[1..][k - 1];
          }
        }
      }
    }
  }

  /** An error means some uncached candidate is not a file. */
  lemma {:induction false} ScanFailed(env: Env, fs: FS, cache: DigestCache, cands: seq<Path>, d: Digest, legacy: bool)
    ensures var r := Scan(env, fs, cache, cands, d, legacy);
            r.res.Err? ==> exists k :: 0 <= k < |cands| && cands[k] !in cache && !IsFile(fs, cands[k])
    decreases |cands|
  {
    if cands != [] {
      var p := cands[0];
      var r := Scan(env, fs, cache, cands, d, legacy);
      if (p in cache && cache[p] != d) || (p !in cache && IsFile(fs, p) && env.hash(fs[p].data) != d) {
        var c' := if p in cache then cache else cache[p := env.hash(fs[p].data)];
        ScanFailed(env, fs, c', cands[1..], d, legacy);
        if r.res.Err? {
          var k :| 0 <= k < |cands[1..]| && cands[1..][k] !in c' && !IsFile(fs, cands[1..][k]);
          assert cands[k + 1] !in cache;
        }
      } else if p !in cache && !IsFile(fs, p) {
        assert cands[0] !in cache && !IsFile(fs, cands[0]);
      }
    }
  }

  /** With a consistent cache the scan finds exactly what reading every
      candidate afresh finds: the cache saves reads and changes no answer. */
  lemma {:induction false} ScanAgrees(env: Env, fs: FS, cache: DigestCache, cands: seq<Path>, d: Digest, legacy: bool)
    requires Consistent(env, fs, cache)
    ensures Scan(env, fs, cache, cands, d, legacy).res == FirstMatch(env, fs, cands, d, legacy)
    decreases |cands|
  {
    if cands != [] {
      var p := cands[0];
      if p in cache {
        if cache[p] != d {
          ScanAgrees(env, fs, cache, cands[1..], d, legacy);
        }
      } else if IsFile(fs, p) {
        var h := env.hash(fs[p].data);
        if h != d {
          ScanAgrees(env, fs, cache[p := h], cands[1..], d, legacy);
        }
      }
    }
  }

  /** A scan only adds to the cache, and only the true digests of candidate
      files. */
  lemma {:induction false} ScanExtends(env: Env, fs: FS, cache: DigestCache, cands: seq<Path>, d: Digest, legacy: bool)
    ensures var r := Scan(env, fs, cache, cands, d, legacy);
            && (forall p :: p in cache ==> p in r.cache && r.cache[p] == cache[p])
            && (forall p :: p in r.cache && p !in cache ==> p in cands && IsFile(fs, p) && r.cache[p] == env.hash(fs[p].data))
    decreases |cands|
  {
    if cands != [] {
      var p := cands[0];
      if p in cache {
        if cache[p] != d {
          ScanExtends(env, fs, cache, cands[1..], d, legacy);
        }
      } else if IsFile(fs, p) {
        var h := env.hash(fs[p].data);
        if h != d {
          ScanExtends(env, fs, cache[p := h], cands[1..], d, legacy);
        }
      }
    }
  }

  /** A scan reads only uncached candidates, and after a scan that did not
      fail every file it read is cached. */
  lemma {:induction false} ScanReads(env: Env, fs: FS, cache: DigestCache, cands: seq<Path>, d: Digest, legacy: bool)
    ensures var r := Scan(env, fs, cache, cands, d, legacy);
            && (forall k :: 0 <= k < |r.hashed| ==> r.hashed[k] in cands && r.hashed[k] !in cache)
            && (r.res.Ok? ==> forall k :: 0 <= k < |r.hashed| ==> r.hashed[k] in r.cache)
    decreases |cands|
  {
    if cands != [] {
      var p := cands[0];
      if p in cache {
        if cache[p] != d {
          ScanReads(env, fs, cache, cands[1..], d, legacy);
        }
      } else if IsFile(fs, p) {
        var h := env.hash(fs[p].data);
        if h != d {
          ScanReads(env, fs, cache[p := h], cands[1..], d, legacy);
          ScanExtends(env, fs, cache[p := h], cands[1..], d, legacy);
          var rest := Scan(env, fs, cache[p := h], cands[1..], d, legacy);
          forall k | 1 <= k < |[p] + rest.hashed|
            ensures ([p] + rest.hashed)[k] == rest.hashed[k - 1]
          {
          }
        }
      }
    }
  }

  /** A match is a candidate that is a file with digest `d`. */
  lemma {:induction false} FirstMatchFound(env: Env, fs: FS, cands: seq<Path>, d: Digest, legacy: bool)
    ensures var r := FirstMatch(env, fs, cands, d, legacy);
            r.Ok? && r.value.Some? ==>
              r.value.value in cands && IsFile(fs, r.value.value) && env.hash(fs[r.value.value].data) == d
    decreases |cands|
  {
    if cands != [] && IsFile(fs, cands[0]) && env.hash(fs[cands[0]].data) != d {
      FirstMatchFound(env, fs, cands[1..], d, legacy);
    }
  }

  /** The answer depends only on the candidates' entries. */
  lemma {:induction false} FirstMatchFrame(env: Env, fs: FS, fs': FS, cands: seq<Path>, d: Digest, legacy: bool)
    requires forall k :: 0 <= k < |cands| ==> cands[k] in fs && cands[k] in fs' && fs'[cands[k]] == fs[cands[k]]
    ensures FirstMatch(env, fs', cands, d, legacy) == FirstMatch(env, fs, cands, d, legacy)
    decreases |cands|
  {
    if cands != [] {
      assert cands[0] in fs && fs'[cands[0]] == fs[cands[0]];
      forall k | 0 <= k < |cands[1..]|
        ensures cands[1..][k] in fs && cands[1..][k] in fs' && fs'[cands[1..][k]] == fs[cands[1..][k]]
      {
        assert cands[1..][k] == cands[k + 1];
      }
      FirstMatchFrame(env, fs, fs', cands[1..], d, legacy);
    }
  }

  /** A candidate added at the end does not change a match already found. */
  lemma {:induction false} FirstMatchAppendSome(env: Env, fs: FS, cands: seq<Path>, x: Path, d: Digest, legacy: bool)
    requires FirstMatch(env, fs, cands, d, legacy).Ok? && FirstMatch(env, fs, cands, d, legacy).value.Some?
    ensures FirstMatch(env, fs, cands + [x], d, legacy) == FirstMatch(env, fs, cands, d, legacy)
    decreases |cands|
  {
    assert (cands + [x])[0] == cands[0];
    assert (cands + [x])[1..] == cands[1..] + [x];
    if IsFile(fs, cands[0]) && env.hash(fs[cands[0]].data) != d {
      FirstMatchAppendSome(env, fs, cands[1..], x, d, legacy);
    }
  }

  /** Where there was no match, a file with digest `d` added at the end is the match. */
  lemma {:induction false} FirstMatchAppendNone(env: Env, fs: FS, cands: seq<Path>, x: Path, d: Digest, legacy: bool)
    requires FirstMatch(env, fs, cands, d, legacy) == Ok(None)
    requires IsFile(fs, x) && env.hash(fs[x].data) == d
    ensures FirstMatch(env, fs, cands + [x], d, legacy) == Ok(Some(x))
    decreases |cands|
  {
    if cands == [] {
      assert [] + [x] == [x];
      assert [x][1..] == [];
    } else {
      assert (cands + [x])[0] == cands[0];
      assert (cands + [x])[1..] == cands[1..] + [x];
      FirstMatchAppendNone(env, fs, cands[1..], x, d, legacy);
    }
  }

  /** A scan keeps the cache consistent. */
  lemma ScanConsistent(env: Env, fs: FS, cache: DigestCache, cands: seq<Path>, d: Digest, legacy: bool)
    requires Consistent(env, fs, cache)
    ensures Consistent(env, fs, Scan(env, fs, cache, cands, d, legacy).cache)
  {
    ScanExtends(env, fs, cache, cands, d, legacy);
  }

  /** No stored file of the source's size: no file is read, no match. */
  lemma EmptyBucketReadsNothing(env: Env, fs: FS, sizes: SizeIndex, cache: DigestCache, sourceP: Path)
    requires IsFile(fs, sourceP) && Bucket(sizes, |fs[sourceP].data|) == []
    ensures ResolvedMatch(env, fs, sizes, cache, sourceP) == ScanResult(cache, [], Ok(None))
  {
  }

  /** Otherwise the source is the first file read, and the verdict is the
      first stored file with the source's digest. */
  lemma ResolvedMatchFirst(env: Env, fs: FS, sizes: SizeIndex, cache: DigestCache, sourceP: Path)
    requires IsFile(fs, sourceP) && Consistent(env, fs, cache)
    ensures var r := ResolvedMatch(env, fs, sizes, cache, sourceP);
            var bucket := Bucket(sizes, |fs[sourceP].data|);
            && r.res == FirstMatch(env, fs, bucket, env.hash(fs[sourceP].data), false)
            && (bucket != [] ==> r.hashed[0] == sourceP)
            && Consistent(env, fs, r.cache)
  {
    var bucket := Bucket(sizes, |fs[sourceP].data|);
    ScanAgrees(env, fs, cache, bucket, env.hash(fs[sourceP].data), false);
    ScanConsistent(env, fs, cache, bucket, env.hash(fs[sourceP].data), false);
  }

  /** The older engine always reads the source first. */
  lemma LegacyReadsSource(env: Env, fs: FS, sizes: SizeIndex, cache: DigestCache, sourceP: Path)
    requires IsFile(fs, sourceP)
    ensures var r := LegacyResolvedMatch(env, fs, sizes, cache, sourceP);
            r.hashed != [] && r.hashed[0] == sourceP
  {
  }

  /** A stored file read by one scan is not read again by the next one on
      the cache the first left behind. */
  lemma ReadOnce(env: Env, fs: FS, fs': FS, cache: DigestCache, c1: seq<Path>, c2: seq<Path>,
                 d1: Digest, d2: Digest, legacy: bool)
    requires Scan(env, fs, cache, c1, d1, legacy).res.Ok?
    ensures var s1 := Scan(env, fs, cache, c1, d1, legacy);
            var s2 := Scan(env, fs', s1.cache, c2, d2, legacy);
            forall i, j :: 0 <= i < |s1.hashed| && 0 <= j < |s2.hashed| ==> s1.hashed[i] != s2.hashed[j]
  {
    ScanReads(env, fs, cache, c1, d1, legacy);
    var s1 := Scan(env, fs, cache, c1, d1, legacy);
    ScanReads(env, fs', s1.cache, c2, d2, legacy);
  }
}
