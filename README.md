# bvzversionedfiles — a verified model of the deduplicating store

bvzversionedfiles copies files into a shared *data directory*. That directory
holds one stored file per distinct content. In the destination tree it leaves a
symlink that points at the stored file.

- A stored file is named from the destination's last component plus a
  zero-padded version number (`name.v0001.ext`). That version is the smallest
  one not already taken, so a new copy never overwrites an existing one.
- Before storing anything, the engine looks the source up in a *size index*
  (file size → data files of that size). It then compares MD5 digests against
  the candidates in index order, using a per-batch digest cache.
- If a candidate has the same digest, that candidate is reused.

This project models, on an abstract filesystem:

- the newer engine (`src/bvzversionedfiles/bvzversionedfiles.py`);
- the older single-file engine (`src/bvzversionedfiles.py`);
- the request value object (`src/bvzversionedfiles/copydescriptor.py`).

It then proves what the code promises about them.

## Structure

| module (file) | what it holds |
|---|---|
| `Paths` (`paths.dfy`) | POSIX path strings: `os.path.join`, `split`, `basename`, `splitext`, the `rstrip(os.sep)` idiom, and `relpath` over normalised component sequences (common prefix, then `..`), with the current directory as a parameter. |
| `Decimal` (`decimal.dfy`) | `str(v)` for naturals and `str.rjust` with a fill character, with the digit value read back. |
| `FileSystems` (`filesystem.dfy`) | The filesystem as `map<Path, Entry>`, where an entry is a file (bytes and mode), a directory or a symlink (target text). Also the syscalls used (`getsize`, `shutil.copy`, `makedirs(exist_ok=True)`, `unlink`, `symlink`, `chmod`), `files_are_identical` and `verified_copy_file`, and a `FileSystem` class whose `entries` field the imperative methods update. |
| `CopyDescriptors` (`copydescriptor.dfy`) | `Copydescriptor` and the two list builders. |
| `VersionedNamer` (`namer.dfy`) | The versioned-name scheme of `copy_and_add_ver_num`: its search loop as a method, and the free-version search as a function. |
| `MatchResolver` (`resolver.dfy`) | Candidate lookup. A `BatchState` class holds the size index and digest cache the batch mutates. The candidate scan is a method with a loop, and a reference "first candidate with an equal digest" function. |
| `DedupEngine` (`engine.dfy`) | `copy_file_deduplicated` and `copy_files_deduplicated` as methods over `FileSystem` and `BatchState`, each proved equal to a specification function. |
| `DedupProperties` (`dedup_properties.dfy`) | The batch-level theorems: the data directory is never overwritten, the cache stays consistent, equal contents share one stored file, and the output keys are exactly the copied sources. |
| `LegacyEngine` (`legacy.dfy`) | The older engine, modelled separately: assertions as `AssertionError`, flat links, `chmod 0o644`, indexing the source path, and returning a bare path or a list. |

Some parts of the program are parameters of the model, carried by `Env`:

- `hash` stands in for MD5;
- `transfer` is what a copy actually writes, so a failed verified copy is
  reachable (`Faithful(env)` says it is the identity);
- `cwd` is the current directory that `relpath` resolves against;
- `follow` says which path a link leads to, given the link's own path and its
  text. The host decides this. `LexicalLinks(env)` is the lexical reading: the
  text is read from the link's directory and spelled as `abspath` spells it
  (`LinkDestination`).

The size index that `bvzfilesystemlib.dir_files_keyed_by_size` builds is an input.

Each imperative method is proved to leave exactly the state, and return exactly
the result, that its specification function describes. The lemmas then state
the program's promises about those functions. Where the written description of
the program and the code disagree, the model follows the code:

- `Copydescriptor` checks only that the source exists, not that it is a
  regular file (`src/bvzversionedfiles/copydescriptor.py:25-26`). The check
  is an error result of `NewCopydescriptor`, not a precondition, because the
  code raises `ValueError`.
- A link-in-place request links to `source_p` exactly as given (lines 366-369
  of the newer engine); nothing makes the target absolute.
- The pre-mutation source checks of the newer engine format an undefined
  name `source_p` (lines 340-345). The error raised is therefore a
  `NameError`, modelled as `NameError("source_p")`, and nothing has been
  changed when it is raised.

## Model

| member | source | states |
|---|---|---|
| Paths.Join | src/bvzversionedfiles/bvzversionedfiles.py:139 | An absolute second part replaces the first; otherwise the parts are glued with exactly one `/` unless the first already ends in one. |
| Paths.Split | src/bvzversionedfiles/bvzversionedfiles.py:132 | The tail has no separator, the head is a prefix of the path, the two together are no longer than the path, and a separator-free path splits into `("", path)`. |
| Paths.SplitHead | src/bvzversionedfiles/bvzversionedfiles.py:132 | The tail is exactly everything after the last `/` and is a suffix of the path; `basename` is that tail. The head is everything before it, with trailing `/` removed unless it is made of `/` only. Only separators lie between head and tail, and the head ends in a non-separator unless it is all separators. |
| Paths.LastEndAfter | src/bvzversionedfiles/bvzversionedfiles.py:132-133 | The searched character (`/` for `split`, `.` for `splitext`) does not occur after the position where the path is cut. |
| Paths.SplitExt | src/bvzversionedfiles/bvzversionedfiles.py:133 | Base + extension is the name. The extension is empty or a single trailing `.xyz` with no further dot or separator. One is split off only when a non-dot character precedes it in the last component, so `.bashrc` has none. |
| Paths.RStripSep | src/bvzversionedfiles.py:266 | The result is a prefix of the input that does not end in `/`, and only `/` characters were removed. |
| Paths.Basename | src/bvzversionedfiles.py:267 | The base name never contains a separator; `SplitHead` pins it to everything after the last `/`. |
| Paths.SplitJoin | src/bvzversionedfiles/bvzversionedfiles.py:460-462 | Splitting `join(d, n)` for a separator-free `n` gives back `(d, n)`. |
| Paths.RelPathResolves | src/bvzversionedfiles/bvzversionedfiles.py:474 | `relpath(path, start)` is always defined for a non-empty path. Joining it onto `start` reaches the same absolute, normalised location as `path`. |
| Paths.AbsPartsChild | src/bvzversionedfiles.py:267-268 | Joining a normal component onto a path adds exactly that component to its normalised absolute parts. |
| Paths.RelLinkResolves | src/bvzversionedfiles.py:266-270 | The legacy link text `join(relpath(data_d, d), b)`, read from `d`, names the same location as `join(data_d, b)`. |
| Paths.SplitLinkHead | src/bvzversionedfiles.py:269-271 | The directory part of `join(d, name)` is `d` when `d` has no trailing `/` (an empty `d` included). |
| Paths.RelTextParts | src/bvzversionedfiles/bvzversionedfiles.py:474 | The text `relpath` builds is relative and its components are the `..` steps up from `start` followed by the steps down to `path`. |
| Decimal.Str | src/bvzversionedfiles/bvzversionedfiles.py:138 | `str(v)` is a non-empty digit string without a leading zero for `v > 0`, one character long exactly when `v < 10`. |
| Decimal.ValueStr | src/bvzversionedfiles/bvzversionedfiles.py:138 | Reading the digits of `str(v)` gives back `v`. |
| Decimal.RJust | src/bvzversionedfiles/bvzversionedfiles.py:138 | `rjust` pads on the left with the fill character up to the width and never truncates a longer string. |
| Decimal.PaddedValue | src/bvzversionedfiles/bvzversionedfiles.py:138 | The zero-padded version string reads back as `v` for every width, including numbers longer than the width. |
| Decimal.PaddedInjective | src/bvzversionedfiles/bvzversionedfiles.py:138 | Two versions with the same padded text are the same version. |
| FileSystems.Size | src/bvzversionedfiles/bvzversionedfiles.py:432 | `getsize` of a path already known to be a regular file: it succeeds exactly there and returns the content length. |
| FileSystems.AbsPath | src/bvzversionedfiles.py:268 | `abspath` spells every path as `/` followed by its normalised components. |
| FileSystems.Resolve | src/bvzversionedfiles.py:274 | Following links (each to where `Env.follow` says), at most the given number of them, ends on a non-link entry or fails. A non-link entry resolves to itself, a missing one to nothing (the root to a directory), and a file reached is an entry of the filesystem. |
| FileSystems.GetSize | src/bvzversionedfiles.py:274 | `getsize` follows links until it reaches a non-link entry, giving up only once the chain has taken as many steps as there are entries, which only a cycle can. On a regular file it is `Size`; a missing path or a directory fails; a success is the size of some regular file. |
| FileSystems.GetSizeFollows | src/bvzversionedfiles.py:274 | Through a link whose target names a regular file, `getsize` gives that file's size. |
| FileSystems.GetSizeDangling | src/bvzversionedfiles.py:274 | Through a dangling link, `getsize` fails. |
| FileSystems.FlatLinkLeadsTo | src/bvzversionedfiles.py:264-271 | A legacy flat link made in `d` to `basename(stored)` leads back to `stored` when `stored` is the `abspath` spelling of that entry of `data_d`. |
| FileSystems.ReadDigest | src/bvzversionedfiles/bvzversionedfiles.py:28-36 | Reading a digest succeeds exactly on regular files and yields the hash of the whole content. |
| FileSystems.CopyFile | src/bvzversionedfiles/bvzversionedfiles.py:148 | `shutil.copy` succeeds exactly when the source is a file, distinct from the target, the target's parent is a directory and the target is absent or a file. Afterwards the target alone holds the transferred bytes with the source's mode. |
| FileSystems.MakeDir | src/bvzversionedfiles/bvzversionedfiles.py:470 | One `mkdir` with `exist_ok` leaves a directory there and either changes nothing or adds that one directory. |
| FileSystems.MakeDirsAddsOnlyDirs | src/bvzversionedfiles/bvzversionedfiles.py:470 | `makedirs(exist_ok=True)` keeps every existing entry and only adds directories. |
| FileSystems.MakeDirsMakesDir | src/bvzversionedfiles/bvzversionedfiles.py:470 | After a successful `makedirs` the requested directory exists (a trailing `.` component aside). |
| FileSystems.Unlink | src/bvzversionedfiles/bvzversionedfiles.py:477 | `unlink` succeeds exactly on a non-directory entry and removes only it. |
| FileSystems.Symlink | src/bvzversionedfiles/bvzversionedfiles.py:478 | `symlink` succeeds exactly when nothing is at the path and its parent is a directory, and adds only that link. |
| FileSystems.Chmod | src/bvzversionedfiles.py:262 | `chmod` succeeds exactly on a regular file and changes only its mode. |
| FileSystems.ReplaceWithLink | src/bvzversionedfiles/bvzversionedfiles.py:476-478 | Unlink-if-exists then symlink succeeds exactly when the parent is a directory, the path is not the root and is not a directory. The result has the link at the path and is otherwise unchanged. |
| FileSystems.ParentUnaffected | src/bvzversionedfiles/bvzversionedfiles.py:476-478 | Unlinking a non-directory does not change whether its parent is a directory, so the symlink that follows sees the same parent. |
| FileSystems.FilesAreIdentical | src/bvzversionedfiles/bvzversionedfiles.py:63-68 | Different sizes give False and read no file. Equal sizes read both files and give exactly whether their digests are equal. |
| FileSystems.VerifiedCopyFile | src/bvzversionedfiles/bvzversionedfiles.py:91-95 | A failed copy changes nothing. A successful copy stays in place; the result is `IOError` naming `src --> dst` exactly when the written bytes differ from the source's in size or in digest. |
| FileSystems.CheckCopy | src/bvzversionedfiles/bvzversionedfiles.py:93-95 | The post-copy comparison fails exactly when the transferred bytes differ from the source's in size or in digest. |
| CopyDescriptors.NewCopydescriptor | src/bvzversionedfiles/copydescriptor.py:13-30 | Construction succeeds exactly when the source exists, stores the three fields verbatim (link-in-place defaulting to false), and otherwise raises `ValueError` naming the source. |
| CopyDescriptors.SingleFileToCopydescriptors | src/bvzversionedfiles/bvzversionedfiles.py:180-187 | Yields exactly one descriptor with destination `join(relative_d, dest_n)`, or the constructor's error. |
| CopyDescriptors.FileListSucceeds | src/bvzversionedfiles/bvzversionedfiles.py:213-218 | The list builder succeeds exactly when every item exists. |
| CopyDescriptors.FileListContents | src/bvzversionedfiles/bvzversionedfiles.py:210-218 | A successful build is the item list mapped through the per-item descriptor. |
| CopyDescriptors.FileListItems | src/bvzversionedfiles/bvzversionedfiles.py:210-218 | One descriptor per item, in input order. Each has destination `join(relative_d or "", basename(item))` and the shared link-in-place flag. |
| CopyDescriptors.FileListFails | src/bvzversionedfiles/bvzversionedfiles.py:213-218 | A failure reports the first missing item and every earlier item exists. |
| CopyDescriptors.FileListToCopydescriptors | src/bvzversionedfiles/bvzversionedfiles.py:190-220 | The appending loop returns what the list builder specifies. |
| VersionedNamer.SchemeFor | src/bvzversionedfiles/bvzversionedfiles.py:132-133 | The name scheme keeps the destination's directory, and base + extension is its last component. |
| VersionedNamer.FreeVersion | src/bvzversionedfiles/bvzversionedfiles.py:135-143 | The search returns the first version at or after its start whose path does not exist; every earlier version's path exists. |
| VersionedNamer.FreePathLeast | src/bvzversionedfiles/bvzversionedfiles.py:135-143 | The chosen path does not exist, its version is at least 1 and every smaller version is taken. |
| VersionedNamer.TakenVersionsBounded | src/bvzversionedfiles/bvzversionedfiles.py:136-143 | A run of taken versions is no longer than the number of existing paths, so the `while True` loop ends. |
| VersionedNamer.VersionsBounded | src/bvzversionedfiles/bvzversionedfiles.py:136-143 | Versions `1..v-1` mapped into a finite set of paths need at least `v-1` of its elements. |
| VersionedNamer.TakenVersionsExtend | src/bvzversionedfiles/bvzversionedfiles.py:141-143 | Skipping an existing version keeps "all earlier versions are taken" true one step further. |
| VersionedNamer.VersionedNameInjective | src/bvzversionedfiles/bvzversionedfiles.py:138-139 | Different versions give different file names under the same scheme. |
| VersionedNamer.VersionedPathInjective | src/bvzversionedfiles/bvzversionedfiles.py:139 | Different versions give different paths. |
| VersionedNamer.VersionedPathNotRoot | src/bvzversionedfiles/bvzversionedfiles.py:139 | A versioned path is never the root. |
| VersionedNamer.VersionedPathInDir | src/bvzversionedfiles/bvzversionedfiles.py:139 | A versioned path lies inside the scheme's directory. |
| VersionedNamer.FreePathInDir | src/bvzversionedfiles/bvzversionedfiles.py:460-465 | A copy stored under `join(data_d, name)` lands inside `data_d`. |
| VersionedNamer.CopyTo | src/bvzversionedfiles/bvzversionedfiles.py:145-150 | A successful copy returns the path it wrote. |
| VersionedNamer.CopyToEffect | src/bvzversionedfiles/bvzversionedfiles.py:145-150 | Copying to a free path writes exactly that path when the source is a file and the parent a directory. Verification fails exactly on a mismatching transfer; otherwise nothing changes and the copy error is reported. |
| VersionedNamer.CopyToKeepsEntries | src/bvzversionedfiles/bvzversionedfiles.py:145-150 | Copying to a free path keeps every existing entry and on success adds exactly that path. |
| VersionedNamer.VersionedCopyKeepsEntries | src/bvzversionedfiles/bvzversionedfiles.py:132-150 | `copy_and_add_ver_num` never overwrites: the chosen path was absent, every existing entry is unchanged, and success adds exactly the returned path. |
| VersionedNamer.CopyAndAddVerNum | src/bvzversionedfiles/bvzversionedfiles.py:99-150 | The search-then-copy loop leaves the filesystem and result of the versioned-copy specification. |
| MatchResolver.Bucket | src/bvzversionedfiles/bvzversionedfiles.py:435-438 | A size missing from the index gives an empty candidate list. |
| MatchResolver.Md5ForFile | src/bvzversionedfiles/bvzversionedfiles.py:11-36 | Hashing succeeds exactly on regular files with the hash of the content. Otherwise it is an `OSError`, or the legacy `AssertionError` when the path does not exist. |
| MatchResolver.BatchState.constructor | src/bvzversionedfiles/bvzversionedfiles.py:349-350 | A batch starts with the given size index and an empty digest cache. |
| MatchResolver.CachedDigest | src/bvzversionedfiles/bvzversionedfiles.py:447-451 | A cached digest is returned without reading. A missing one is read, and only a successful read is added to the cache. |
| MatchResolver.FindMatch | src/bvzversionedfiles/bvzversionedfiles.py:445-455 | The candidate loop leaves the cache, the files read and the result of the scan specification, and keeps the size index. |
| MatchResolver.ScanStep | src/bvzversionedfiles/bvzversionedfiles.py:445-455 | One scan step: a cached candidate is compared without reading; an uncached one is read (a non-file fails), cached, then compared. |
| MatchResolver.ScanFound | src/bvzversionedfiles/bvzversionedfiles.py:447-455 | A match is a candidate cached with the source's digest, and every candidate before it is cached with a different digest. |
| MatchResolver.ScanNotFound | src/bvzversionedfiles/bvzversionedfiles.py:447-455 | No match means every candidate is now cached with a different digest. |
| MatchResolver.ScanFailed | src/bvzversionedfiles/bvzversionedfiles.py:450 | A failed scan met an uncached candidate that is not a regular file. |
| MatchResolver.ScanExtends | src/bvzversionedfiles/bvzversionedfiles.py:447-451 | The cache is only extended, never overwritten; each new entry is a candidate's true digest. |
| MatchResolver.ScanReads | src/bvzversionedfiles/bvzversionedfiles.py:447-451 | Only uncached candidates are read, and after a successful scan everything read is cached. |
| MatchResolver.ScanConsistent | src/bvzversionedfiles/bvzversionedfiles.py:447-451 | A scan keeps every cache entry equal to its file's digest. |
| MatchResolver.ScanAgrees | src/bvzversionedfiles/bvzversionedfiles.py:443-455 | With a consistent cache, the cached scan gives the same answer as "first candidate whose digest equals the source's". |
| MatchResolver.FirstMatchFound | src/bvzversionedfiles/bvzversionedfiles.py:453-455 | A match is a candidate that is a regular file with the source's digest. |
| MatchResolver.FirstMatchFrame | src/bvzversionedfiles/bvzversionedfiles.py:443-455 | The answer depends only on the candidates' own entries. |
| MatchResolver.FirstMatchAppendSome | src/bvzversionedfiles/bvzversionedfiles.py:481 | Appending to a bucket that already has a match does not change the match. |
| MatchResolver.FirstMatchAppendNone | src/bvzversionedfiles/bvzversionedfiles.py:481 | Appending a file with the digest to a bucket without a match makes that file the match. |
| MatchResolver.EmptyBucketReadsNothing | src/bvzversionedfiles/bvzversionedfiles.py:443 | An empty or missing bucket gives no match, reads nothing (not even the source) and leaves the cache alone. |
| MatchResolver.ResolvedMatchFirst | src/bvzversionedfiles/bvzversionedfiles.py:432-455 | Resolution answers the first bucket candidate with the source's digest and reads the source first when the bucket is not empty. The cache stays consistent. |
| MatchResolver.LegacyReadsSource | src/bvzversionedfiles.py:240 | The legacy resolver always reads the source first, even for an empty bucket. |
| MatchResolver.ReadOnce | src/bvzversionedfiles/bvzversionedfiles.py:350 | A file read in one scan of a batch is never read again in a later scan. |
| DedupEngine.AddBySize | src/bvzversionedfiles/bvzversionedfiles.py:481 | Adding to the size index succeeds exactly for a regular file. |
| DedupEngine.ResolveMatch | src/bvzversionedfiles/bvzversionedfiles.py:432-455 | The method's match, cache and index are those of the resolution specification. |
| DedupEngine.LinkAndAddToIndex | src/bvzversionedfiles/bvzversionedfiles.py:469-483 | `makedirs`, `relpath`, replace-with-link and the index insert together leave the state of the link-and-index specification. |
| DedupEngine.CopyFileDeduplicated | src/bvzversionedfiles/bvzversionedfiles.py:376-483 | The method leaves the filesystem, index, cache and result of the single-file specification. |
| DedupEngine.LinkSourceInPlace | src/bvzversionedfiles/bvzversionedfiles.py:366-369 | The link-in-place branch leaves what its specification says. |
| DedupEngine.CheckSources | src/bvzversionedfiles/bvzversionedfiles.py:340-345 | The pre-check loop answers exactly whether every source is a regular file. |
| DedupEngine.CopyRequest | src/bvzversionedfiles/bvzversionedfiles.py:352-369 | One loop turn leaves the state and output of the per-request specification. |
| DedupEngine.RunBatch | src/bvzversionedfiles/bvzversionedfiles.py:347-371 | The request loop leaves the filesystem and output of the batch-run specification. |
| DedupEngine.CopyFilesDeduplicated | src/bvzversionedfiles/bvzversionedfiles.py:256-371 | The whole call leaves the filesystem and result of the batch specification. |
| DedupEngine.DedupBatch | src/bvzversionedfiles/bvzversionedfiles.py:337-345 | A destination root that string-starts-with `data_d` raises `ValueError` and changes nothing. A source that is not a regular file fails before any change. |
| DedupProperties.ResolveSound | src/bvzversionedfiles/bvzversionedfiles.py:432-455 | With a sound index and cache, resolution is the first same-digest candidate and leaves the cache sound. |
| DedupProperties.MatchSound | src/bvzversionedfiles/bvzversionedfiles.py:453-455 | With a sound index, a match is a data-directory file of the source's size and digest. |
| DedupProperties.StoreDataSound | src/bvzversionedfiles/bvzversionedfiles.py:459-467 | A hit reuses the match and writes nothing. A miss writes only a previously absent path in `data_d`, touching no existing file. On success the stored file has the source's size and digest. |
| DedupProperties.CopySound | src/bvzversionedfiles/bvzversionedfiles.py:461-465 | Copying to a free data path writes only that path, and on success it holds the source's size and digest. |
| DedupProperties.LinkAndIndexWrites | src/bvzversionedfiles/bvzversionedfiles.py:469-481 | Linking writes only directories and `dest_p`, keeps the cache and on success adds the stored file to the index. The link at `dest_p` has target `relpath(data_file_p, dirname(dest_p))`. |
| DedupProperties.LinkResolves | src/bvzversionedfiles/bvzversionedfiles.py:474-478 | The link written at `dest_p`, resolved from its directory, reaches the stored file. |
| DedupProperties.LinkAndIndexSound | src/bvzversionedfiles/bvzversionedfiles.py:469-481 | Linking outside `data_d` keeps every entry inside `data_d` as it was. It removes no entry, and every entry that is a file afterwards is the same file as before; a file at `dest_p` may have become a link. Index and cache stay sound, and on success the stored file is unchanged. |
| DedupProperties.StepSound | src/bvzversionedfiles/bvzversionedfiles.py:376-483 | One `copy_file_deduplicated` call keeps every existing entry except `dest_p`, which may have become a link (replacing a file there). The only new entries are `dest_p`, directories and the one fresh versioned path. Entries inside `data_d` are kept, and index and cache stay sound. |
| DedupProperties.StepLocated | src/bvzversionedfiles/bvzversionedfiles.py:459-483 | After a successful call, looking the source's content up in the grown index finds exactly the returned stored file. |
| DedupProperties.StepKeepsAll | src/bvzversionedfiles/bvzversionedfiles.py:481 | Growing the index never changes what an earlier content resolves to. |
| DedupProperties.LinkInPlaceWrites | src/bvzversionedfiles/bvzversionedfiles.py:365-369 | A link-in-place request writes only directories and `dest_p`, which becomes a link to the source path. |
| DedupProperties.RequestPreserves | src/bvzversionedfiles/bvzversionedfiles.py:352-369 | Each request keeps the batch invariant. The store is sound and entries inside `data_d` are kept. No entry is removed, and an entry that is a file is the original file (an original at a destination may have become a link). Every output entry is the stored copy its content resolves to. |
| DedupProperties.RunPreserves | src/bvzversionedfiles/bvzversionedfiles.py:352-371 | The whole request loop keeps the batch invariant. |
| DedupProperties.RequestCopied | src/bvzversionedfiles/bvzversionedfiles.py:356-364 | A copied request adds exactly its source to the output keys and changes no other entry. |
| DedupProperties.RequestInPlace | src/bvzversionedfiles/bvzversionedfiles.py:365-369 | A link-in-place request leaves the index, cache and output unchanged and links `dest_p` to the source. |
| DedupProperties.RunOutputKeys | src/bvzversionedfiles/bvzversionedfiles.py:352-371 | A successful loop adds exactly the non-link-in-place sources to the output keys. |
| DedupProperties.BatchOutputKeys | src/bvzversionedfiles/bvzversionedfiles.py:347-371 | The returned map's keys are exactly the non-link-in-place sources. |
| DedupProperties.InvOutput | src/bvzversionedfiles/bvzversionedfiles.py:352-371 | Under the batch invariant every output entry is stored in `data_d` with its source's digest. Two sources share a stored file exactly when their digests are equal. |
| DedupProperties.BatchDeduplicates | src/bvzversionedfiles/bvzversionedfiles.py:256-371 | A successful batch keeps every entry inside `data_d` and removes no entry; every entry that is a file afterwards is the file it was, though an original file at a destination path may have been replaced by a link. Each source maps to a stored file with its size and digest, in `data_d`; two sources map to the same stored file exactly when their digests are equal. |
| DedupProperties.BatchSharesEqualContents | src/bvzversionedfiles/bvzversionedfiles.py:256-371 | With a collision-free hash, two sources share a stored file exactly when their contents are equal. |
| LegacyEngine.LegacyFilesAreIdentical | src/bvzversionedfiles.py:53-63 | Missing files fail the assertions. Otherwise the answer is "same size and same digest", hashing only when the sizes are equal, and it matches the newer rule. |
| LegacyEngine.LegacyVerifiedCopyFile | src/bvzversionedfiles.py:83-86 | A source that is not a file, or a destination parent that is not a directory, fails the assertions before copying. |
| LegacyEngine.LegacyVerifiedCopyEffect | src/bvzversionedfiles.py:88-92 | The copy is written and kept. The result is `IOError` naming `src --> dst` exactly when the transfer changed the size or the digest. |
| LegacyEngine.LegacyScheme | src/bvzversionedfiles.py:132-135 | The stored name is `dest_n`, or the source's basename when `dest_n` is empty, split by `splitext`, with the given prefix and width. |
| LegacyEngine.LegacySchemeAgrees | src/bvzversionedfiles.py:132-141 | The legacy naming scheme is the newer one applied to `join(dest_d, name)`. |
| LegacyEngine.LegacyCopyTo | src/bvzversionedfiles.py:148-153 | A successful copy returns the path written. |
| LegacyEngine.LegacyCopyToEffect | src/bvzversionedfiles.py:148-153 | The copy writes only the free path. Success means it was written and, when verifying, the transfer matched. Without verification success is exactly "parent is a directory". |
| LegacyEngine.LegacyVersionedCopy | src/bvzversionedfiles.py:125-128 | A source that is not a file, or a destination that is not a directory, fails the assertions and changes nothing. |
| LegacyEngine.LegacyVersionedCopyEffect | src/bvzversionedfiles.py:132-153 | The chosen path is the smallest free version; the copy writes only that path and returns it. |
| LegacyEngine.LegacyCopyAndAddVerNum | src/bvzversionedfiles.py:96-153 | The search-then-copy loop leaves the filesystem and result of the legacy versioned-copy specification. |
| LegacyEngine.LegacyCopyInDir | src/bvzversionedfiles.py:255-260 | When the destination name has no `/` (as when no `dest_n` is given) and `data_d` is non-empty without a trailing `/`, a miss is stored inside `data_d`. |
| LegacyEngine.StoredNameDiffers | src/bvzversionedfiles.py:138-141 | A versioned name never equals the plain destination name. |
| LegacyEngine.LegacyBatch | src/bvzversionedfiles.py:197-216 | Rejected arguments fail the assertions and change nothing. So does any source that is not a regular file. Rejected arguments are `dest_d` under `data_d`, missing directories, or `dest_n` with several sources. |
| LegacyEngine.LegacyCheckSources | src/bvzversionedfiles.py:213-216 | The source-check loop answers exactly whether every source is a regular file. |
| LegacyEngine.LegacyResolveMatch | src/bvzversionedfiles.py:233-249 | The method's match, cache and index are those of the legacy resolution specification. |
| LegacyEngine.LegacyLinkAndAddToIndex | src/bvzversionedfiles.py:262-274 | `chmod`, the flat link and the index insert leave the state of their specification. |
| LegacyEngine.LegacyLinkFlat | src/bvzversionedfiles.py:264-274 | The flat link and index insert leave what their specification says; the size is taken with `getsize` after the link is made, following it. |
| LegacyEngine.LegacyLinkEffect | src/bvzversionedfiles.py:262-274 | The stored file gets mode `0o644` and `dest_d/name` becomes a link to `relpath(data_d, dest_d)/basename(stored)`. Nothing else is written. The source path is appended to the bucket of the size `getsize` now gives for it, which is its own size unless the link replaced it. |
| LegacyEngine.LegacyFlatLinkEffect | src/bvzversionedfiles.py:264-274 | After the mode: the link is the only entry written, and the source path joins the bucket of what `getsize` gives for it. |
| LegacyEngine.LegacyLinkOverSource | src/bvzversionedfiles.py:262-274 | When the link replaces the source itself, links are read lexically (`LexicalLinks`) and the stored file is spelled as `abspath` spells its entry of `data_d`, the turn succeeds and the source path is indexed under the stored file's size. |
| LegacyEngine.LegacyLinkLeadsTo | src/bvzversionedfiles.py:262-274 | Mode, link over the source and index insert succeed whenever `Env.follow` takes the link's text to the stored file, and the source is indexed under that file's size. |
| LegacyEngine.LegacyStoreEffect | src/bvzversionedfiles.py:254-260 | A hit writes nothing. A miss returns a previously free versioned path and keeps every existing entry. |
| LegacyEngine.LegacyStoreAndLinkEffect | src/bvzversionedfiles.py:254-274 | A successful store-and-link returns the match or the free versioned path, and indexes the source under what `getsize` then gives: its own size unless the link replaced it. |
| LegacyEngine.LegacyStepEffect | src/bvzversionedfiles.py:225-276 | A successful loop turn returns the first same-digest candidate or the fresh versioned path, and appends the source to the bucket of what `getsize` then gives: its own size unless the link replaced it. |
| LegacyEngine.LegacyIndexedSourceMatches | src/bvzversionedfiles.py:274 | Because the source path is indexed, a later same-content source in the batch resolves to that original source file, not to the stored copy. |
| LegacyEngine.LegacyRootDestination | src/bvzversionedfiles.py:266 | For a root `dest_d` the strip leaves `""`, so the link is made relative to the current directory. |
| LegacyEngine.LegacyCopyOne | src/bvzversionedfiles.py:225-276 | One loop turn leaves the state and result of the legacy step specification. |
| LegacyEngine.LegacyRunBatch | src/bvzversionedfiles.py:218-276 | The source loop leaves the filesystem and output list of the legacy run specification. |
| LegacyEngine.RunSteps | src/bvzversionedfiles.py:276 | A loop that appends each turn's path and stops at the first error: a successful run appends exactly one path per source and keeps what was already output. |
| LegacyEngine.LegacyReturnShape | src/bvzversionedfiles.py:278-280 | A bare path is returned exactly when there is one source (always for a lone string); otherwise a list with one entry per source. |
| LegacyEngine.LegacyCopyFilesDeduplicated | src/bvzversionedfiles.py:157-280 | The whole call leaves the filesystem and result of the legacy batch specification. |

## Left out

- MD5 and file reading: the digest is the opaque `Env.hash` of a file's whole
  content. The block-wise reading loop and hashlib are not modelled, and nor
  is `block_size`.
- Hash collisions: distinct contents are only proved to get distinct stored
  files under an explicit collision-free hypothesis (`CollisionFree`).
  Otherwise the theorems speak of equal digests.
- Symlink following: `os.path.exists`, `os.path.isfile`, `os.path.isdir`,
  hashing, copying and `chmod` follow links in Python. Here a link is an entry
  of its own for all of them, so `exists` sees a dangling link and `isfile` on
  a link is false. Only `getsize` after the legacy link (`GetSize`) follows
  links, so that the case of the link replacing its own source is modelled.
- LegacyEngine.LegacyStep, DedupEngine.DedupStep: a source that an earlier
  turn of the same batch replaced with a link is not followed. The legacy
  turn's first `getsize` (legacy line 225) and its digest read (line 240)
  use `Size` and `Md5ForFile`, which fail on a link, and the newer engine's
  `isfile` re-check (line 429) is false on a link. Python follows the link
  in all three. So with `["/proj/a.txt", "/other/a.txt"]`, `dest_d`
  `/other` and an identical stored file, turn 1 links `/other/a.txt` to the
  stored file and turn 2 fails here with `OSError`, where Python returns the
  stored path twice. With descriptors `("/src/a.txt", "a.txt")` and
  `("/dst/a.txt", "b.txt")` into `/dst`, the second request is a
  `ValueError` here, where Python succeeds. With the same source listed
  twice, the legacy call fails in both, but here it fails at line 225 and
  keeps the valid link, where Python fails at line 274 and leaves a
  dangling one. The batch theorems hold as stated for the model.
- FileSystems.GetSize: it gives up only on a link cycle, after as many steps
  as there are entries. Linux's limit of 40 links per lookup (`ELOOP`) is not
  modelled, so a longer chain without a cycle succeeds here and fails there.
  Where a link leads is the host's `Env.follow`; `LegacyLinkOverSource`
  assumes the lexical reading (`LexicalLinks`).
- FileSystems.Size: `getsize` of a directory fails here (in `GetSize` as
  well), where Python returns the directory's size; no call in the engines
  asks for one.
- LegacyEngine.LegacyFlatLink: where the link replaced the source itself,
  the source path stays in the size index as a link. A later source of the
  same size whose scan reaches it reads it for its digest; Python follows the
  link and reads the stored file, while the model's digest read does not
  follow links and raises `OSError`. Only the `getsize` in the same turn
  follows the link.
- DedupEngine.AddBySize: the newer engine's index insert does not follow
  links. The file it indexes is the stored file, which the link at `dest_p`
  replaces only when `dest_p` is that file, and then the link points back at
  itself, so Python's `getsize` fails as the model does.
- Spelling: every lookup matches the path string exactly. A relative path is
  not resolved against `Env.cwd`, and `a//b`, `a/./b` and `x/../y` are not
  normalised. With `cwd` `/proj`, `isfile("a.txt")` is false here even when
  `/proj/a.txt` is a file. A link-in-place destination `/proj/./.data/x`
  passes `LinksOutside` for `data_d` `/proj/.data`, though it is inside it.
  The theorems hold when each location is spelled one way. Links are the
  exception: `GetSize` looks a link's target up under the path `Env.follow`
  gives, which under `LexicalLinks` is its `abspath` spelling (`AbsPath`), so
  a link reaches its target only when the target is keyed that way.
- The check-then-copy race in the versioned copy (legacy line 143) and all
  concurrency: each operation sees one consistent filesystem.
- Python `assert type(...)` checks: Dafny's types enforce them.
- `directory_to_copydescriptors`: it walks a real directory tree with
  `os.walk` and refers to an undefined exception class.
- `bvzfilesystemlib`: that library is not part of this model. The size index
  `dir_files_keyed_by_size` returns is an input. `add_file_to_dict_by_size`
  is assumed to append the path to the bucket of its size.
- DedupEngine.DedupBatch: the failed-precheck case is a `NameError` with no
  message, because the real messages refer to an undefined variable.
- LegacyEngine.LegacyBatch: the `ValueError` at legacy lines 207-208 is
  unreachable, because the assertion at line 197 already rejects that case.
  It is not modelled as a separate outcome.
- LegacyEngine.LegacyRun: the model computes
  `relpath(data_d, dest_d.rstrip("/"))` once per batch, where the source
  recomputes it in every loop turn. Both directories are unchanged between
  turns and the strip is idempotent, so each turn gets the same value.
- State after a failure: a failure mid-batch returns the filesystem as it was
  at the failing step. The theorems about batches speak only of successful
  batches.
- DedupProperties.BatchDeduplicates: proved under these hypotheses:
  - the initial index lists only data-directory files of the indexed size;
  - every link-in-place destination lies outside the data directory;
  - the data directory path is well formed (`WellFormedDir`): non-empty and
    without a trailing `/`, so `/data/` and `/` are outside the theorem;
  - the copy device is faithful or verification is on.

  The code does not check any of these.
- Keyword arguments `ver_prefix`, `num_digits` and `do_verified_copy` are
  grouped in a `Settings` value. The data directory is part of it.
- `os.path.relpath` resolves against the current directory, which is a
  parameter (`Env.cwd`). Paths are plain strings, with no symlink resolution
  inside `abspath`.
