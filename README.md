# fs-dedup, modelled in Dafny

fs-dedup finds files with identical content and makes them share storage on
copy-on-write file systems (Btrfs, XFS). It takes a list of paths and runs these stages:

1. It classifies the paths: a path that cannot be stat'ed, or is a directory, stops
   the run; a regular file becomes a candidate; anything else is skipped.
2. Candidates of at least `-min-size` bytes are bucketed by size, and a bucket with a
   single file is dropped (`SeekBySize`).
3. Each size bucket is hashed with SHA-256 by one goroutine per file. A collector
   buckets the files by digest and records every hashing error (`SeekByChecksum`).
   If any file of any size bucket fails to hash, the run reports the errors and stops
   before anything is consolidated.
4. The driver totals the reclaimable bytes, `(members - 1) * size` per content group.
   It then calls `Dedup` on every content group. `Dedup` opens the first member and
   clones its extents into every later member with `FICLONE`, collecting the
   per-destination errors.

The model has five modules:

- `Wrappers`: `Option`, `Result`, `Outcome`.
- `Host`: paths, digests, errors, file information, open modes and clone attempts.
- `Grouping`: a generic specification of "bucket a sequence by a partial key, then
  drop the singleton buckets". It uses three ghost functions:
  - `Bucket` is the members with key `k`, in order.
  - `Grouped` is the collector's map before pruning.
  - `Groups` is the map after pruning.

  The module also holds the prune loop shared by both stages (`PruneSingletons`).
- `Dedup`: `SeekBySize`, `SeekByChecksum` and `Dedup` of `dedup.go`. Its fourth function,
  `HashFile` (dedup.go:14-22), is the `hash` oracle.
- `Driver`: the non-recursive path of `_main` in `main.go`.

The functions of `dedup.go` are stateful loops. They are `method`s proved against the
ghost specification functions, and the properties the program relies on are lemmas
about those functions.

A few things are modelled indirectly:

- **Library calls.** The operating system and the hash are function parameters:
  - `os.Stat`; there are two stat oracles, one for classification and one for
    `SeekBySize`, because the files may change in between;
  - `HashFile`;
  - `unix.Open`;
  - `unix.IoctlFileClone`.
- **Arrival order.** The goroutines of `SeekByChecksum` may report in any order. The
  model takes that order as a parameter `arrival`, and `Driver.Schedules` requires it
  to be a permutation of the paths being hashed.
- **Map iteration.** Go iterates maps in an unspecified order. Every loop over a map
  (the prune loops, `range sizeMap`, `range sumMap`) picks its next key with `:|`, so
  every result is proved for every iteration order.
- **Group names.** `dupSets` is a `[][]string` in Go. The model tags each entry with
  the size and digest it was found under (`Driver.DupSet`), so each entry can be named.
  The paths themselves are exactly Go's.

## Model

| member | source | states |
|---|---|---|
| Dedup.SeekBySize | dedup.go:24-42 | Returns the first stat error, or else exactly the size groups: the buckets of paths of at least `minSize` bytes, keyed by size, with singleton buckets removed |
| Dedup.FirstStatErrorIsFirst | dedup.go:26-30 | SeekBySize fails exactly when some path cannot be stat'ed; the error is that of the first such path, and every earlier path stat'ed successfully |
| Dedup.SizeGroupsSound | dedup.go:31-40 | Every size that is a key is at least `minSize`; its group holds at least two paths; a path is in it exactly when it is an input path of that size |
| Dedup.SizeGroupsComplete | dedup.go:31-40 | Any two input positions with the same qualifying size put that size among the keys, with both paths in its group |
| Dedup.SizeGroupsKeepInputOrder | dedup.go:26-34 | Each size group is a subsequence of the input, in input order |
| Grouping.PruneSingletons | dedup.go:36-40 | Leaves exactly the entries whose bucket does not hold one element, unchanged |
| Grouping.BucketMembers | dedup.go:34 | A path is in its key's bucket exactly when it is in the input with that key |
| Grouping.BucketKeepsOrder | dedup.go:34 | Appending keeps every bucket a subsequence of the input |
| Grouping.GroupsSound | dedup.go:36-40 | After pruning, every bucket holds at least two members, exactly those with its key |
| Grouping.GroupsComplete | dedup.go:34-40 | Two members sharing a key survive pruning together in that key's bucket |
| Grouping.GroupsPermutation | dedup.go:57-89 | Reordering the input leaves the pruned keys the same and each bucket the same multiset |
| Grouping.GroupedPlacesOnce | dedup.go:64-67 | Before pruning, a member with a key is in that key's bucket and in no other |
| Dedup.SeekByChecksum | dedup.go:44-91 | For any arrival order that is a permutation of the input, the error map holds exactly the paths whose hashing failed, with their errors; the digest map is exactly the digest groups of at least two paths |
| Dedup.HashErrorsEmpty | dedup.go:64-65 | The error map is empty exactly when every path could be hashed |
| Dedup.ContentGroupsOrderIndependent | dedup.go:57-89 | Two arrival orders of the same paths give the same error map, the same digests as keys and the same members in each group |
| Dedup.ContentGroupsSound | dedup.go:67 | Every digest group holds at least two paths; a path is in it exactly when it is an input path that hashed to that digest |
| Dedup.ContentGroupsComplete | dedup.go:61-68 | Two input paths that hashed to the same digest both land in that digest's group |
| Dedup.HashOutcomeExclusive | dedup.go:61-68 | A path whose hash failed is in the error map with its error and in no bucket, before or after pruning; a hashed path is not in the error map and is in its digest's bucket only |
| Dedup.SameGroupSameContent | dedup.go:14-22 | Assuming the digest never collides, the members of one group have the same content |
| Dedup.Dedup | dedup.go:93-122 | Returns nil with no attempts if the origin cannot be opened; otherwise it makes one clone attempt per later member, in order, and returns the map of later members whose open or clone failed |
| Dedup.DedupOriginUnopenable | dedup.go:98-101 | The result is nil exactly when the origin cannot be opened read-only, and then no clone is attempted |
| Dedup.DedupAttemptsEveryMember | dedup.go:104-119 | With the origin open, every later member gets exactly one attempt, in order, whatever the earlier attempts returned; the origin is the source of every attempt and, unless it is listed twice, never a destination |
| Dedup.DedupFailuresExact | dedup.go:104-119 | With the origin open, a path is a failure key exactly when it is a later member whose write-open or clone failed; the value is that failure |
| Driver.ClassifyArgs | main.go:68-80 | Returns the error of the first argument that cannot be stat'ed or is a directory, else the classified candidate list |
| Driver.ClassifyStopsAtFirstRejected | main.go:69-74 | Classification fails exactly when some argument is rejected; the error is the first rejected argument's, and every earlier argument was accepted |
| Driver.ClassifyKeepsRegularFiles | main.go:75-78 | On success the candidates are exactly the regular-file arguments, in argument order; others are skipped |
| Driver.RegularFilesInOrder | main.go:75-78 | A path is a candidate exactly when it is an argument that stat'ed as a regular file, and the candidates are a subsequence of the arguments |
| Driver.AppendContentGroups | main.go:107-116 | Appending the groups of one digest map, in any order, lists each of them exactly once beside the earlier ones and keeps `totalDup` equal to the reclaimable bytes of the list |
| Driver.HashSizeGroup | main.go:98-116 | Fails exactly when some path of the size group cannot be hashed; otherwise it extends the list by exactly that size's content groups and keeps the total |
| Driver.CollectDupSets | main.go:97-117 | Fails exactly when some path of some size group cannot be hashed; otherwise `dupSets` lists every content group of every size group exactly once, and `totalDup` is its reclaimable-byte sum |
| Driver.ListedGroupsHoldTwo | main.go:107-108 | Every listed content group holds at least two paths |
| Driver.DedupAll | main.go:121-126 | Calls Dedup once per listed group in list order; the attempts are the concatenation of each call's attempts |
| Driver.AllResultsAt | main.go:121-126 | The i-th result is what Dedup returns for the i-th listed group |
| Driver.Run | main.go:68-126 | A classification or sizing error is returned and nothing is cloned; if any file fails to hash, the run returns nil and nothing is cloned; otherwise every content group is listed once, holds at least two paths, and gets its own Dedup call; `totalDup` is the reclaimable byte total |
| Driver.ReclaimableAppend | main.go:110 | The reclaimable total of two lists is the sum of their totals |
| Driver.ReclaimablePermutation | main.go:110 | The reclaimable total does not depend on the order of the list |
| Driver.TotalDupIndependentOfOrder | main.go:97-117 | Two lists that each name every content group once hold the same groups, so `totalDup` is the same whatever order `sizeMap` and `sumMap` are iterated in |

## Left out

- Flag parsing, usage text and `-R` recursive mode (main.go:20-66): the `filepath.Walk`
  traversal is outside the modelled core. Only the non-recursive classification is modelled.
- Printed output: the "Ignoring …" lines, the scan count, the group listings, hashing
  errors, "Ref-linking error" and "Done." are not modelled. `Driver.Run` returns `dupSets`,
  `totalDup`, the Dedup results and the clone attempts instead of printing them.
- SHA-256 and reading the file inside `HashFile` (dedup.go:14-22): hashing is an oracle
  `hash: Path -> Result<Digest, Err>`. Dedup.SameGroupSameContent therefore takes the
  absence of digest collisions as an explicit precondition.
- Goroutines, the buffered channel and the WaitGroup of `SeekByChecksum` are not modelled.
  They are replaced by one arrival order, a permutation of the paths. Each goroutine is
  taken to hash its own path, as Go 1.22+ per-iteration loop variables give.
- Resource exhaustion while hashing is not modelled. `HashFile` never closes the file it
  opens (dedup.go:15-21), and `SeekByChecksum` starts one goroutine per file with no limit
  (dedup.go:73-80). On a large size group, `os.Open` can therefore fail with "too many open
  files", and which files fail depends on the schedule. The `hash` oracle depends on the
  path alone, so Dedup.ContentGroupsOrderIndependent does not cover such failures.
- The `-min-size` default of one mebibyte (main.go:23) does not appear: `Driver.Run` takes
  the threshold as a parameter.
- `unix.Close` and the errors it may return are ignored, as in the source. File
  descriptors are not modelled.
- `Dedup.Dedup`: it does not model the kernel's checks inside `FICLONE`, which the clone
  oracle stands for. It also does not model what happens when a file changes between hashing
  and cloning.
- `Driver.Schedules`: the arrival order is a function of the paths hashed, so two
  hashings of the same size group would arrive in the same order. Each size group is
  hashed once per run, so nothing depends on this.
- `Driver.CollectDupSets`: `totalDup` is an unbounded integer. Go's `int64`
  wrap-around on overflow is not modelled.
- Go's nil maps: `Dedup` returns nil (`None`) when the origin cannot be opened
  (dedup.go:100). `_main` checks only `len(errMap) != 0` (main.go:123) and cannot tell
  nil from an empty map, so such a group is skipped silently, exactly like a group
  consolidated without error. `Driver.Run`'s `results` keep the `None` that the program
  discards.
- The same path may be passed twice. Every property holds for such inputs too, except
  that the "origin is never a destination" part of Dedup.DedupAttemptsEveryMember
  requires the origin not to repeat in the group.
