/**
 * The three stages of duplicate finding and consolidation in dedup.go:
 * SeekBySize buckets candidate paths by size, SeekByChecksum buckets one size
 * group by content digest, and Dedup clones the first member of a content group
 * into every other member.
 *
 * `os.Stat`, `HashFile`, `unix.Open` and `unix.IoctlFileClone` are oracles given
 * as function parameters; a path stands for the file descriptor opened from it.
 */
module Dedup {
  import opened Wrappers
  import opened Host
  import opened Grouping

  // ---------------------------------------------------------------- SeekBySize

  /** The bucket SeekBySize puts a path in: its size, if that is at least `minSize`. */
  ghost function SizeKey(stat: Path -> Result<FileInfo, Err>, minSize: int): Path -> Option<int>
  {
    p => if stat(p).Success? && stat(p).value.size >= minSize then Some(stat(p).value.size) else None
  }

  /** The error of the first path that cannot be stat'ed, if there is one. */
  ghost function FirstStatError(paths: seq<Path>, stat: Path -> Result<FileInfo, Err>): Option<Err>
  {
    if paths == [] then None
    else if stat(paths[0]).Failure? then Some(stat(paths[0]).error)
    else FirstStatError(paths[1..], stat)
  }

  /** What SeekBySize returns: the first stat error, or the size groups of at least two paths. */
  ghost function SizeGrouping(filePaths: seq<Path>, minSize: int, stat: Path -> Result<FileInfo, Err>)
    : Result<map<int, seq<Path>>, Err>
  {
    match FirstStatError(filePaths, stat)
    case Some(e) => Failure(e)
    case None => Success(Groups(filePaths, SizeKey(stat, minSize)))
  }

  /** Bucket the paths by size, aborting on the first path that cannot be stat'ed. */
  method SeekBySize(filePaths: seq<Path>, minSize: int, stat: Path -> Result<FileInfo, Err>)
    returns (r: Result<map<int, seq<Path>>, Err>)
    ensures r == SizeGrouping(filePaths, minSize, stat)
  {
    var sizeMap: map<int, seq<Path>> := map[];
    for i := 0 to |filePaths|
      invariant FirstStatError(filePaths, stat) == FirstStatError(filePaths[i..], stat)
      invariant sizeMap == Grouped(filePaths[..i], SizeKey(stat, minSize))
    {
      var filePath := filePaths[i];
      assert filePaths[..i + 1] == filePaths[..i] + [filePath];
      assert filePaths[i..][1..] == filePaths[i + 1..];
      GroupedSnoc(filePaths[..i], SizeKey(stat, minSize), filePath);
      var info := stat(filePath);
      if info.Failure? {
        return Failure(info.error);
      }
      var size := info.value.size;
      if size < minSize {
        continue;
      }
      sizeMap := sizeMap[size := (if size in sizeMap then sizeMap[size] else []) + [filePath]];
    }
    assert filePaths[..|filePaths|] == filePaths;
    PruneGrouped(filePaths, SizeKey(stat, minSize));
    sizeMap := PruneSingletons(sizeMap);
    return Success(sizeMap);
  }

  /** SeekBySize fails exactly when some path cannot be stat'ed, and then with the first such error. */
  lemma {:induction false} FirstStatErrorIsFirst(paths: seq<Path>, stat: Path -> Result<FileInfo, Err>)
    ensures FirstStatError(paths, stat).None? <==> forall i :: 0 <= i < |paths| ==> stat(paths[i]).Success?
    ensures FirstStatError(paths, stat).Some? ==>
      exists i :: 0 <= i < |paths| && stat(paths[i]) == Failure(FirstStatError(paths, stat).value) &&
        forall j :: 0 <= j < i ==> stat(paths[j]).Success?
  {
    if paths != [] {
      var rest := paths[1..];
      FirstStatErrorIsFirst(rest, stat);
      assert forall i :: 1 <= i < |paths| ==> paths[i] == rest[i - 1];
      if stat(paths[0]).Success? && FirstStatError(rest, stat).Some? {
        var i :| 0 <= i < |rest| && stat(rest[i]) == Failure(FirstStatError(rest, stat).value) &&
          forall j :: 0 <= j < i ==> stat(rest[j]).Success?;
        assert stat(paths[i + 1]) == Failure(FirstStatError(paths, stat).value);
      }
    }
  }

  /**
   * Each size group meets the threshold, holds at least two paths, and holds exactly the
   * input paths whose stat reports that size.
   */
  lemma SizeGroupsSound(filePaths: seq<Path>, minSize: int, stat: Path -> Result<FileInfo, Err>, size: int, p: Path)
    requires SizeGrouping(filePaths, minSize, stat).Success?
    requires size in SizeGrouping(filePaths, minSize, stat).value
    ensures size >= minSize
    ensures |SizeGrouping(filePaths, minSize, stat).value[size]| >= 2
    ensures p in SizeGrouping(filePaths, minSize, stat).value[size] <==>
      p in filePaths && stat(p).Success? && stat(p).value.size == size
  {
    var key := SizeKey(stat, minSize);
    GroupsSound(filePaths, key, size, p);
    var first := Groups(filePaths, key)[size][0];
    GroupsSound(filePaths, key, size, first);
  }

  /** Two input paths of the same qualifying size both land in that size's group. */
  lemma SizeGroupsComplete(filePaths: seq<Path>, minSize: int, stat: Path -> Result<FileInfo, Err>, i: nat, j: nat)
    requires SizeGrouping(filePaths, minSize, stat).Success?
    requires i < j < |filePaths|
    requires stat(filePaths[i]).Success? && stat(filePaths[j]).Success?
    requires stat(filePaths[i]).value.size == stat(filePaths[j]).value.size >= minSize
    ensures var size := stat(filePaths[i]).value.size;
      size in SizeGrouping(filePaths, minSize, stat).value &&
      filePaths[i] in SizeGrouping(filePaths, minSize, stat).value[size] &&
      filePaths[j] in SizeGrouping(filePaths, minSize, stat).value[size]
  {
    GroupsComplete(filePaths, SizeKey(stat, minSize), stat(filePaths[i]).value.size, i, j);
  }

  /** The paths of a size group come in the order they had in the input. */
  lemma SizeGroupsKeepInputOrder(filePaths: seq<Path>, minSize: int, stat: Path -> Result<FileInfo, Err>, size: int)
    returns (idx: seq<nat>)
    requires SizeGrouping(filePaths, minSize, stat).Success?
    requires size in SizeGrouping(filePaths, minSize, stat).value
    ensures PicksOut(idx, SizeGrouping(filePaths, minSize, stat).value[size], filePaths)
  {
    GroupsKeys(filePaths, SizeKey(stat, minSize), size);
    idx := BucketKeepsOrder(filePaths, SizeKey(stat, minSize), size);
  }

  // ------------------------------------------------------------ SeekByChecksum

  /** The bucket SeekByChecksum puts a path in: its digest, if hashing succeeded. */
  ghost function HashKey(hash: Path -> Result<Digest, Err>): Path -> Option<Digest>
  {
    p => if hash(p).Success? then Some(hash(p).value) else None
  }

  /** The error map SeekByChecksum reports: every path whose hashing failed, with its error. */
  ghost function HashErrors(paths: seq<Path>, hash: Path -> Result<Digest, Err>): map<Path, Err>
  {
    map p | p in paths && hash(p).Failure? :: hash(p).error
  }

  /** Every path could be hashed. */
  ghost predicate AllHashed(paths: seq<Path>, hash: Path -> Result<Digest, Err>)
  {
    forall p :: p in paths ==> hash(p).Success?
  }

  /** The error map is empty exactly when every path could be hashed. */
  lemma HashErrorsEmpty(paths: seq<Path>, hash: Path -> Result<Digest, Err>)
    ensures |HashErrors(paths, hash)| == 0 <==> AllHashed(paths, hash)
  {
    if !AllHashed(paths, hash) {
      var p :| p in paths && hash(p).Failure?;
      assert p in HashErrors(paths, hash);
    }
  }

  /** The message a hashing goroutine sends to the collector. */
  datatype HashReport = HashReport(path: Path, sum: Result<Digest, Err>)

  /**
   * Hash every path and bucket the paths by digest. The hashing goroutines finish in
   * some order, `arrival`, which is any permutation of the input: the collector
   * consumes their reports in that order.
   */
  method SeekByChecksum(filePaths: seq<Path>, hash: Path -> Result<Digest, Err>, arrival: seq<Path>)
    returns (sumMap: map<Digest, seq<Path>>, errMap: map<Path, Err>)
    requires multiset(arrival) == multiset(filePaths)
    ensures errMap == HashErrors(filePaths, hash)
    ensures sumMap == Groups(arrival, HashKey(hash))
  {
    sumMap, errMap := map[], map[];
    for i := 0 to |arrival|
      invariant errMap == HashErrors(arrival[..i], hash)
      invariant sumMap == Grouped(arrival[..i], HashKey(hash))
    {
      var result := HashReport(arrival[i], hash(arrival[i]));
      assert arrival[..i + 1] == arrival[..i] + [result.path];
      GroupedSnoc(arrival[..i], HashKey(hash), result.path);
      HashErrorsSnoc(arrival[..i], hash, result.path);
      match result.sum
      case Failure(e) =>
        errMap := errMap[result.path := e];
      case Success(sum) =>
        sumMap := sumMap[sum := (if sum in sumMap then sumMap[sum] else []) + [result.path]];
    }
    assert arrival[..|arrival|] == arrival;
    HashErrorsPermutation(arrival, filePaths, hash);
    PruneGrouped(arrival, HashKey(hash));
    sumMap := PruneSingletons(sumMap);
  }

  /** One more report changes the error map only if its hash failed. */
  lemma HashErrorsSnoc(s: seq<Path>, hash: Path -> Result<Digest, Err>, x: Path)
    ensures HashErrors(s + [x], hash) ==
      if hash(x).Failure? then HashErrors(s, hash)[x := hash(x).error] else HashErrors(s, hash)
  {
    var m := if hash(x).Failure? then HashErrors(s, hash)[x := hash(x).error] else HashErrors(s, hash);
    MapEquality(HashErrors(s + [x], hash), m);
  }

  /** The error map depends only on which paths were hashed, not on the order. */
  lemma HashErrorsPermutation(s1: seq<Path>, s2: seq<Path>, hash: Path -> Result<Digest, Err>)
    requires multiset(s1) == multiset(s2)
    ensures HashErrors(s1, hash) == HashErrors(s2, hash)
  {
    forall p
      ensures p in s1 <==> p in s2
    {
      assert p in s1 <==> p in multiset(s1);
      assert p in s2 <==> p in multiset(s2);
    }
    MapEquality(HashErrors(s1, hash), HashErrors(s2, hash));
  }

  /**
   * Whatever order the reports reach the collector in, the error map is the same and
   * so are the digests that form groups and the members of each group.
   */
  lemma ContentGroupsOrderIndependent(filePaths: seq<Path>, hash: Path -> Result<Digest, Err>, arrival1: seq<Path>, arrival2: seq<Path>)
    requires multiset(arrival1) == multiset(filePaths) && multiset(arrival2) == multiset(filePaths)
    ensures HashErrors(arrival1, hash) == HashErrors(arrival2, hash)
    ensures Groups(arrival1, HashKey(hash)).Keys == Groups(arrival2, HashKey(hash)).Keys
    ensures forall d :: d in Groups(arrival1, HashKey(hash)) ==>
      multiset(Groups(arrival1, HashKey(hash))[d]) == multiset(Groups(arrival2, HashKey(hash))[d])
    ensures forall d, p :: d in Groups(arrival1, HashKey(hash)) ==>
      (p in Groups(arrival1, HashKey(hash))[d] <==> p in Groups(arrival2, HashKey(hash))[d])
  {
    HashErrorsPermutation(arrival1, arrival2, hash);
    GroupsPermutation(arrival1, arrival2, HashKey(hash));
    var g1, g2 := Groups(arrival1, HashKey(hash)), Groups(arrival2, HashKey(hash));
    forall d, p | d in g1
      ensures p in g1[d] <==> p in g2[d]
    {
      assert p in g1[d] <==> p in multiset(g1[d]);
      assert p in g2[d] <==> p in multiset(g2[d]);
    }
  }

  /** Each content group holds at least two paths, exactly those that hashed to its digest. */
  lemma ContentGroupsSound(arrival: seq<Path>, hash: Path -> Result<Digest, Err>, d: Digest, p: Path)
    requires d in Groups(arrival, HashKey(hash))
    ensures |Groups(arrival, HashKey(hash))[d]| >= 2
    ensures p in Groups(arrival, HashKey(hash))[d] <==> p in arrival && hash(p) == Success(d)
  {
    GroupsSound(arrival, HashKey(hash), d, p);
  }

  /** Two paths that hashed to the same digest both land in that digest's group. */
  lemma ContentGroupsComplete(arrival: seq<Path>, hash: Path -> Result<Digest, Err>, i: nat, j: nat)
    requires i < j < |arrival|
    requires hash(arrival[i]).Success? && hash(arrival[i]) == hash(arrival[j])
    ensures var d := hash(arrival[i]).value;
      d in Groups(arrival, HashKey(hash)) &&
      arrival[i] in Groups(arrival, HashKey(hash))[d] && arrival[j] in Groups(arrival, HashKey(hash))[d]
  {
    GroupsComplete(arrival, HashKey(hash), hash(arrival[i]).value, i, j);
  }

  /**
   * The collector files each report in exactly one place: a failed hash in the error
   * map and in no bucket, a digest in its own bucket and not in the error map. Pruning
   * keeps the error map, so a failed path is in no group either.
   */
  lemma HashOutcomeExclusive(arrival: seq<Path>, hash: Path -> Result<Digest, Err>, p: Path)
    requires p in arrival
    ensures hash(p).Failure? ==>
      && p in HashErrors(arrival, hash) && HashErrors(arrival, hash)[p] == hash(p).error
      && (forall d :: d in Grouped(arrival, HashKey(hash)) ==> p !in Grouped(arrival, HashKey(hash))[d])
      && (forall d :: d in Groups(arrival, HashKey(hash)) ==> p !in Groups(arrival, HashKey(hash))[d])
    ensures hash(p).Success? ==>
      && p !in HashErrors(arrival, hash)
      && hash(p).value in Grouped(arrival, HashKey(hash))
      && p in Grouped(arrival, HashKey(hash))[hash(p).value]
      && (forall d :: d in Grouped(arrival, HashKey(hash)) && p in Grouped(arrival, HashKey(hash))[d] ==> d == hash(p).value)
  {
    var key := HashKey(hash);
    GroupedPlacesOnce(arrival, key, p, p);
    forall d | d in Grouped(arrival, key)
      ensures p in Grouped(arrival, key)[d] ==> key(p) == Some(d)
    {
      GroupedPlacesOnce(arrival, key, p, d);
    }
    forall d | d in Groups(arrival, key)
      ensures p in Groups(arrival, key)[d] ==> key(p) == Some(d)
    {
      GroupsSound(arrival, key, d, p);
    }
  }

  /**
   * Grouping by digest groups identical content only under a collision-free digest:
   * if no two paths of different content hash alike, a group's members share content.
   */
  lemma SameGroupSameContent<C>(arrival: seq<Path>, hash: Path -> Result<Digest, Err>, content: Path -> C, d: Digest, p: Path, q: Path)
    requires forall p1, p2 :: hash(p1).Success? && hash(p1) == hash(p2) ==> content(p1) == content(p2)
    requires d in Groups(arrival, HashKey(hash))
    requires p in Groups(arrival, HashKey(hash))[d] && q in Groups(arrival, HashKey(hash))[d]
    ensures content(p) == content(q)
  {
    GroupsSound(arrival, HashKey(hash), d, p);
    GroupsSound(arrival, HashKey(hash), d, q);
  }

  // --------------------------------------------------------------------- Dedup

  /** The `do` closure: open `dest` write-only, then clone the origin's extents into it. */
  function CloneInto(dest: Path, origin: Path, open: (Path, OpenMode) -> Outcome<Err>, clone: (Path, Path) -> Outcome<Err>)
    : Outcome<Err>
  {
    match open(dest, WriteOnly)
    case Fail(e) => Fail(e)
    case Pass => clone(dest, origin)
  }

  /** The clone attempts Dedup makes: none if the origin cannot be opened, else one per later member, in order. */
  ghost function DedupAttempts(dupSet: seq<Path>, open: (Path, OpenMode) -> Outcome<Err>): seq<Attempt>
    requires |dupSet| > 0
  {
    if open(dupSet[0], ReadOnly).Fail? then []
    else seq(|dupSet| - 1, i requires 0 <= i < |dupSet| - 1 => Attempt(dupSet[i + 1], dupSet[0]))
  }

  /** What Dedup returns: nil if the origin cannot be opened, else each later member whose clone failed, with its error. */
  ghost function DedupResult(dupSet: seq<Path>, open: (Path, OpenMode) -> Outcome<Err>, clone: (Path, Path) -> Outcome<Err>)
    : Option<map<Path, Err>>
    requires |dupSet| > 0
  {
    var origin := dupSet[0];
    if open(origin, ReadOnly).Fail? then None
    else Some(map p | p in dupSet[1..] && CloneInto(p, origin, open, clone).Fail? :: CloneInto(p, origin, open, clone).error)
  }

  /** Make every later member of a content group share the extents of its first member. */
  method Dedup(dupSet: seq<Path>, open: (Path, OpenMode) -> Outcome<Err>, clone: (Path, Path) -> Outcome<Err>)
    returns (errMap: Option<map<Path, Err>>, attempts: seq<Attempt>)
    requires |dupSet| > 0
    ensures errMap == DedupResult(dupSet, open, clone)
    ensures attempts == DedupAttempts(dupSet, open)
  {
    var origin := dupSet[0];
    var originFile := open(origin, ReadOnly);
    if originFile.Fail? {
      return None, [];
    }
    var rest := dupSet[1..];
    var errs: map<Path, Err> := map[];
    attempts := [];
    for i := 0 to |rest|
      invariant errs == map p | p in rest[..i] && CloneInto(p, origin, open, clone).Fail? :: CloneInto(p, origin, open, clone).error
      invariant |attempts| == i && forall j :: 0 <= j < i ==> attempts[j] == Attempt(rest[j], origin)
    {
      var path := rest[i];
      assert rest[..i + 1] == rest[..i] + [path];
      attempts := attempts + [Attempt(path, origin)];
      var err := CloneInto(path, origin, open, clone);
      if err.Fail? {
        errs := errs[path := err.error];
      }
      MapEquality(errs, map p | p in rest[..i + 1] && CloneInto(p, origin, open, clone).Fail? :: CloneInto(p, origin, open, clone).error);
    }
    assert rest[..|rest|] == rest;
    errMap := Some(errs);
  }

  /**
   * Dedup gives up without a single attempt exactly when the origin cannot be opened
   * read-only; its nil result is then the only sign of that failure.
   */
  lemma DedupOriginUnopenable(dupSet: seq<Path>, open: (Path, OpenMode) -> Outcome<Err>, clone: (Path, Path) -> Outcome<Err>)
    requires |dupSet| > 0
    ensures DedupResult(dupSet, open, clone).None? <==> open(dupSet[0], ReadOnly).Fail?
    ensures open(dupSet[0], ReadOnly).Fail? ==> DedupAttempts(dupSet, open) == []
    ensures |dupSet| > 1 ==> (DedupAttempts(dupSet, open) == [] <==> open(dupSet[0], ReadOnly).Fail?)
  {
  }

  /**
   * Once the origin is open, every later member gets exactly one attempt, in order and
   * whatever the earlier attempts returned; the origin is the source of every attempt
   * and, unless it is listed twice, never a destination.
   */
  lemma DedupAttemptsEveryMember(dupSet: seq<Path>, open: (Path, OpenMode) -> Outcome<Err>)
    requires |dupSet| > 0 && open(dupSet[0], ReadOnly).Pass?
    ensures |DedupAttempts(dupSet, open)| == |dupSet| - 1
    ensures forall i :: 1 <= i < |dupSet| ==> DedupAttempts(dupSet, open)[i - 1] == Attempt(dupSet[i], dupSet[0])
    ensures forall a :: a in DedupAttempts(dupSet, open) ==> a.origin == dupSet[0] && a.dest in dupSet[1..]
    ensures dupSet[0] !in dupSet[1..] ==> forall a :: a in DedupAttempts(dupSet, open) ==> a.dest != dupSet[0]
  {
    var attempts := DedupAttempts(dupSet, open);
    forall a | a in attempts
      ensures a.origin == dupSet[0] && a.dest in dupSet[1..]
    {
      var i :| 0 <= i < |attempts| && attempts[i] == a;
      assert dupSet[1..][i] == dupSet[i + 1];
    }
  }

  /**
   * Once the origin is open, a path is a key of Dedup's result exactly when it is a later
   * member whose open or clone failed; its value is that failure.
   */
  lemma DedupFailuresExact(dupSet: seq<Path>, open: (Path, OpenMode) -> Outcome<Err>, clone: (Path, Path) -> Outcome<Err>, p: Path)
    requires |dupSet| > 0 && open(dupSet[0], ReadOnly).Pass?
    ensures DedupResult(dupSet, open, clone).Some?
    ensures p in DedupResult(dupSet, open, clone).value <==>
      p in dupSet[1..] && (open(p, WriteOnly).Fail? || clone(p, dupSet[0]).Fail?)
    ensures p in DedupResult(dupSet, open, clone).value ==>
      DedupResult(dupSet, open, clone).value[p] ==
        (if open(p, WriteOnly).Fail? then open(p, WriteOnly).error else clone(p, dupSet[0]).error)
  {
  }
}
