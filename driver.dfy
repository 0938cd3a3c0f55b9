/**
 * The pipeline driver of main.go in its non-recursive mode: classify the command-line
 * paths, group them by size, group each size group by content, stop without
 * consolidating anything if any file could not be hashed, add up the reclaimable
 * bytes, then run Dedup on every content group.
 *
 * Go's map iteration order is unspecified; the loops over `sizeMap` and `sumMap`
 * pick their next key with `:|`, so nothing here depends on that order.
 */
module Driver {
  import opened Wrappers
  import opened Host
  import opened Grouping
  import opened Dedup

  /** The errors `_main` returns. */
  datatype RunError = StatError(e: Err) | IsADirectory(path: Path)

  /** One entry of `dupSets`, with the size and checksum it was found under. */
  datatype DupSet = DupSet(size: int, sum: Digest, paths: seq<Path>)

  /**
   * The operating system as the driver sees it. The command-line paths are stat'ed
   * twice, once when classified and once in SeekBySize, and the files may change in
   * between, so the two calls are two oracles. `arrival` gives the order in which the
   * hashing goroutines of one SeekByChecksum call report.
   */
  datatype System = System(
    statArgs: Path -> Result<FileInfo, Err>,
    statSizes: Path -> Result<FileInfo, Err>,
    hash: Path -> Result<Digest, Err>,
    arrival: seq<Path> -> seq<Path>,
    open: (Path, OpenMode) -> Outcome<Err>,
    clone: (Path, Path) -> Outcome<Err>)

  /** Every arrival order is a permutation of the paths being hashed. */
  ghost predicate Schedules(sys: System)
  {
    forall s :: multiset(sys.arrival(s)) == multiset(s)
  }

  // ------------------------------------------------------ path classification

  /** Whether `_main` stops at this argument: it cannot be stat'ed, or it is a directory. */
  ghost predicate Rejected(stat: Path -> Result<FileInfo, Err>, p: Path)
  {
    stat(p).Failure? || stat(p).value.kind == Directory
  }

  /** The error `_main` returns for a rejected argument. */
  ghost function Rejection(stat: Path -> Result<FileInfo, Err>, p: Path): RunError
    requires Rejected(stat, p)
  {
    if stat(p).Failure? then StatError(stat(p).error) else IsADirectory(p)
  }

  /** The list of candidate files `_main` builds from its arguments, or the error it stops with. */
  ghost function Classify(args: seq<Path>, stat: Path -> Result<FileInfo, Err>): Result<seq<Path>, RunError>
  {
    if args == [] then Success([])
    else if Rejected(stat, args[0]) then Failure(Rejection(stat, args[0]))
    else
      var rest := Classify(args[1..], stat);
      if stat(args[0]).value.kind == Regular && rest.Success? then Success([args[0]] + rest.value) else rest
  }

  /** The kind `os.Stat` reports for a path, if it can be stat'ed. */
  ghost function KindKey(stat: Path -> Result<FileInfo, Err>): Path -> Option<FileKind>
  {
    p => if stat(p).Success? then Some(stat(p).value.kind) else None
  }

  /** `acc` followed by the paths of `r`, or the failure of `r`. */
  ghost function Prepend(acc: seq<Path>, r: Result<seq<Path>, RunError>): Result<seq<Path>, RunError>
  {
    if r.Success? then Success(acc + r.value) else r
  }

  /** Keep the regular files among the arguments; stop at the first one that is missing or a directory. */
  method ClassifyArgs(args: seq<Path>, stat: Path -> Result<FileInfo, Err>) returns (r: Result<seq<Path>, RunError>)
    ensures r == Classify(args, stat)
  {
    var filePaths: seq<Path> := [];
    assert args[0..] == args;
    if Classify(args, stat).Success? {
      assert [] + Classify(args, stat).value == Classify(args, stat).value;
    }
    for i := 0 to |args|
      invariant Classify(args, stat) == Prepend(filePaths, Classify(args[i..], stat))
    {
      var filePath := args[i];
      assert args[i..][1..] == args[i + 1..];
      match stat(filePath)
      case Failure(e) =>
        return Failure(StatError(e));
      case Success(info) =>
        if info.kind == Directory {
          return Failure(IsADirectory(filePath));
        } else if info.kind == Regular {
          var rest := Classify(args[i + 1..], stat);
          if rest.Success? {
            assert filePaths + ([filePath] + rest.value) == (filePaths + [filePath]) + rest.value;
          }
          filePaths := filePaths + [filePath];
        }
    }
    assert args[|args|..] == [] && filePaths + [] == filePaths;
    return Success(filePaths);
  }

  /** Classification fails exactly when some argument is rejected, and then with the first rejection. */
  lemma {:induction false} ClassifyStopsAtFirstRejected(args: seq<Path>, stat: Path -> Result<FileInfo, Err>)
    ensures Classify(args, stat).Failure? <==> exists i :: 0 <= i < |args| && Rejected(stat, args[i])
    ensures Classify(args, stat).Failure? ==>
      exists i :: 0 <= i < |args| && Rejected(stat, args[i]) && Classify(args, stat).error == Rejection(stat, args[i]) &&
        forall j :: 0 <= j < i ==> !Rejected(stat, args[j])
  {
    if args != [] {
      var rest := args[1..];
      ClassifyStopsAtFirstRejected(rest, stat);
      assert forall i :: 1 <= i < |args| ==> args[i] == rest[i - 1];
      if !Rejected(stat, args[0]) && Classify(rest, stat).Failure? {
        var i :| 0 <= i < |rest| && Rejected(stat, rest[i]) && Classify(rest, stat).error == Rejection(stat, rest[i]) &&
          forall j :: 0 <= j < i ==> !Rejected(stat, rest[j]);
        assert Rejected(stat, args[i + 1]);
      }
    }
  }

  /** A successful classification keeps exactly the regular files, in argument order, and skips the rest. */
  lemma {:induction false} ClassifyKeepsRegularFiles(args: seq<Path>, stat: Path -> Result<FileInfo, Err>)
    requires Classify(args, stat).Success?
    ensures Classify(args, stat).value == Bucket(args, KindKey(stat), Regular)
  {
    if args != [] {
      ClassifyKeepsRegularFiles(args[1..], stat);
      BucketCons(args[0], args[1..], KindKey(stat), Regular);
      assert [args[0]] + args[1..] == args;
    }
  }

  /** The candidate files are the regular-file arguments, each as often and in the order given. */
  lemma RegularFilesInOrder(args: seq<Path>, stat: Path -> Result<FileInfo, Err>, p: Path) returns (idx: seq<nat>)
    requires Classify(args, stat).Success?
    ensures p in Classify(args, stat).value <==> p in args && stat(p).Success? && stat(p).value.kind == Regular
    ensures PicksOut(idx, Classify(args, stat).value, args)
  {
    ClassifyKeepsRegularFiles(args, stat);
    BucketMembers(args, KindKey(stat), Regular, p);
    idx := BucketKeepsOrder(args, KindKey(stat), Regular);
  }

  // ---------------------------------------------------- size and content stages

  /** The size groups `_main` goes on to hash, or the error it returns before hashing anything. */
  ghost function SizeStage(args: seq<Path>, minSize: int, sys: System): Result<map<int, seq<Path>>, RunError>
  {
    match Classify(args, sys.statArgs)
    case Failure(e) => Failure(e)
    case Success(filePaths) =>
      match SizeGrouping(filePaths, minSize, sys.statSizes)
      case Failure(e) => Failure(StatError(e))
      case Success(sizeMap) => Success(sizeMap)
  }

  /** The content groups SeekByChecksum finds in one size group. */
  ghost function ContentGroupsOf(sizeMap: map<int, seq<Path>>, sys: System, size: int): map<Digest, seq<Path>>
    requires size in sizeMap
  {
    Groups(sys.arrival(sizeMap[size]), HashKey(sys.hash))
  }

  /** Some file of some size group could not be hashed. */
  ghost predicate HashFailed(sizeMap: map<int, seq<Path>>, sys: System)
  {
    exists size :: size in sizeMap && !AllHashed(sizeMap[size], sys.hash)
  }

  /**
   * Every content group of every size group, named by its (size, checksum) pair: the
   * groups the loop over `sizeMap` appends to `dupSets` when no hash fails.
   */
  ghost function ContentGroups(sizeMap: map<int, seq<Path>>, sys: System): map<(int, Digest), seq<Path>>
  {
    map size, sum | size in sizeMap && sum in ContentGroupsOf(sizeMap, sys, size) :: (size, sum) := ContentGroupsOf(sizeMap, sys, size)[sum]
  }

  /** The name of a `dupSets` entry. */
  function Id(d: DupSet): (int, Digest)
  {
    (d.size, d.sum)
  }

  /** The names of the content groups `sums` of the size group `size`. */
  ghost function Names(size: int, sums: set<Digest>): set<(int, Digest)>
  {
    set sum | sum in sums :: (size, sum)
  }

  /** The names of `groups` whose size is in `done`. */
  ghost function IdsOf(groups: map<(int, Digest), seq<Path>>, done: set<int>): set<(int, Digest)>
  {
    set id | id in groups && id.0 in done
  }

  /** `dupSets` lists the groups named in `ids`, each exactly once and with its paths, in some order. */
  ghost predicate ListsOnce(dupSets: seq<DupSet>, ids: set<(int, Digest)>, groups: map<(int, Digest), seq<Path>>)
  {
    && (forall i :: 0 <= i < |dupSets| ==> Id(dupSets[i]) in ids && Id(dupSets[i]) in groups && dupSets[i].paths == groups[Id(dupSets[i])])
    && (forall id :: id in ids ==> exists i :: 0 <= i < |dupSets| && Id(dupSets[i]) == id)
    && (forall i, j :: 0 <= i < j < |dupSets| ==> Id(dupSets[i]) != Id(dupSets[j]))
  }

  /** The bytes a full consolidation of `dupSets` would free: every member but one of each group. */
  ghost function Reclaimable(dupSets: seq<DupSet>): int
  {
    if dupSets == [] then 0
    else
      var last := dupSets[|dupSets| - 1];
      Reclaimable(dupSets[..|dupSets| - 1]) + (|last.paths| - 1) * last.size
  }

  /** The (size, checksum) names are exactly those of the content groups of the size groups. */
  lemma ContentGroupsNamed(sizeMap: map<int, seq<Path>>, sys: System, id: (int, Digest))
    ensures id in ContentGroups(sizeMap, sys) <==> id.0 in sizeMap && id.1 in ContentGroupsOf(sizeMap, sys, id.0)
    ensures id in ContentGroups(sizeMap, sys) ==> ContentGroups(sizeMap, sys)[id] == ContentGroupsOf(sizeMap, sys, id.0)[id.1]
  {
    if id.0 in sizeMap && id.1 in ContentGroupsOf(sizeMap, sys, id.0) {
      assert id == (id.0, id.1);
    }
  }

  /** Finishing one more size group adds the names of its content groups. */
  lemma IdsOfAdd(sizeMap: map<int, seq<Path>>, sys: System, done: set<int>, size: int)
    requires size in sizeMap
    ensures IdsOf(ContentGroups(sizeMap, sys), done + {size}) ==
      IdsOf(ContentGroups(sizeMap, sys), done) + Names(size, ContentGroupsOf(sizeMap, sys, size).Keys)
    ensures forall sum :: sum in ContentGroupsOf(sizeMap, sys, size) ==>
      (size, sum) in ContentGroups(sizeMap, sys) && ContentGroups(sizeMap, sys)[(size, sum)] == ContentGroupsOf(sizeMap, sys, size)[sum]
  {
    var groups := ContentGroups(sizeMap, sys);
    var added := Names(size, ContentGroupsOf(sizeMap, sys, size).Keys);
    forall id
      ensures id in IdsOf(groups, done + {size}) <==> id in IdsOf(groups, done) + added
    {
      ContentGroupsNamed(sizeMap, sys, id);
    }
    SetEquality(IdsOf(groups, done + {size}), IdsOf(groups, done) + added);
    forall sum | sum in ContentGroupsOf(sizeMap, sys, size)
      ensures (size, sum) in groups && groups[(size, sum)] == ContentGroupsOf(sizeMap, sys, size)[sum]
    {
      ContentGroupsNamed(sizeMap, sys, (size, sum));
    }
  }

  /** Once every size group is done, the names are all of them. */
  lemma IdsOfAll(sizeMap: map<int, seq<Path>>, sys: System)
    ensures IdsOf(ContentGroups(sizeMap, sys), sizeMap.Keys) == ContentGroups(sizeMap, sys).Keys
  {
    var groups := ContentGroups(sizeMap, sys);
    forall id | id in groups
      ensures id.0 in sizeMap
    {
      ContentGroupsNamed(sizeMap, sys, id);
    }
    SetEquality(IdsOf(groups, sizeMap.Keys), groups.Keys);
  }

  /** Listing one more group. */
  lemma ListsOnceSnoc(dupSets: seq<DupSet>, ids: set<(int, Digest)>, groups: map<(int, Digest), seq<Path>>, d: DupSet)
    requires ListsOnce(dupSets, ids, groups)
    requires Id(d) !in ids && Id(d) in groups && d.paths == groups[Id(d)]
    ensures ListsOnce(dupSets + [d], ids + {Id(d)}, groups)
  {
    var s := dupSets + [d];
    forall id | id in ids + {Id(d)}
      ensures exists i :: 0 <= i < |s| && Id(s[i]) == id
    {
      if id == Id(d) {
        assert Id(s[|dupSets|]) == id;
      } else {
        var i :| 0 <= i < |dupSets| && Id(dupSets[i]) == id;
        assert Id(s[i]) == id;
      }
    }
  }

  /** Naming one more content group of the size group `size`. */
  lemma NameAdded(ids: set<(int, Digest)>, size: int, listed: set<Digest>, sum: Digest)
    requires forall id :: id in ids ==> id.0 != size
    requires sum !in listed
    ensures (size, sum) !in ids + Names(size, listed)
    ensures ids + Names(size, listed) + {(size, sum)} == ids + Names(size, listed + {sum})
  {
    SetEquality(ids + Names(size, listed) + {(size, sum)}, ids + Names(size, listed + {sum}));
  }

  /** Listing one more group adds its reclaimable bytes. */
  lemma ReclaimableSnoc(dupSets: seq<DupSet>, d: DupSet)
    ensures Reclaimable(dupSets + [d]) == Reclaimable(dupSets) + (|d.paths| - 1) * d.size
  {
    assert (dupSets + [d])[..|dupSets|] == dupSets;
  }

  /** One turn of the loop over `sumMap`: the listing stays exact and the total follows it. */
  lemma ContentGroupListed(dupSets: seq<DupSet>, named: set<(int, Digest)>, groups: map<(int, Digest), seq<Path>>,
                           ids: set<(int, Digest)>, size: int, listed: set<Digest>, sum: Digest, paths: seq<Path>)
    requires named == ids + Names(size, listed) && ListsOnce(dupSets, named, groups)
    requires (forall id :: id in ids ==> id.0 != size) && sum !in listed
    requires (size, sum) in groups && groups[(size, sum)] == paths
    ensures named + {(size, sum)} == ids + Names(size, listed + {sum})
    ensures ListsOnce(dupSets + [DupSet(size, sum, paths)], named + {(size, sum)}, groups)
    ensures Reclaimable(dupSets + [DupSet(size, sum, paths)]) == Reclaimable(dupSets) + (|paths| - 1) * size
  {
    NameAdded(ids, size, listed, sum);
    ListsOnceSnoc(dupSets, named, groups, DupSet(size, sum, paths));
    ReclaimableSnoc(dupSets, DupSet(size, sum, paths));
  }

  /**
   * The inner loop over `sumMap` (main.go:107-116): append each content group of the
   * size group `size` to `dupSets` and add its reclaimable bytes to `totalDup`.
   */
  method AppendContentGroups(size: int, sumMap: map<Digest, seq<Path>>, dupSets0: seq<DupSet>, totalDup0: int,
                             ghost ids: set<(int, Digest)>, ghost groups: map<(int, Digest), seq<Path>>)
    returns (dupSets: seq<DupSet>, totalDup: int)
    requires forall sum :: sum in sumMap ==> (size, sum) in groups && groups[(size, sum)] == sumMap[sum]
    requires forall id :: id in ids ==> id.0 != size
    requires ListsOnce(dupSets0, ids, groups) && totalDup0 == Reclaimable(dupSets0)
    ensures ListsOnce(dupSets, ids + Names(size, sumMap.Keys), groups)
    ensures totalDup == Reclaimable(dupSets)
  {
    dupSets, totalDup := dupSets0, totalDup0;
    var sums := sumMap.Keys;
    ghost var listed: set<Digest> := {};
    ghost var named := ids;
    assert Names(size, listed) == {};
    while sums != {}
      invariant sums !! listed && sums + listed == sumMap.Keys
      invariant named == ids + Names(size, listed)
      invariant ListsOnce(dupSets, named, groups)
      invariant totalDup == Reclaimable(dupSets)
      decreases sums
    {
      var sum :| sum in sums;
      var sumSet := sumMap[sum];
      ContentGroupListed(dupSets, named, groups, ids, size, listed, sum, sumSet);
      dupSets := dupSets + [DupSet(size, sum, sumSet)];
      totalDup := totalDup + (|sumSet| - 1) * size;
      sums, listed, named := sums - {sum}, listed + {sum}, named + {(size, sum)};
    }
  }

  /**
   * One turn of the loop over `sizeMap` (main.go:98-116): hash the size group `size`;
   * if a file could not be hashed report `failed`, otherwise list its content groups.
   */
  method HashSizeGroup(size: int, sizeMap: map<int, seq<Path>>, sys: System, dupSets0: seq<DupSet>, totalDup0: int,
                       ghost done: set<int>, ghost groups: map<(int, Digest), seq<Path>>)
    returns (failed: bool, dupSets: seq<DupSet>, totalDup: int)
    requires Schedules(sys) && groups == ContentGroups(sizeMap, sys)
    requires size in sizeMap && size !in done
    requires ListsOnce(dupSets0, IdsOf(groups, done), groups) && totalDup0 == Reclaimable(dupSets0)
    ensures failed <==> !AllHashed(sizeMap[size], sys.hash)
    ensures !failed ==> ListsOnce(dupSets, IdsOf(groups, done + {size}), groups) && totalDup == Reclaimable(dupSets)
  {
    var sizeSet := sizeMap[size];
    var sumMap, errMap := SeekByChecksum(sizeSet, sys.hash, sys.arrival(sizeSet));
    HashErrorsEmpty(sizeSet, sys.hash);
    if |errMap| != 0 {
      return true, dupSets0, totalDup0;
    }
    IdsOfAdd(sizeMap, sys, done, size);
    failed := false;
    dupSets, totalDup := AppendContentGroups(size, sumMap, dupSets0, totalDup0, IdsOf(groups, done), groups);
  }

  /**
   * The loop over `sizeMap` (main.go:97-117): hash each size group and append its content
   * groups to `dupSets`, adding their reclaimable bytes to `totalDup`; report `failed` as
   * soon as one size group has a file that could not be hashed.
   */
  method CollectDupSets(sizeMap: map<int, seq<Path>>, sys: System)
    returns (failed: bool, dupSets: seq<DupSet>, totalDup: int)
    requires Schedules(sys)
    ensures failed <==> HashFailed(sizeMap, sys)
    ensures !failed ==> ListsOnce(dupSets, ContentGroups(sizeMap, sys).Keys, ContentGroups(sizeMap, sys))
    ensures !failed ==> totalDup == Reclaimable(dupSets)
  {
    failed, dupSets, totalDup := false, [], 0;
    ghost var groups := ContentGroups(sizeMap, sys);
    var pending := sizeMap.Keys;
    ghost var done: set<int> := {};
    while pending != {}
      invariant !failed && pending !! done && pending + done == sizeMap.Keys
      invariant forall size :: size in done ==> AllHashed(sizeMap[size], sys.hash)
      invariant ListsOnce(dupSets, IdsOf(groups, done), groups)
      invariant totalDup == Reclaimable(dupSets)
      decreases pending
    {
      // Without this witness the verifier, in this larger context, cannot show that `:|` has a choice.
      ghost var next := Pick(pending);
      var size :| size in pending;
      failed, dupSets, totalDup := HashSizeGroup(size, sizeMap, sys, dupSets, totalDup, done, groups);
      if failed {
        return;
      }
      pending, done := pending - {size}, done + {size};
    }
    IdsOfAll(sizeMap, sys);
  }

  // ------------------------------------------------------------ consolidation

  /** Every clone attempt of consolidating `dupSets` in order. */
  ghost function AllAttempts(dupSets: seq<DupSet>, open: (Path, OpenMode) -> Outcome<Err>): seq<Attempt>
    requires forall i :: 0 <= i < |dupSets| ==> |dupSets[i].paths| > 0
  {
    if dupSets == [] then []
    else AllAttempts(dupSets[..|dupSets| - 1], open) + DedupAttempts(dupSets[|dupSets| - 1].paths, open)
  }

  /** What each Dedup call returns when consolidating `dupSets` in order. */
  ghost function AllResults(dupSets: seq<DupSet>, open: (Path, OpenMode) -> Outcome<Err>, clone: (Path, Path) -> Outcome<Err>)
    : seq<Option<map<Path, Err>>>
    requires forall i :: 0 <= i < |dupSets| ==> |dupSets[i].paths| > 0
  {
    if dupSets == [] then []
    else AllResults(dupSets[..|dupSets| - 1], open, clone) + [DedupResult(dupSets[|dupSets| - 1].paths, open, clone)]
  }

  /** One result per group, in order: the i-th is what Dedup returns for the i-th group. */
  lemma {:induction false} AllResultsAt(dupSets: seq<DupSet>, open: (Path, OpenMode) -> Outcome<Err>, clone: (Path, Path) -> Outcome<Err>)
    requires forall i :: 0 <= i < |dupSets| ==> |dupSets[i].paths| > 0
    ensures |AllResults(dupSets, open, clone)| == |dupSets|
    ensures forall i :: 0 <= i < |dupSets| ==> AllResults(dupSets, open, clone)[i] == DedupResult(dupSets[i].paths, open, clone)
  {
    if dupSets != [] {
      var n := |dupSets| - 1;
      AllResultsAt(dupSets[..n], open, clone);
      forall i | 0 <= i < n
        ensures AllResults(dupSets, open, clone)[i] == DedupResult(dupSets[i].paths, open, clone)
      {
        assert dupSets[..n][i] == dupSets[i];
      }
    }
  }

  /** Consolidating one more group adds its result and its attempts at the end. */
  lemma ConsolidateSnoc(dupSets: seq<DupSet>, i: nat, open: (Path, OpenMode) -> Outcome<Err>)
    requires i < |dupSets|
    requires forall j :: 0 <= j < |dupSets| ==> |dupSets[j].paths| > 0
    ensures AllAttempts(dupSets[..i + 1], open) == AllAttempts(dupSets[..i], open) + DedupAttempts(dupSets[i].paths, open)
    ensures forall clone :: AllResults(dupSets[..i + 1], open, clone) == AllResults(dupSets[..i], open, clone) + [DedupResult(dupSets[i].paths, open, clone)]
  {
    assert dupSets[..i + 1][..i] == dupSets[..i];
  }

  /** The loop over `dupSets` (main.go:121-126): run Dedup on each, whatever the earlier ones returned. */
  method DedupAll(dupSets: seq<DupSet>, open: (Path, OpenMode) -> Outcome<Err>, clone: (Path, Path) -> Outcome<Err>)
    returns (results: seq<Option<map<Path, Err>>>, attempts: seq<Attempt>)
    requires forall i :: 0 <= i < |dupSets| ==> |dupSets[i].paths| > 0
    ensures results == AllResults(dupSets, open, clone)
    ensures attempts == AllAttempts(dupSets, open)
  {
    results, attempts := [], [];
    for i := 0 to |dupSets|
      invariant results == AllResults(dupSets[..i], open, clone)
      invariant attempts == AllAttempts(dupSets[..i], open)
    {
      var errMap, tried := Dedup.Dedup(dupSets[i].paths, open, clone);
      ConsolidateSnoc(dupSets, i, open);
      results := results + [errMap];
      attempts := attempts + tried;
    }
    assert dupSets[..|dupSets|] == dupSets;
  }

  /** Every content group the driver lists holds at least two paths. */
  lemma ListedGroupsHoldTwo(dupSets: seq<DupSet>, ids: set<(int, Digest)>, sizeMap: map<int, seq<Path>>, sys: System)
    requires ListsOnce(dupSets, ids, ContentGroups(sizeMap, sys))
    ensures forall i :: 0 <= i < |dupSets| ==> |dupSets[i].paths| >= 2
  {
    forall i | 0 <= i < |dupSets|
      ensures |dupSets[i].paths| >= 2
    {
      var d := dupSets[i];
      ContentGroupsNamed(sizeMap, sys, Id(d));
      ContentGroupsSound(sys.arrival(sizeMap[d.size]), sys.hash, d.sum, d.paths[0]);
    }
  }

  // ------------------------------------------------------------------- _main

  /**
   * `_main` in non-recursive mode, after flag parsing. `err` is what it returns;
   * `results` holds what each Dedup call returned, one per group in `dupSets` order,
   * and `attempts` every clone attempt made; `dupSets` and `totalDup` are
   * the groups and the byte total it reports before consolidating.
   */
  method Run(args: seq<Path>, minSize: int, sys: System)
    returns (err: Option<RunError>, dupSets: seq<DupSet>, totalDup: int,
             results: seq<Option<map<Path, Err>>>, attempts: seq<Attempt>)
    requires Schedules(sys)
    ensures SizeStage(args, minSize, sys).Failure? ==>
      err == Some(SizeStage(args, minSize, sys).error) && results == [] && attempts == []
    ensures SizeStage(args, minSize, sys).Success? && HashFailed(SizeStage(args, minSize, sys).value, sys) ==>
      err == None && results == [] && attempts == []
    ensures SizeStage(args, minSize, sys).Success? && !HashFailed(SizeStage(args, minSize, sys).value, sys) ==>
      var sizeMap := SizeStage(args, minSize, sys).value;
      && err == None
      && ListsOnce(dupSets, ContentGroups(sizeMap, sys).Keys, ContentGroups(sizeMap, sys))
      && totalDup == Reclaimable(dupSets)
      && (forall i :: 0 <= i < |dupSets| ==> |dupSets[i].paths| >= 2)
      && |results| == |dupSets|
      && (forall i :: 0 <= i < |dupSets| ==> results[i] == DedupResult(dupSets[i].paths, sys.open, sys.clone))
      && attempts == AllAttempts(dupSets, sys.open)
  {
    dupSets, totalDup, results, attempts := [], 0, [], [];
    var classified := ClassifyArgs(args, sys.statArgs);
    if classified.Failure? {
      return Some(classified.error), dupSets, totalDup, results, attempts;
    }
    var sized := SeekBySize(classified.value, minSize, sys.statSizes);
    if sized.Failure? {
      return Some(StatError(sized.error)), dupSets, totalDup, results, attempts;
    }
    var sizeMap := sized.value;
    var failed;
    failed, dupSets, totalDup := CollectDupSets(sizeMap, sys);
    if failed {
      return None, dupSets, totalDup, results, attempts;
    }
    ListedGroupsHoldTwo(dupSets, ContentGroups(sizeMap, sys).Keys, sizeMap, sys);
    results, attempts := DedupAll(dupSets, sys.open, sys.clone);
    AllResultsAt(dupSets, sys.open, sys.clone);
    err := None;
  }

  // ------------------------------------------------ the reclaimable-bytes total

  /** The total over two lists is the sum of their totals. */
  lemma {:induction false} ReclaimableAppend(a: seq<DupSet>, b: seq<DupSet>)
    ensures Reclaimable(a + b) == Reclaimable(a) + Reclaimable(b)
  {
    if b != [] {
      var n := |b| - 1;
      ReclaimableAppend(a, b[..n]);
      var ab := a + b;
      assert ab[..|ab| - 1] == a + b[..n];
      assert ab[|ab| - 1] == b[n];
      assert Reclaimable(ab) == Reclaimable(a + b[..n]) + (|b[n].paths| - 1) * b[n].size;
    } else {
      assert a + b == a;
    }
  }

  /** Taking out one group takes out its reclaimable bytes. */
  lemma ReclaimableRemove(b: seq<DupSet>, j: nat)
    requires j < |b|
    ensures Reclaimable(b) == Reclaimable(b[..j] + b[j + 1..]) + (|b[j].paths| - 1) * b[j].size
  {
    assert b == (b[..j] + [b[j]]) + b[j + 1..];
    ReclaimableAppend(b[..j] + [b[j]], b[j + 1..]);
    ReclaimableAppend(b[..j], b[j + 1..]);
    ReclaimableSnoc(b[..j], b[j]);
  }

  /** Taking the last element out of one of two permutations of each other, and one occurrence of it out of the other. */
  lemma RemoveFromPermutation<T>(a: seq<T>, b: seq<T>, j: nat)
    requires multiset(a) == multiset(b) && a != [] && j < |b| && b[j] == a[|a| - 1]
    ensures multiset(a[..|a| - 1]) == multiset(b[..j] + b[j + 1..])
  {
    var n, x := |a| - 1, b[j];
    var left, right := multiset(a[..n]), multiset(b[..j] + b[j + 1..]);
    assert a == a[..n] + [x];
    assert multiset(a) == left + multiset{x};
    assert b == b[..j] + [x] + b[j + 1..];
    assert multiset(b) == multiset(b[..j]) + multiset{x} + multiset(b[j + 1..]);
    assert right == multiset(b[..j]) + multiset(b[j + 1..]);
    forall y
      ensures left[y] == right[y]
    {
      assert (left + multiset{x})[y] == (right + multiset{x})[y];
    }
    MultisetEquality(left, right);
  }

  /** The total does not depend on the order the groups are listed in. */
  lemma {:induction false} ReclaimablePermutation(a: seq<DupSet>, b: seq<DupSet>)
    requires multiset(a) == multiset(b)
    ensures Reclaimable(a) == Reclaimable(b)
  {
    if a != [] {
      var n := |a| - 1;
      assert a[n] in multiset(b);
      var j :| 0 <= j < |b| && b[j] == a[n];
      RemoveFromPermutation(a, b, j);
      ReclaimablePermutation(a[..n], b[..j] + b[j + 1..]);
      ReclaimableRemove(b, j);
    }
  }

  /** In a list whose names are distinct, every entry occurs once. */
  lemma {:induction false} DistinctOnce(a: seq<DupSet>, x: DupSet)
    requires forall i, j :: 0 <= i < j < |a| ==> Id(a[i]) != Id(a[j])
    ensures multiset(a)[x] == if x in a then 1 else 0
  {
    if a != [] {
      var n := |a| - 1;
      DistinctOnce(a[..n], x);
      assert a == a[..n] + [a[n]];
      if x == a[n] {
        assert x !in a[..n];
      }
    }
  }

  /**
   * Whatever order `sizeMap` and `sumMap` are iterated in, `dupSets` holds the same
   * groups, so `totalDup` is the same: the sum of (members - 1) * size over every
   * listed group.
   */
  lemma TotalDupIndependentOfOrder(a: seq<DupSet>, b: seq<DupSet>, ids: set<(int, Digest)>, groups: map<(int, Digest), seq<Path>>)
    requires ListsOnce(a, ids, groups)
    requires ListsOnce(b, ids, groups)
    ensures multiset(a) == multiset(b)
    ensures Reclaimable(a) == Reclaimable(b)
  {
    forall x
      ensures multiset(a)[x] == multiset(b)[x]
    {
      DistinctOnce(a, x);
      DistinctOnce(b, x);
      if x in a {
        var i :| 0 <= i < |a| && a[i] == x;
        var j :| 0 <= j < |b| && Id(b[j]) == Id(x);
        assert b[j] == x;
      }
      if x in b {
        var j :| 0 <= j < |b| && b[j] == x;
        var i :| 0 <= i < |a| && Id(a[i]) == Id(x);
        assert a[i] == x;
      }
    }
    MultisetEquality(multiset(a), multiset(b));
    ReclaimablePermutation(a, b);
  }
}
