/** What the two directory walks do to the local files: they touch only the local paths of
    the tree's files, and a second unforced walk right after a first one skips every file
    and changes nothing. */
module WalkEffects {
  import opened Wrappers
  import opened Remote
  import opened SkipPolicy
  import opened Transfers
  import opened Walks
  import WalkCounts

  // ---------------------------------------------------------------------------------------
  // Frame
  // ---------------------------------------------------------------------------------------

  /** No uri of `us` lands on the local path `p`. */
  predicate Clear(roots: Roots, us: set<string>, p: string)
  {
    forall u :: u in us ==> TargetPath(roots, u, None) != p
  }

  /** A level's transfers leave every other local path as it was. */
  lemma {:induction false} RunFilesFrame(roots: Roots, files: seq<string>, info: map<string, FileInfo>,
                                         policy: Policy, dev: Device, b: Batch, p: string)
    requires forall i :: 0 <= i < |files| ==> TargetPath(roots, files[i], None) != p
    decreases |files|
    ensures Get(RunFiles(roots, files, info, policy, dev, b).fs, p) == Get(b.fs, p)
  {
    if files != [] {
      var s := Transfer(roots, files[0], None, policy, Get(info, files[0]), dev, b.fs);
      TransferOutcome(roots, files[0], None, policy, Get(info, files[0]), dev, b.fs);
      RunFilesFrame(roots, files[1..], info, policy, dev,
        Batch(b.success + (if s.result == Returned(true) then 1 else 0), b.raised || s.result == Raised, s.fs), p);
    }
  }

  /** The files of a level are among the uris of its tree. */
  lemma LevelFilesClear(roots: Roots, items: seq<Entry>, p: string)
    requires Clear(roots, EntriesUris(items), p)
    ensures forall i :: 0 <= i < |FileUris(items)| ==> TargetPath(roots, FileUris(items)[i], None) != p
    ensures Clear(roots, AllUris(Subdirs(items)), p)
  {
    UrisSplit(items);
    forall i | 0 <= i < |FileUris(items)| ensures TargetPath(roots, FileUris(items)[i], None) != p {
      assert FileUris(items)[i] in EntriesUris(items);
    }
  }

  /** The uris of a run of directories are those of the first and those of the rest. */
  lemma ClearSplits(roots: Roots, dirs: seq<Listing>, p: string)
    requires dirs != [] && Clear(roots, AllUris(dirs), p)
    ensures Clear(roots, TreeUris(dirs[0]), p) && Clear(roots, AllUris(dirs[1..]), p)
  {
  }

  lemma {:induction false} AsyncWalkFrameAt(roots: Roots, l: Listing, policy: Policy, dev: Device, fs: Files, p: string)
    requires Clear(roots, TreeUris(l), p)
    decreases Size(l)
    ensures Get(AsyncWalk(roots, l, policy, dev, fs).fs, p) == Get(fs, p)
  {
    match l
    case NoData =>
    case FileList(items) =>
      var files := FileUris(items);
      var b := RunFiles(roots, files, InfoMap(items), policy, dev, Batch(0, false, fs));
      LevelFilesClear(roots, items, p);
      RunFilesFrame(roots, files, InfoMap(items), policy, dev, Batch(0, false, fs), p);
      AsyncWalkLevel(roots, items, policy, dev, fs);
      SubdirsSmaller(items);
      AsyncSubdirsFrameAt(roots, Subdirs(items), policy, dev, Counts(b.success, |files|), b.fs, p);
  }

  lemma {:induction false} AsyncSubdirsFrameAt(roots: Roots, dirs: seq<Listing>, policy: Policy, dev: Device,
                                               acc: Counts, fs: Files, p: string)
    requires Clear(roots, AllUris(dirs), p)
    decreases SizeAll(dirs)
    ensures Get(AsyncSubdirs(roots, dirs, policy, dev, acc, fs).fs, p) == Get(fs, p)
  {
    if dirs != [] {
      var s := AsyncWalk(roots, dirs[0], policy, dev, fs);
      ClearSplits(roots, dirs, p);
      AsyncWalkFrameAt(roots, dirs[0], policy, dev, fs, p);
      AsyncSubdirsStep(roots, dirs, policy, dev, acc, fs);
      AsyncSubdirsFrameAt(roots, dirs[1..], policy, dev,
        Counts(acc.success + s.counts.success, acc.total + s.counts.total), s.fs, p);
    }
  }

  lemma {:induction false} SyncWalkFrameAt(roots: Roots, l: Listing, maxWorkers: int, policy: Policy, dev: Device,
                                           fs: Files, p: string)
    requires Clear(roots, TreeUris(l), p)
    decreases Size(l)
    ensures Get(SyncWalk(roots, l, maxWorkers, policy, dev, fs).fs, p) == Get(fs, p)
  {
    match l
    case NoData =>
    case FileList(items) =>
      var files := FileUris(items);
      var b := RunFiles(roots, files, InfoMap(items), policy, dev, Batch(0, false, fs));
      LevelFilesClear(roots, items, p);
      RunFilesFrame(roots, files, InfoMap(items), policy, dev, Batch(0, false, fs), p);
      if !(files != [] && maxWorkers <= 0) && !b.raised {
        SubdirsSmaller(items);
        SyncSubdirsFrameAt(roots, Subdirs(items), maxWorkers, policy, dev, Counts(b.success, |files|), b.fs, p);
      }
  }

  lemma {:induction false} SyncSubdirsFrameAt(roots: Roots, dirs: seq<Listing>, maxWorkers: int, policy: Policy,
                                              dev: Device, acc: Counts, fs: Files, p: string)
    requires Clear(roots, AllUris(dirs), p)
    decreases SizeAll(dirs)
    ensures Get(SyncSubdirs(roots, dirs, maxWorkers, policy, dev, acc, fs).fs, p) == Get(fs, p)
  {
    if dirs != [] {
      var s := SyncWalk(roots, dirs[0], maxWorkers, policy, dev, fs);
      ClearSplits(roots, dirs, p);
      SyncWalkFrameAt(roots, dirs[0], maxWorkers, policy, dev, fs, p);
      SyncSubdirsStep(roots, dirs, maxWorkers, policy, dev, acc, fs);
      if s.outcome.Done? {
        var c := s.outcome.counts;
        SyncSubdirsFrameAt(roots, dirs[1..], maxWorkers, policy, dev,
          Counts(acc.success + c.success, acc.total + c.total), s.fs, p);
      }
    }
  }

  /** The asynchronous walk changes no local path but those of the tree's files: any other
      path is present afterwards exactly when it was before, with the same length. */
  lemma AsyncWalkFrame(roots: Roots, l: Listing, policy: Policy, dev: Device, fs: Files)
    ensures forall p :: Clear(roots, TreeUris(l), p) ==>
      Get(AsyncWalk(roots, l, policy, dev, fs).fs, p) == Get(fs, p)
  {
    forall p | Clear(roots, TreeUris(l), p) ensures Get(AsyncWalk(roots, l, policy, dev, fs).fs, p) == Get(fs, p) {
      AsyncWalkFrameAt(roots, l, policy, dev, fs, p);
    }
  }

  /** The same holds of the synchronous walk, however it ends. */
  lemma SyncWalkFrame(roots: Roots, l: Listing, maxWorkers: int, policy: Policy, dev: Device, fs: Files)
    ensures forall p :: Clear(roots, TreeUris(l), p) ==>
      Get(SyncWalk(roots, l, maxWorkers, policy, dev, fs).fs, p) == Get(fs, p)
  {
    forall p | Clear(roots, TreeUris(l), p)
      ensures Get(SyncWalk(roots, l, maxWorkers, policy, dev, fs).fs, p) == Get(fs, p)
    {
      SyncWalkFrameAt(roots, l, maxWorkers, policy, dev, fs, p);
    }
  }

  // ---------------------------------------------------------------------------------------
  // A second run
  // ---------------------------------------------------------------------------------------

  /** The entries the walk hands to its transfers: at each level, the values of
      `file_info_map`, the last entry of each file uri. */
  function UsedInfos(l: Listing): set<FileInfo>
    decreases Size(l)
  {
    match l
    case NoData => {}
    case FileList(items) =>
      SubdirsSmaller(items);
      InfoMap(items).Values + UsedAll(Subdirs(items))
  }

  function UsedAll(dirs: seq<Listing>): set<FileInfo>
    decreases SizeAll(dirs)
  {
    if dirs == [] then {} else UsedInfos(dirs[0]) + UsedAll(dirs[1..])
  }

  /** Every entry of `s` agrees with what the device serves. */
  predicate AllAgree(roots: Roots, s: set<FileInfo>, dev: Device)
  {
    forall e :: e in s ==> Agrees(roots, e, dev)
  }

  /** The local file of every entry of `s` is present and current. */
  predicate AllFresh(roots: Roots, s: set<FileInfo>, checkSize: bool, fs: Files)
  {
    forall e :: e in s ==> Fresh(roots, e, checkSize, fs)
  }

  /** What a level's `file_info_map` gives for each of its files: the entry of that uri. */
  predicate InfoFor(files: seq<string>, info: map<string, FileInfo>)
  {
    forall i :: 0 <= i < |files| ==> files[i] in info && info[files[i]].uri == files[i]
  }

  lemma LevelInfo(items: seq<Entry>)
    ensures InfoFor(FileUris(items), InfoMap(items))
    ensures forall e :: e in InfoMap(items).Values ==> exists i :: 0 <= i < |FileUris(items)| && InfoMap(items)[FileUris(items)[i]] == e
  {
    var files, info := FileUris(items), InfoMap(items);
    InfoMapKeys(items);
    forall i | 0 <= i < |files| ensures files[i] in info && info[files[i]].uri == files[i] {
      assert files[i] in info;
      InfoMapUnderOwnUri(items, files[i]);
    }
    forall e | e in info.Values ensures exists i :: 0 <= i < |files| && info[files[i]] == e {
      var u :| u in info && info[u] == e;
      assert u in files;
      var i :| 0 <= i < |files| && files[i] == u;
    }
  }

  // Fresh files stay fresh.

  lemma {:induction false} RunFilesKeepsFresh(roots: Roots, files: seq<string>, info: map<string, FileInfo>,
                                              policy: Policy, dev: Device, b: Batch, e: FileInfo, checkSize: bool)
    requires Agrees(roots, e, dev) && Fresh(roots, e, checkSize, b.fs)
    decreases |files|
    ensures Fresh(roots, e, checkSize, RunFiles(roots, files, info, policy, dev, b).fs)
  {
    if files != [] {
      var s := Transfer(roots, files[0], None, policy, Get(info, files[0]), dev, b.fs);
      TransferKeepsFresh(roots, files[0], policy, Get(info, files[0]), dev, b.fs, e, checkSize);
      RunFilesKeepsFresh(roots, files[1..], info, policy, dev,
        Batch(b.success + (if s.result == Returned(true) then 1 else 0), b.raised || s.result == Raised, s.fs), e, checkSize);
    }
  }

  lemma {:induction false} AsyncWalkKeepsFresh(roots: Roots, l: Listing, policy: Policy, dev: Device, fs: Files,
                                               e: FileInfo, checkSize: bool)
    requires Agrees(roots, e, dev) && Fresh(roots, e, checkSize, fs)
    decreases Size(l)
    ensures Fresh(roots, e, checkSize, AsyncWalk(roots, l, policy, dev, fs).fs)
  {
    match l
    case NoData =>
    case FileList(items) =>
      var files := FileUris(items);
      var b := RunFiles(roots, files, InfoMap(items), policy, dev, Batch(0, false, fs));
      RunFilesKeepsFresh(roots, files, InfoMap(items), policy, dev, Batch(0, false, fs), e, checkSize);
      AsyncWalkLevel(roots, items, policy, dev, fs);
      SubdirsSmaller(items);
      AsyncSubdirsKeepsFresh(roots, Subdirs(items), policy, dev, Counts(b.success, |files|), b.fs, e, checkSize);
  }

  lemma {:induction false} AsyncSubdirsKeepsFresh(roots: Roots, dirs: seq<Listing>, policy: Policy, dev: Device,
                                                  acc: Counts, fs: Files, e: FileInfo, checkSize: bool)
    requires Agrees(roots, e, dev) && Fresh(roots, e, checkSize, fs)
    decreases SizeAll(dirs)
    ensures Fresh(roots, e, checkSize, AsyncSubdirs(roots, dirs, policy, dev, acc, fs).fs)
  {
    if dirs != [] {
      var s := AsyncWalk(roots, dirs[0], policy, dev, fs);
      AsyncWalkKeepsFresh(roots, dirs[0], policy, dev, fs, e, checkSize);
      AsyncSubdirsStep(roots, dirs, policy, dev, acc, fs);
      AsyncSubdirsKeepsFresh(roots, dirs[1..], policy, dev,
        Counts(acc.success + s.counts.success, acc.total + s.counts.total), s.fs, e, checkSize);
    }
  }

  // The first run makes every used entry's file fresh.

  lemma {:induction false} RunFilesMakesFresh(roots: Roots, files: seq<string>, info: map<string, FileInfo>,
                                              policy: Policy, dev: Device, b: Batch)
    requires !policy.force && InfoFor(files, info)
    requires forall i :: 0 <= i < |files| ==> Agrees(roots, info[files[i]], dev)
    decreases |files|
    ensures forall i :: 0 <= i < |files| ==>
      Fresh(roots, info[files[i]], policy.checkSize, RunFiles(roots, files, info, policy, dev, b).fs)
  {
    if files != [] {
      var e := info[files[0]];
      var s := Transfer(roots, files[0], None, policy, Get(info, files[0]), dev, b.fs);
      assert Get(info, files[0]) == Some(e) && e.uri == files[0];
      TransferMakesFresh(roots, e, policy, dev, b.fs);
      var b' := Batch(b.success + (if s.result == Returned(true) then 1 else 0), b.raised || s.result == Raised, s.fs);
      assert InfoFor(files[1..], info);
      RunFilesMakesFresh(roots, files[1..], info, policy, dev, b');
      RunFilesKeepsFresh(roots, files[1..], info, policy, dev, b', e, policy.checkSize);
      forall i | 0 < i < |files|
        ensures Fresh(roots, info[files[i]], policy.checkSize, RunFiles(roots, files, info, policy, dev, b).fs)
      {
        assert files[i] == files[1..][i - 1];
      }
    }
  }

  lemma {:induction false} AsyncWalkMakesFresh(roots: Roots, l: Listing, policy: Policy, dev: Device, fs: Files)
    requires !policy.force && AllAgree(roots, UsedInfos(l), dev)
    decreases Size(l)
    ensures AllFresh(roots, UsedInfos(l), policy.checkSize, AsyncWalk(roots, l, policy, dev, fs).fs)
  {
    match l
    case NoData =>
    case FileList(items) =>
      var files, info := FileUris(items), InfoMap(items);
      var b := RunFiles(roots, files, info, policy, dev, Batch(0, false, fs));
      LevelInfo(items);
      RunFilesMakesFresh(roots, files, info, policy, dev, Batch(0, false, fs));
      AsyncWalkLevel(roots, items, policy, dev, fs);
      SubdirsSmaller(items);
      var acc := Counts(b.success, |files|);
      AsyncSubdirsMakesFresh(roots, Subdirs(items), policy, dev, acc, b.fs);
      var w := AsyncSubdirs(roots, Subdirs(items), policy, dev, acc, b.fs);
      forall e | e in info.Values ensures Fresh(roots, e, policy.checkSize, w.fs) {
        var i :| 0 <= i < |files| && info[files[i]] == e;
        AsyncSubdirsKeepsFresh(roots, Subdirs(items), policy, dev, acc, b.fs, e, policy.checkSize);
      }
  }

  lemma {:induction false} AsyncSubdirsMakesFresh(roots: Roots, dirs: seq<Listing>, policy: Policy, dev: Device,
                                                  acc: Counts, fs: Files)
    requires !policy.force && AllAgree(roots, UsedAll(dirs), dev)
    decreases SizeAll(dirs)
    ensures AllFresh(roots, UsedAll(dirs), policy.checkSize, AsyncSubdirs(roots, dirs, policy, dev, acc, fs).fs)
  {
    if dirs != [] {
      var s := AsyncWalk(roots, dirs[0], policy, dev, fs);
      AsyncWalkMakesFresh(roots, dirs[0], policy, dev, fs);
      AsyncSubdirsStep(roots, dirs, policy, dev, acc, fs);
      var acc' := Counts(acc.success + s.counts.success, acc.total + s.counts.total);
      AsyncSubdirsMakesFresh(roots, dirs[1..], policy, dev, acc', s.fs);
      forall e | e in UsedInfos(dirs[0])
        ensures Fresh(roots, e, policy.checkSize, AsyncSubdirs(roots, dirs[1..], policy, dev, acc', s.fs).fs)
      {
        AsyncSubdirsKeepsFresh(roots, dirs[1..], policy, dev, acc', s.fs, e, policy.checkSize);
      }
    }
  }

  // On fresh files every transfer skips.

  lemma {:induction false} RunFilesOnFresh(roots: Roots, files: seq<string>, info: map<string, FileInfo>,
                                           policy: Policy, dev: Device, b: Batch)
    requires !policy.force && InfoFor(files, info)
    requires forall i :: 0 <= i < |files| ==> Fresh(roots, info[files[i]], policy.checkSize, b.fs)
    decreases |files|
    ensures RunFiles(roots, files, info, policy, dev, b) == Batch(b.success + |files|, b.raised, b.fs)
  {
    if files != [] {
      var e := info[files[0]];
      assert Get(info, files[0]) == Some(e) && e.uri == files[0];
      TransferOfFreshSkips(roots, e, policy, dev, b.fs);
      assert InfoFor(files[1..], info);
      RunFilesOnFresh(roots, files[1..], info, policy, dev, Batch(b.success + 1, b.raised, b.fs));
    }
  }

  lemma {:induction false} AsyncWalkOnFresh(roots: Roots, l: Listing, policy: Policy, dev: Device, fs: Files)
    requires !policy.force && AllFresh(roots, UsedInfos(l), policy.checkSize, fs)
    decreases Size(l)
    ensures AsyncWalk(roots, l, policy, dev, fs) == Async(Counts(FileCount(l), FileCount(l)), fs)
  {
    match l
    case NoData =>
    case FileList(items) =>
      var files, info := FileUris(items), InfoMap(items);
      LevelInfo(items);
      RunFilesOnFresh(roots, files, info, policy, dev, Batch(0, false, fs));
      AsyncWalkLevel(roots, items, policy, dev, fs);
      SubdirsSmaller(items);
      AsyncSubdirsOnFresh(roots, Subdirs(items), policy, dev, Counts(|files|, |files|), fs);
      CountSplits(items);
  }

  lemma {:induction false} AsyncSubdirsOnFresh(roots: Roots, dirs: seq<Listing>, policy: Policy, dev: Device,
                                               acc: Counts, fs: Files)
    requires !policy.force && AllFresh(roots, UsedAll(dirs), policy.checkSize, fs)
    decreases SizeAll(dirs)
    ensures AsyncSubdirs(roots, dirs, policy, dev, acc, fs) ==
      Async(Counts(acc.success + SumCounts(dirs), acc.total + SumCounts(dirs)), fs)
  {
    if dirs != [] {
      AsyncWalkOnFresh(roots, dirs[0], policy, dev, fs);
      AsyncSubdirsStep(roots, dirs, policy, dev, acc, fs);
      AsyncSubdirsOnFresh(roots, dirs[1..], policy, dev,
        Counts(acc.success + FileCount(dirs[0]), acc.total + FileCount(dirs[0])), fs);
    }
  }

  lemma {:induction false} SyncWalkOnFresh(roots: Roots, l: Listing, maxWorkers: int, policy: Policy, dev: Device,
                                           fs: Files)
    requires maxWorkers >= 1 && !policy.force && AllFresh(roots, UsedInfos(l), policy.checkSize, fs)
    decreases Size(l)
    ensures SyncWalk(roots, l, maxWorkers, policy, dev, fs) == Sync(Done(Counts(FileCount(l), FileCount(l))), fs)
  {
    match l
    case NoData =>
    case FileList(items) =>
      var files, info := FileUris(items), InfoMap(items);
      LevelInfo(items);
      RunFilesOnFresh(roots, files, info, policy, dev, Batch(0, false, fs));
      SyncWalkLevel(roots, items, maxWorkers, policy, dev, fs);
      SubdirsSmaller(items);
      SyncSubdirsOnFresh(roots, Subdirs(items), maxWorkers, policy, dev, Counts(|files|, |files|), fs);
      CountSplits(items);
  }

  lemma {:induction false} SyncSubdirsOnFresh(roots: Roots, dirs: seq<Listing>, maxWorkers: int, policy: Policy,
                                              dev: Device, acc: Counts, fs: Files)
    requires maxWorkers >= 1 && !policy.force && AllFresh(roots, UsedAll(dirs), policy.checkSize, fs)
    decreases SizeAll(dirs)
    ensures SyncSubdirs(roots, dirs, maxWorkers, policy, dev, acc, fs) ==
      Sync(Done(Counts(acc.success + SumCounts(dirs), acc.total + SumCounts(dirs))), fs)
  {
    if dirs != [] {
      SyncWalkOnFresh(roots, dirs[0], maxWorkers, policy, dev, fs);
      SyncSubdirsStep(roots, dirs, maxWorkers, policy, dev, acc, fs);
      SyncSubdirsOnFresh(roots, dirs[1..], maxWorkers, policy, dev,
        Counts(acc.success + FileCount(dirs[0]), acc.total + FileCount(dirs[0])), fs);
    }
  }

  // With entries that agree with the device, every transfer succeeds.

  lemma {:induction false} RunFilesAgreeing(roots: Roots, files: seq<string>, info: map<string, FileInfo>,
                                            policy: Policy, dev: Device, b: Batch)
    requires InfoFor(files, info)
    requires forall i :: 0 <= i < |files| ==> Agrees(roots, info[files[i]], dev)
    decreases |files|
    ensures RunFiles(roots, files, info, policy, dev, b).success == b.success + |files|
    ensures RunFiles(roots, files, info, policy, dev, b).raised == b.raised
  {
    if files != [] {
      var e := info[files[0]];
      var s := Transfer(roots, files[0], None, policy, Get(info, files[0]), dev, b.fs);
      assert Get(info, files[0]) == Some(e) && e.uri == files[0];
      TransferOfAgreeingSucceeds(roots, e, policy, dev, b.fs);
      assert InfoFor(files[1..], info);
      RunFilesAgreeing(roots, files[1..], info, policy, dev, Batch(b.success + 1, b.raised, s.fs));
    }
  }

  lemma {:induction false} AsyncWalkAgreeing(roots: Roots, l: Listing, policy: Policy, dev: Device, fs: Files)
    requires AllAgree(roots, UsedInfos(l), dev)
    decreases Size(l)
    ensures AsyncWalk(roots, l, policy, dev, fs).counts == Counts(FileCount(l), FileCount(l))
  {
    match l
    case NoData =>
    case FileList(items) =>
      var files, info := FileUris(items), InfoMap(items);
      var b := RunFiles(roots, files, info, policy, dev, Batch(0, false, fs));
      LevelInfo(items);
      RunFilesAgreeing(roots, files, info, policy, dev, Batch(0, false, fs));
      AsyncWalkLevel(roots, items, policy, dev, fs);
      SubdirsSmaller(items);
      AsyncSubdirsAgreeing(roots, Subdirs(items), policy, dev, Counts(|files|, |files|), b.fs);
      CountSplits(items);
  }

  lemma {:induction false} AsyncSubdirsAgreeing(roots: Roots, dirs: seq<Listing>, policy: Policy, dev: Device,
                                                acc: Counts, fs: Files)
    requires AllAgree(roots, UsedAll(dirs), dev)
    decreases SizeAll(dirs)
    ensures AsyncSubdirs(roots, dirs, policy, dev, acc, fs).counts ==
      Counts(acc.success + SumCounts(dirs), acc.total + SumCounts(dirs))
  {
    if dirs != [] {
      var s := AsyncWalk(roots, dirs[0], policy, dev, fs);
      AsyncWalkAgreeing(roots, dirs[0], policy, dev, fs);
      AsyncSubdirsStep(roots, dirs, policy, dev, acc, fs);
      AsyncSubdirsAgreeing(roots, dirs[1..], policy, dev,
        Counts(acc.success + FileCount(dirs[0]), acc.total + FileCount(dirs[0])), s.fs);
    }
  }

  lemma {:induction false} SyncWalkAgreeing(roots: Roots, l: Listing, maxWorkers: int, policy: Policy,
                                            dev: Device, fs: Files)
    requires maxWorkers >= 1 && AllAgree(roots, UsedInfos(l), dev)
    decreases Size(l)
    ensures SyncWalk(roots, l, maxWorkers, policy, dev, fs).outcome == Done(Counts(FileCount(l), FileCount(l)))
  {
    match l
    case NoData =>
    case FileList(items) =>
      var files, info := FileUris(items), InfoMap(items);
      var b := RunFiles(roots, files, info, policy, dev, Batch(0, false, fs));
      LevelInfo(items);
      RunFilesAgreeing(roots, files, info, policy, dev, Batch(0, false, fs));
      SyncWalkLevel(roots, items, maxWorkers, policy, dev, fs);
      SubdirsSmaller(items);
      SyncSubdirsAgreeing(roots, Subdirs(items), maxWorkers, policy, dev, Counts(|files|, |files|), b.fs);
      CountSplits(items);
  }

  lemma {:induction false} SyncSubdirsAgreeing(roots: Roots, dirs: seq<Listing>, maxWorkers: int, policy: Policy,
                                               dev: Device, acc: Counts, fs: Files)
    requires maxWorkers >= 1 && AllAgree(roots, UsedAll(dirs), dev)
    decreases SizeAll(dirs)
    ensures SyncSubdirs(roots, dirs, maxWorkers, policy, dev, acc, fs).outcome ==
      Done(Counts(acc.success + SumCounts(dirs), acc.total + SumCounts(dirs)))
  {
    if dirs != [] {
      var s := SyncWalk(roots, dirs[0], maxWorkers, policy, dev, fs);
      SyncWalkAgreeing(roots, dirs[0], maxWorkers, policy, dev, fs);
      SyncSubdirsStep(roots, dirs, maxWorkers, policy, dev, acc, fs);
      SyncSubdirsAgreeing(roots, dirs[1..], maxWorkers, policy, dev,
        Counts(acc.success + FileCount(dirs[0]), acc.total + FileCount(dirs[0])), s.fs);
    }
  }

  // Two runs in a row.

  /** When every entry the walk uses agrees with the device, an unforced asynchronous walk
      downloads or keeps every file, and a second one right after it skips every file,
      reports as many successes as files and changes nothing. */
  lemma AsyncWalkTwice(roots: Roots, l: Listing, policy: Policy, dev: Device, fs: Files)
    requires !policy.force && AllAgree(roots, UsedInfos(l), dev)
    ensures var w := AsyncWalk(roots, l, policy, dev, fs);
      && w.counts == Counts(FileCount(l), FileCount(l))
      && AllFresh(roots, UsedInfos(l), policy.checkSize, w.fs)
      && AsyncWalk(roots, l, policy, dev, w.fs) == Async(Counts(FileCount(l), FileCount(l)), w.fs)
  {
    var w := AsyncWalk(roots, l, policy, dev, fs);
    AsyncWalkAgreeing(roots, l, policy, dev, fs);
    AsyncWalkMakesFresh(roots, l, policy, dev, fs);
    AsyncWalkOnFresh(roots, l, policy, dev, w.fs);
  }

  /** The same for the synchronous walk with at least one worker: both runs finish, and
      the second skips every file and changes nothing. */
  lemma SyncWalkTwice(roots: Roots, l: Listing, maxWorkers: int, policy: Policy, dev: Device, fs: Files)
    requires maxWorkers >= 1 && !policy.force && AllAgree(roots, UsedInfos(l), dev)
    ensures var w := SyncWalk(roots, l, maxWorkers, policy, dev, fs);
      && w.outcome == Done(Counts(FileCount(l), FileCount(l)))
      && AllFresh(roots, UsedInfos(l), policy.checkSize, w.fs)
      && SyncWalk(roots, l, maxWorkers, policy, dev, w.fs) == Sync(Done(Counts(FileCount(l), FileCount(l))), w.fs)
  {
    var w := SyncWalk(roots, l, maxWorkers, policy, dev, fs);
    SyncWalkAgreeing(roots, l, maxWorkers, policy, dev, fs);
    WalkCounts.SyncDoneIsAsync(roots, l, maxWorkers, policy, dev, fs);
    AsyncWalkMakesFresh(roots, l, policy, dev, fs);
    SyncWalkOnFresh(roots, l, maxWorkers, policy, dev, w.fs);
  }
}
