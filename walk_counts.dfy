/** What the two directory walks count and how they relate. */
module WalkCounts {
  import opened Wrappers
  import opened Remote
  import opened Transfers
  import opened Walks

  /** A level's transfers add at most one success per file. */
  lemma {:induction false} RunFilesBounds(roots: Roots, files: seq<string>, info: map<string, FileInfo>,
                                          policy: Policy, dev: Device, b: Batch)
    decreases |files|
    ensures b.success <= RunFiles(roots, files, info, policy, dev, b).success <= b.success + |files|
  {
    if files != [] {
      var s := Transfer(roots, files[0], None, policy, Get(info, files[0]), dev, b.fs);
      RunFilesBounds(roots, files[1..], info, policy, dev,
        Batch(b.success + (if s.result == Returned(true) then 1 else 0), b.raised || s.result == Raised, s.fs));
    }
  }

  /** The asynchronous walk's total is the number of file entries in the whole tree. */
  lemma {:induction false} AsyncTotalIsFileCount(roots: Roots, l: Listing, policy: Policy, dev: Device, fs: Files)
    decreases Size(l)
    ensures AsyncWalk(roots, l, policy, dev, fs).counts.total == FileCount(l)
  {
    match l
    case NoData =>
    case FileList(items) =>
      var files := FileUris(items);
      var b := RunFiles(roots, files, InfoMap(items), policy, dev, Batch(0, false, fs));
      SubdirsSmaller(items);
      AsyncSubdirsTotal(roots, Subdirs(items), policy, dev, Counts(b.success, |files|), b.fs);
      CountSplits(items);
  }

  lemma {:induction false} AsyncSubdirsTotal(roots: Roots, dirs: seq<Listing>, policy: Policy, dev: Device,
                                             acc: Counts, fs: Files)
    decreases SizeAll(dirs)
    ensures AsyncSubdirs(roots, dirs, policy, dev, acc, fs).counts.total == acc.total + SumCounts(dirs)
  {
    if dirs != [] {
      var s := AsyncWalk(roots, dirs[0], policy, dev, fs);
      AsyncTotalIsFileCount(roots, dirs[0], policy, dev, fs);
      AsyncSubdirsTotal(roots, dirs[1..], policy, dev,
        Counts(acc.success + s.counts.success, acc.total + s.counts.total), s.fs);
    }
  }

  /** No level of the asynchronous walk reports more successes than files. */
  lemma {:induction false} AsyncSuccessWithinTotal(roots: Roots, l: Listing, policy: Policy, dev: Device, fs: Files)
    decreases Size(l)
    ensures AsyncWalk(roots, l, policy, dev, fs).counts.success <= AsyncWalk(roots, l, policy, dev, fs).counts.total
  {
    match l
    case NoData =>
    case FileList(items) =>
      var files := FileUris(items);
      var b := RunFiles(roots, files, InfoMap(items), policy, dev, Batch(0, false, fs));
      RunFilesBounds(roots, files, InfoMap(items), policy, dev, Batch(0, false, fs));
      SubdirsSmaller(items);
      AsyncSubdirsWithinTotal(roots, Subdirs(items), policy, dev, Counts(b.success, |files|), b.fs);
  }

  lemma {:induction false} AsyncSubdirsWithinTotal(roots: Roots, dirs: seq<Listing>, policy: Policy, dev: Device,
                                                   acc: Counts, fs: Files)
    requires acc.success <= acc.total
    decreases SizeAll(dirs)
    ensures AsyncSubdirs(roots, dirs, policy, dev, acc, fs).counts.success <=
      AsyncSubdirs(roots, dirs, policy, dev, acc, fs).counts.total
  {
    if dirs != [] {
      var s := AsyncWalk(roots, dirs[0], policy, dev, fs);
      AsyncSuccessWithinTotal(roots, dirs[0], policy, dev, fs);
      AsyncSubdirsWithinTotal(roots, dirs[1..], policy, dev,
        Counts(acc.success + s.counts.success, acc.total + s.counts.total), s.fs);
    }
  }

  /** When the synchronous walk finishes, it has done exactly what the asynchronous one does:
      the same counts and the same local files. */
  lemma {:induction false} SyncDoneIsAsync(roots: Roots, l: Listing, maxWorkers: int, policy: Policy,
                                           dev: Device, fs: Files)
    decreases Size(l)
    ensures SyncWalk(roots, l, maxWorkers, policy, dev, fs).outcome.Done? ==>
      AsyncWalk(roots, l, policy, dev, fs) ==
        Async(SyncWalk(roots, l, maxWorkers, policy, dev, fs).outcome.counts,
              SyncWalk(roots, l, maxWorkers, policy, dev, fs).fs)
  {
    match l
    case NoData =>
    case FileList(items) =>
      var files := FileUris(items);
      var b := RunFiles(roots, files, InfoMap(items), policy, dev, Batch(0, false, fs));
      if !(files != [] && maxWorkers <= 0) && !b.raised {
        SubdirsSmaller(items);
        SyncSubdirsIsAsync(roots, Subdirs(items), maxWorkers, policy, dev, Counts(b.success, |files|), b.fs);
      }
  }

  lemma {:induction false} SyncSubdirsIsAsync(roots: Roots, dirs: seq<Listing>, maxWorkers: int, policy: Policy,
                                              dev: Device, acc: Counts, fs: Files)
    decreases SizeAll(dirs)
    ensures SyncSubdirs(roots, dirs, maxWorkers, policy, dev, acc, fs).outcome.Done? ==>
      AsyncSubdirs(roots, dirs, policy, dev, acc, fs) ==
        Async(SyncSubdirs(roots, dirs, maxWorkers, policy, dev, acc, fs).outcome.counts,
              SyncSubdirs(roots, dirs, maxWorkers, policy, dev, acc, fs).fs)
  {
    if dirs != [] {
      var s := SyncWalk(roots, dirs[0], maxWorkers, policy, dev, fs);
      SyncDoneIsAsync(roots, dirs[0], maxWorkers, policy, dev, fs);
      SyncSubdirsStep(roots, dirs, maxWorkers, policy, dev, acc, fs);
      AsyncSubdirsStep(roots, dirs, policy, dev, acc, fs);
      if s.outcome.Done? {
        var c := s.outcome.counts;
        SyncSubdirsIsAsync(roots, dirs[1..], maxWorkers, policy, dev,
          Counts(acc.success + c.success, acc.total + c.total), s.fs);
      }
    }
  }

  /** The synchronous walk's total, when it finishes, is the number of file entries in the
      whole tree. */
  lemma SyncTotalIsFileCount(roots: Roots, l: Listing, maxWorkers: int, policy: Policy, dev: Device, fs: Files)
    requires SyncWalk(roots, l, maxWorkers, policy, dev, fs).outcome.Done?
    ensures SyncWalk(roots, l, maxWorkers, policy, dev, fs).outcome.counts.total == FileCount(l)
  {
    SyncDoneIsAsync(roots, l, maxWorkers, policy, dev, fs);
    AsyncTotalIsFileCount(roots, l, policy, dev, fs);
  }

  /** When the synchronous walk finishes, it reports no more successes than files. */
  lemma SyncSuccessWithinTotal(roots: Roots, l: Listing, maxWorkers: int, policy: Policy, dev: Device, fs: Files)
    requires SyncWalk(roots, l, maxWorkers, policy, dev, fs).outcome.Done?
    ensures SyncWalk(roots, l, maxWorkers, policy, dev, fs).outcome.counts.success <=
      SyncWalk(roots, l, maxWorkers, policy, dev, fs).outcome.counts.total
  {
    SyncDoneIsAsync(roots, l, maxWorkers, policy, dev, fs);
    AsyncSuccessWithinTotal(roots, l, policy, dev, fs);
  }

  /** A device that never raises outside the handled class. */
  predicate NeverFaults(dev: Device)
  {
    forall url :: url in dev ==> dev[url] != Fault
  }

  lemma {:induction false} RunFilesNoRaise(roots: Roots, files: seq<string>, info: map<string, FileInfo>,
                                           policy: Policy, dev: Device, b: Batch)
    requires NeverFaults(dev)
    decreases |files|
    ensures RunFiles(roots, files, info, policy, dev, b).raised == b.raised
  {
    if files != [] {
      var s := Transfer(roots, files[0], None, policy, Get(info, files[0]), dev, b.fs);
      RunFilesNoRaise(roots, files[1..], info, policy, dev,
        Batch(b.success + (if s.result == Returned(true) then 1 else 0), b.raised || s.result == Raised, s.fs));
    }
  }

  /** With at least one worker and a device that never raises outside the handled class, the
      synchronous walk finishes. */
  lemma {:induction false} SyncFinishes(roots: Roots, l: Listing, maxWorkers: int, policy: Policy,
                                        dev: Device, fs: Files)
    requires maxWorkers >= 1 && NeverFaults(dev)
    decreases Size(l)
    ensures SyncWalk(roots, l, maxWorkers, policy, dev, fs).outcome.Done?
  {
    match l
    case NoData =>
    case FileList(items) =>
      var files := FileUris(items);
      var b := RunFiles(roots, files, InfoMap(items), policy, dev, Batch(0, false, fs));
      RunFilesNoRaise(roots, files, InfoMap(items), policy, dev, Batch(0, false, fs));
      SubdirsSmaller(items);
      SyncSubdirsFinish(roots, Subdirs(items), maxWorkers, policy, dev, Counts(b.success, |files|), b.fs);
  }

  lemma {:induction false} SyncSubdirsFinish(roots: Roots, dirs: seq<Listing>, maxWorkers: int, policy: Policy,
                                             dev: Device, acc: Counts, fs: Files)
    requires maxWorkers >= 1 && NeverFaults(dev)
    decreases SizeAll(dirs)
    ensures SyncSubdirs(roots, dirs, maxWorkers, policy, dev, acc, fs).outcome.Done?
  {
    if dirs != [] {
      var s := SyncWalk(roots, dirs[0], maxWorkers, policy, dev, fs);
      SyncFinishes(roots, dirs[0], maxWorkers, policy, dev, fs);
      var c := s.outcome.counts;
      SyncSubdirsFinish(roots, dirs[1..], maxWorkers, policy, dev,
        Counts(acc.success + c.success, acc.total + c.total), s.fs);
    }
  }

  /** Under the same conditions the two walks agree outright. */
  lemma SyncIsAsyncWithoutFaults(roots: Roots, l: Listing, maxWorkers: int, policy: Policy,
                                 dev: Device, fs: Files)
    requires maxWorkers >= 1 && NeverFaults(dev)
    ensures SyncWalk(roots, l, maxWorkers, policy, dev, fs) ==
      Sync(Done(AsyncWalk(roots, l, policy, dev, fs).counts), AsyncWalk(roots, l, policy, dev, fs).fs)
  {
    SyncFinishes(roots, l, maxWorkers, policy, dev, fs);
    SyncDoneIsAsync(roots, l, maxWorkers, policy, dev, fs);
  }
}
