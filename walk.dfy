/** The recursive directory download as functions of the device and the local files:
    `download_directory` (supynote/supernote.py:127-176), where an exception ends the whole
    walk, and `download_directory_async` (supynote/supernote.py:213-263), where a task that
    raised is one more failure. Files of one level are taken in listing order. */
module Walks {
  import opened Wrappers
  import opened Remote
  import opened Paths
  import opened SkipPolicy
  import opened Transfers

  /** `(successful_downloads, total_files)`. */
  datatype Counts = Counts(success: nat, total: nat)

  /** The running state of one level's file transfers: the successes so far, whether any
      task raised, and the local files. */
  datatype Batch = Batch(success: nat, raised: bool, fs: Files)

  /** The transfers of one level's files, each with the entry `file_info_map` holds for it. */
  function RunFiles(roots: Roots, files: seq<string>, info: map<string, FileInfo>, policy: Policy,
                    dev: Device, b: Batch): Batch
    decreases |files|
  {
    if files == [] then b
    else
      var s := Transfer(roots, files[0], None, policy, Get(info, files[0]), dev, b.fs);
      RunFiles(roots, files[1..], info, policy, dev,
        Batch(b.success + (if s.result == Returned(true) then 1 else 0), b.raised || s.result == Raised, s.fs))
  }

  /** How the synchronous walk ends: with its counts, or by an exception (the ValueError of a
      thread pool with fewer than one worker, or a transfer's unhandled exception, which
      `future.result()` re-raises once the pool has run every task of that level). */
  datatype Outcome = Done(counts: Counts) | Aborted

  datatype Sync = Sync(outcome: Outcome, fs: Files)

  /** `download_directory` on a listing. */
  function SyncWalk(roots: Roots, l: Listing, maxWorkers: int, policy: Policy, dev: Device, fs: Files): Sync
    decreases Size(l)
  {
    match l
    case NoData => Sync(Done(Counts(0, 0)), fs)
    case FileList(items) =>
      var files := FileUris(items);
      if files != [] && maxWorkers <= 0 then Sync(Aborted, fs)
      else
        var b := RunFiles(roots, files, InfoMap(items), policy, dev, Batch(0, false, fs));
        if b.raised then Sync(Aborted, b.fs)
        else
          SubdirsSmaller(items);
          SyncSubdirs(roots, Subdirs(items), maxWorkers, policy, dev, Counts(b.success, |files|), b.fs)
  }

  /** The loop over `directories_to_process`, adding each subdirectory's counts to `acc`. */
  function SyncSubdirs(roots: Roots, dirs: seq<Listing>, maxWorkers: int, policy: Policy, dev: Device,
                       acc: Counts, fs: Files): Sync
    decreases SizeAll(dirs)
  {
    if dirs == [] then Sync(Done(acc), fs)
    else
      var s := SyncWalk(roots, dirs[0], maxWorkers, policy, dev, fs);
      match s.outcome
      case Aborted => s
      case Done(c) =>
        SyncSubdirs(roots, dirs[1..], maxWorkers, policy, dev,
          Counts(acc.success + c.success, acc.total + c.total), s.fs)
  }

  datatype Async = Async(counts: Counts, fs: Files)

  /** `download_directory_async` on a listing: only results that are exactly True count. */
  function AsyncWalk(roots: Roots, l: Listing, policy: Policy, dev: Device, fs: Files): Async
    decreases Size(l)
  {
    match l
    case NoData => Async(Counts(0, 0), fs)
    case FileList(items) =>
      var files := FileUris(items);
      var b := RunFiles(roots, files, InfoMap(items), policy, dev, Batch(0, false, fs));
      SubdirsSmaller(items);
      AsyncSubdirs(roots, Subdirs(items), policy, dev, Counts(b.success, |files|), b.fs)
  }

  function AsyncSubdirs(roots: Roots, dirs: seq<Listing>, policy: Policy, dev: Device,
                        acc: Counts, fs: Files): Async
    decreases SizeAll(dirs)
  {
    if dirs == [] then Async(acc, fs)
    else
      var s := AsyncWalk(roots, dirs[0], policy, dev, fs);
      AsyncSubdirs(roots, dirs[1..], policy, dev,
        Counts(acc.success + s.counts.success, acc.total + s.counts.total), s.fs)
  }

  /** One step of the subdirectory loop of the synchronous walk. */
  lemma SyncSubdirsStep(roots: Roots, dirs: seq<Listing>, maxWorkers: int, policy: Policy,
                        dev: Device, acc: Counts, fs: Files)
    requires dirs != []
    ensures var s := SyncWalk(roots, dirs[0], maxWorkers, policy, dev, fs);
      SyncSubdirs(roots, dirs, maxWorkers, policy, dev, acc, fs) ==
        if s.outcome.Aborted? then s
        else SyncSubdirs(roots, dirs[1..], maxWorkers, policy, dev,
          Counts(acc.success + s.outcome.counts.success, acc.total + s.outcome.counts.total), s.fs)
  {
  }

  /** One step of the subdirectory loop of the asynchronous walk. */
  lemma AsyncSubdirsStep(roots: Roots, dirs: seq<Listing>, policy: Policy, dev: Device,
                         acc: Counts, fs: Files)
    requires dirs != []
    ensures var s := AsyncWalk(roots, dirs[0], policy, dev, fs);
      AsyncSubdirs(roots, dirs, policy, dev, acc, fs) ==
        AsyncSubdirs(roots, dirs[1..], policy, dev,
          Counts(acc.success + s.counts.success, acc.total + s.counts.total), s.fs)
  {
  }

  /** One level of the asynchronous walk: this level's files, then its subdirectories. */
  lemma AsyncWalkLevel(roots: Roots, items: seq<Entry>, policy: Policy, dev: Device, fs: Files)
    ensures var b := RunFiles(roots, FileUris(items), InfoMap(items), policy, dev, Batch(0, false, fs));
      AsyncWalk(roots, FileList(items), policy, dev, fs) ==
        AsyncSubdirs(roots, Subdirs(items), policy, dev, Counts(b.success, |FileUris(items)|), b.fs)
  {
  }

  /** One level of the synchronous walk when it has workers and no transfer raised. */
  lemma SyncWalkLevel(roots: Roots, items: seq<Entry>, maxWorkers: int, policy: Policy, dev: Device, fs: Files)
    requires maxWorkers >= 1
    requires !RunFiles(roots, FileUris(items), InfoMap(items), policy, dev, Batch(0, false, fs)).raised
    ensures var b := RunFiles(roots, FileUris(items), InfoMap(items), policy, dev, Batch(0, false, fs));
      SyncWalk(roots, FileList(items), maxWorkers, policy, dev, fs) ==
        SyncSubdirs(roots, Subdirs(items), maxWorkers, policy, dev, Counts(b.success, |FileUris(items)|), b.fs)
  {
  }
}
