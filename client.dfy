/** The `Supernote` client object (supynote/supernote.py:19-335): its roots, the lazily created
    async session, and the download operations that change the local files. */
module Client {
  import opened Wrappers
  import opened Remote
  import opened Paths
  import opened SkipPolicy
  import opened Transfers
  import opened Walks

  /** The local file system: every file path with its byte length. */
  class LocalFs {
    var sizes: Files

    constructor(initial: Files)
      ensures sizes == initial
    {
      sizes := initial;
    }

    /** `open(path, 'wb').write(content)`: the file at `path` now holds `n` bytes. */
    method Write(path: string, n: nat)
      modifies this
      ensures sizes == old(sizes)[path := n]
    {
      sizes := sizes[path := n];
    }
  }

  /** An `aiohttp.ClientSession`: open until closed; `poolLimit` is its connector's limit. */
  class Session {
    var closed: bool
    const poolLimit: int

    constructor(poolLimit: int)
      ensures !closed && this.poolLimit == poolLimit
    {
      closed := false;
      this.poolLimit := poolLimit;
    }

    method Close()
      modifies this
      ensures closed
    {
      closed := true;
    }
  }

  /** An `asyncio.Semaphore`: `async with` takes a permit and gives it back. */
  class Semaphore {
    const capacity: nat
    var available: nat

    constructor(capacity: nat)
      ensures this.capacity == capacity && available == capacity
    {
      this.capacity := capacity;
      available := capacity;
    }

    /** Taking a permit; a sequential caller never finds none left. */
    method Acquire()
      requires available > 0
      modifies this
      ensures available == old(available) - 1
    {
      available := available - 1;
    }

    method Release()
      modifies this
      ensures available == old(available) + 1
    {
      available := available + 1;
    }
  }

  class Supernote {
    const remoteRoot: string
    const localRoot: string
    /** Whether `aiohttp` and `aiofiles` could be imported (`ASYNC_AVAILABLE`). */
    const asyncAvailable: bool
    var session: Session?

    /** `Supernote(ip_address, port, local_root)`: the remote root is `http://ip:port`; the
        local root is the one given unless it is absent or empty, and otherwise
        `supernote_files` under the working directory `cwd`. No session exists yet. */
    constructor(ipAddress: string, port: string, localRootArg: Option<string>, cwd: string,
                asyncAvailable: bool)
      ensures remoteRoot == "http://" + ipAddress + ":" + port
      ensures localRootArg.Some? && localRootArg.value != "" ==> localRoot == localRootArg.value
      ensures localRootArg.None? || localRootArg.value == "" ==> localRoot == JoinPath(cwd, "supernote_files")
      ensures this.asyncAvailable == asyncAvailable && session == null
    {
      remoteRoot := "http://" + ipAddress + ":" + port;
      localRoot := if localRootArg.Some? && localRootArg.value != "" then localRootArg.value
        else JoinPath(cwd, "supernote_files");
      this.asyncAvailable := asyncAvailable;
      session := null;
    }

    function Where(): Roots
    {
      Roots(remoteRoot, localRoot)
    }

    /** There is a session and it has not been closed. */
    predicate SessionOpen()
      reads this, session
    {
      session != null && !session.closed
    }

    /** `download_file`: the transfer, its answer and its effect on the disk are those of
        `Transfer`; an unhandled exception is reported as `Raised`. */
    method DownloadFile(remotePath: string, localPath: Option<string>, force: bool, checkSize: bool,
                        info: Option<FileInfo>, dev: Device, disk: LocalFs) returns (r: TaskResult)
      modifies disk
      ensures Step(r, disk.sizes) ==
        Transfer(Where(), remotePath, localPath, Policy(force, checkSize), info, dev, old(disk.sizes))
    {
      var path := TargetPath(Where(), remotePath, localPath);
      if info.Some? && ShouldSkip(info.value.size, Get(disk.sizes, path), force, checkSize) {
        return Returned(true);
      }
      match FetchAt(dev, FileUrl(remoteRoot, remotePath)) {
        case Bytes(n) =>
          disk.Write(path, n);
          r := Returned(true);
        case NetError =>
          r := Returned(false);
        case Fault =>
          r := Raised;
      }
    }

    /** `_download_file_async`: the skip test comes before the semaphore is taken; the fetch
        holds one permit and gives it back. Without an open session the fetch raises. */
    method DownloadFileAsync(remotePath: string, localPath: Option<string>, sem: Semaphore?,
                             force: bool, checkSize: bool, info: Option<FileInfo>, dev: Device,
                             disk: LocalFs) returns (r: TaskResult)
      requires sem != null ==> sem.available > 0
      modifies disk, sem
      ensures sem != null ==> sem.available == old(sem.available)
      ensures SessionOpen() ==> (Step(r, disk.sizes) ==
        Transfer(Where(), remotePath, localPath, Policy(force, checkSize), info, dev, old(disk.sizes)))
      ensures !SessionOpen() ==> disk.sizes == old(disk.sizes)
      ensures !SessionOpen() ==>
        r == (if Skips(Where(), remotePath, localPath, Policy(force, checkSize), info, disk.sizes)
              then Returned(true) else Raised)
    {
      var path := TargetPath(Where(), remotePath, localPath);
      if info.Some? && ShouldSkip(info.value.size, Get(disk.sizes, path), force, checkSize) {
        return Returned(true);
      }
      if sem != null {
        sem.Acquire();
      }
      if !SessionOpen() {
        r := Raised;
      } else {
        match FetchAt(dev, FileUrl(remoteRoot, remotePath)) {
          case Bytes(n) =>
            disk.Write(path, n);
            r := Returned(true);
          case NetError =>
            r := Returned(false);
          case Fault =>
            r := Raised;
        }
      }
      if sem != null {
        sem.Release();
      }
    }

    /** The loop over `fileList`: the file uris in order, `file_info_map`, and the
        subdirectories to recurse into, in order. */
    static method Partition(items: seq<Entry>) returns (files: seq<string>, info: map<string, FileInfo>,
                                                       dirs: seq<Listing>)
      ensures files == FileUris(items) && info == InfoMap(items) && dirs == Subdirs(items)
    {
      files, info, dirs := [], map[], [];
      var i := 0;
      while i < |items|
        invariant 0 <= i <= |items|
        invariant files == FileUris(items[..i]) && info == InfoMap(items[..i]) && dirs == Subdirs(items[..i])
      {
        assert items[..i + 1][..i] == items[..i];
        match items[i] {
          case Folder(_, listing) =>
            dirs := dirs + [listing];
          case File(fi) =>
            files := files + [fi.uri];
            info := info[fi.uri := fi];
        }
        i := i + 1;
      }
      assert items[..|items|] == items;
    }

    /** The thread pool over one level's files (supynote/supernote.py:150-166): every file is
        transferred, in listing order, with its `file_info_map` entry; `faulted` says whether
        some `future.result()` re-raises. */
    method TransferFiles(files: seq<string>, info: map<string, FileInfo>, force: bool, checkSize: bool,
                         dev: Device, disk: LocalFs) returns (success: nat, faulted: bool)
      modifies disk
      ensures Batch(success, faulted, disk.sizes) ==
        RunFiles(Where(), files, info, Policy(force, checkSize), dev, Batch(0, false, old(disk.sizes)))
    {
      success, faulted := 0, false;
      var i := 0;
      while i < |files|
        invariant 0 <= i <= |files|
        invariant RunFiles(Where(), files[i..], info, Policy(force, checkSize), dev, Batch(success, faulted, disk.sizes))
          == RunFiles(Where(), files, info, Policy(force, checkSize), dev, Batch(0, false, old(disk.sizes)))
      {
        assert files[i..][1..] == files[i + 1..];
        var r := DownloadFile(files[i], None, force, checkSize, Get(info, files[i]), dev, disk);
        if r == Returned(true) {
          success := success + 1;
        }
        faulted := faulted || r == Raised;
        i := i + 1;
      }
    }

    /** The gathered tasks of one level (supynote/supernote.py:237-253), sharing one
        semaphore of `maxConcurrent` permits: only results that are exactly True count. */
    method TransferFilesAsync(files: seq<string>, info: map<string, FileInfo>, maxConcurrent: int,
                              force: bool, checkSize: bool, dev: Device, disk: LocalFs)
      returns (success: nat)
      requires maxConcurrent >= 1 && SessionOpen()
      modifies disk
      ensures success ==
        RunFiles(Where(), files, info, Policy(force, checkSize), dev, Batch(0, false, old(disk.sizes))).success
      ensures disk.sizes ==
        RunFiles(Where(), files, info, Policy(force, checkSize), dev, Batch(0, false, old(disk.sizes))).fs
    {
      var sem := new Semaphore(maxConcurrent);
      success := 0;
      ghost var raised := false;
      var i := 0;
      while i < |files|
        invariant 0 <= i <= |files| && sem.available == maxConcurrent
        invariant RunFiles(Where(), files[i..], info, Policy(force, checkSize), dev, Batch(success, raised, disk.sizes))
          == RunFiles(Where(), files, info, Policy(force, checkSize), dev, Batch(0, false, old(disk.sizes)))
      {
        assert files[i..][1..] == files[i + 1..];
        var r := DownloadFileAsync(files[i], None, sem, force, checkSize, Get(info, files[i]), dev, disk);
        if r == Returned(true) {
          success := success + 1;
        }
        raised := raised || r == Raised;
        i := i + 1;
      }
    }

    /** `download_directory` on the listing the device gives for the directory: the result
        and the final disk are those of `SyncWalk`. */
    method DownloadDirectory(l: Listing, maxWorkers: int, force: bool, checkSize: bool, dev: Device,
                             disk: LocalFs) returns (outcome: Outcome)
      modifies disk
      decreases Size(l), 1
      ensures Sync(outcome, disk.sizes) ==
        SyncWalk(Where(), l, maxWorkers, Policy(force, checkSize), dev, old(disk.sizes))
    {
      if l.NoData? {
        return Done(Counts(0, 0));
      }
      var items := l.items;
      var files, info, dirs := Partition(items);
      ghost var policy := Policy(force, checkSize);
      var success: nat := 0;
      var total: nat := |files|;
      if files != [] {
        if maxWorkers <= 0 {
          return Aborted;
        }
        var faulted;
        success, faulted := TransferFiles(files, info, force, checkSize, dev, disk);
        if faulted {
          return Aborted;
        }
      }
      SubdirsSmaller(items);
      outcome := DownloadSubdirs(dirs, maxWorkers, force, checkSize, dev, disk, Counts(success, total));
    }

    /** The loop over `directories_to_process` (supynote/supernote.py:171-176): each
        subdirectory in listing order, its counts added to `acc`; an exception in one ends
        the walk. */
    method DownloadSubdirs(dirs: seq<Listing>, maxWorkers: int, force: bool, checkSize: bool, dev: Device,
                           disk: LocalFs, acc: Counts) returns (outcome: Outcome)
      modifies disk
      decreases SizeAll(dirs), 2
      ensures Sync(outcome, disk.sizes) ==
        SyncSubdirs(Where(), dirs, maxWorkers, Policy(force, checkSize), dev, acc, old(disk.sizes))
    {
      ghost var policy := Policy(force, checkSize);
      ghost var walk := SyncSubdirs(Where(), dirs, maxWorkers, policy, dev, acc, disk.sizes);
      var success: nat, total: nat := acc.success, acc.total;
      var j := 0;
      assert dirs[0..] == dirs;
      while j < |dirs|
        invariant 0 <= j <= |dirs|
        invariant SyncSubdirs(Where(), dirs[j..], maxWorkers, policy, dev, Counts(success, total), disk.sizes) == walk
      {
        var aborted;
        aborted, success, total := DownloadSubdir(dirs, j, maxWorkers, force, checkSize, dev, disk, success, total);
        if aborted {
          return Aborted;
        }
        j := j + 1;
      }
      return Done(Counts(success, total));
    }

    /** One pass of that loop, on `dirs[j]`: an aborted subdirectory ends the walk, otherwise
        its counts are added to `(success, total)`. */
    method DownloadSubdir(dirs: seq<Listing>, j: nat, maxWorkers: int, force: bool, checkSize: bool,
                          dev: Device, disk: LocalFs, success: nat, total: nat)
      returns (aborted: bool, success': nat, total': nat)
      requires j < |dirs|
      modifies disk
      decreases SizeAll(dirs), 0
      ensures var policy := Policy(force, checkSize);
        var walk := SyncSubdirs(Where(), dirs[j..], maxWorkers, policy, dev, Counts(success, total), old(disk.sizes));
        if aborted then walk == Sync(Aborted, disk.sizes)
        else walk == SyncSubdirs(Where(), dirs[j + 1..], maxWorkers, policy, dev, Counts(success', total'), disk.sizes)
    {
      ElementSmaller(dirs, j);
      SyncSubdirsStep(Where(), dirs[j..], maxWorkers, Policy(force, checkSize), dev, Counts(success, total), disk.sizes);
      assert dirs[j..][0] == dirs[j] && dirs[j..][1..] == dirs[j + 1..];
      var o := DownloadDirectory(dirs[j], maxWorkers, force, checkSize, dev, disk);
      if o.Aborted? {
        return true, success, total;
      }
      return false, success + o.counts.success, total + o.counts.total;
    }

    /** `download_directory_async`: without the async libraries nothing happens; otherwise a
        session is opened when there is none or it was closed, and the counts and the final
        disk are those of `AsyncWalk`. */
    method DownloadDirectoryAsync(l: Listing, maxConcurrent: int, force: bool, checkSize: bool,
                                  dev: Device, disk: LocalFs) returns (c: Counts)
      requires maxConcurrent >= 1
      modifies this, disk
      decreases Size(l), 1
      ensures !asyncAvailable ==> c == Counts(0, 0) && disk.sizes == old(disk.sizes) && session == old(session)
      ensures asyncAvailable ==>
        Async(c, disk.sizes) == AsyncWalk(Where(), l, Policy(force, checkSize), dev, old(disk.sizes))
      ensures asyncAvailable ==> SessionOpen()
      ensures old(SessionOpen()) ==> session == old(session)
      ensures asyncAvailable && !old(SessionOpen()) ==> fresh(session) && session.poolLimit == 2 * maxConcurrent
    {
      if !asyncAvailable {
        return Counts(0, 0);
      }
      if session == null || session.closed {
        session := new Session(2 * maxConcurrent);
      }
      c := ListingAsync(l, maxConcurrent, force, checkSize, dev, disk);
    }

    /** The body of `download_directory_async` once the session is open (supynote/supernote.py:
        213-263): the files of this level, then each subdirectory in listing order. */
    method ListingAsync(l: Listing, maxConcurrent: int, force: bool, checkSize: bool,
                        dev: Device, disk: LocalFs) returns (c: Counts)
      requires maxConcurrent >= 1 && asyncAvailable && SessionOpen()
      modifies this, disk
      decreases Size(l), 0
      ensures Async(c, disk.sizes) == AsyncWalk(Where(), l, Policy(force, checkSize), dev, old(disk.sizes))
      ensures session == old(session) && SessionOpen()
    {
      if l.NoData? {
        return Counts(0, 0);
      }
      var items := l.items;
      var files, info, dirs := Partition(items);
      ghost var policy := Policy(force, checkSize);
      var success: nat := 0;
      var total: nat := |files|;
      if files != [] {
        success := TransferFilesAsync(files, info, maxConcurrent, force, checkSize, dev, disk);
      }
      SubdirsSmaller(items);
      c := SubdirsAsync(dirs, maxConcurrent, force, checkSize, dev, disk, Counts(success, total));
    }

    /** The loop over `directories_to_process` of `download_directory_async`
        (supynote/supernote.py:258-263): each subdirectory in listing order, its counts added
        to `acc`. */
    method SubdirsAsync(dirs: seq<Listing>, maxConcurrent: int, force: bool, checkSize: bool,
                        dev: Device, disk: LocalFs, acc: Counts) returns (c: Counts)
      requires maxConcurrent >= 1 && asyncAvailable && SessionOpen()
      modifies this, disk
      decreases SizeAll(dirs), 2
      ensures Async(c, disk.sizes) == AsyncSubdirs(Where(), dirs, Policy(force, checkSize), dev, acc, old(disk.sizes))
      ensures session == old(session) && SessionOpen()
    {
      ghost var policy := Policy(force, checkSize);
      ghost var walk := AsyncSubdirs(Where(), dirs, policy, dev, acc, disk.sizes);
      var success: nat, total: nat := acc.success, acc.total;
      var j := 0;
      assert dirs[0..] == dirs;
      while j < |dirs|
        invariant 0 <= j <= |dirs|
        invariant session == old(session) && SessionOpen()
        invariant AsyncSubdirs(Where(), dirs[j..], policy, dev, Counts(success, total), disk.sizes) == walk
      {
        ElementSmaller(dirs, j);
        AsyncSubdirsStep(Where(), dirs[j..], policy, dev, Counts(success, total), disk.sizes);
        assert dirs[j..][0] == dirs[j] && dirs[j..][1..] == dirs[j + 1..];
        var sub := DownloadDirectoryAsync(dirs[j], maxConcurrent, force, checkSize, dev, disk);
        success := success + sub.success;
        total := total + sub.total;
        j := j + 1;
      }
      return Counts(success, total);
    }

    /** `close_async`: an open session is closed and dropped; otherwise nothing happens, so a
        second call changes nothing. */
    method CloseAsync()
      modifies this, session
      ensures old(SessionOpen()) ==> session == null && old(session).closed
      ensures !old(SessionOpen()) ==> session == old(session)
      ensures !SessionOpen()
    {
      if session != null && !session.closed {
        session.Close();
        session := null;
      }
    }
  }
}
