/** The outcome of transferring one file, `download_file` and `_download_file_async`
    (supynote/supernote.py:98-125, 293-329), as a function of the device and the local files. */
module Transfers {
  import opened Wrappers
  import opened Remote
  import opened Paths
  import opened SkipPolicy

  /** The client's `remote_root` and `local_root`. */
  datatype Roots = Roots(remote: string, local: string)

  /** The `force` and `check_size` arguments. */
  datatype Policy = Policy(force: bool, checkSize: bool)

  /** How a transfer ends: it returns True or False, or the exception outside the handled
      class propagates. */
  datatype TaskResult = Returned(ok: bool) | Raised

  /** The local files, each path to its byte length. */
  type Files = map<string, nat>

  datatype Step = Step(result: TaskResult, fs: Files)

  /** The path a transfer writes: the one given, or the remote path under the local root. */
  function TargetPath(roots: Roots, remotePath: string, localPath: Option<string>): string
  {
    if localPath.Some? then localPath.value else LocalPath(roots.local, remotePath)
  }

  /** Whether the skip policy lets the transfer stop early: it is consulted only when the
      listing entry is supplied. */
  predicate Skips(roots: Roots, remotePath: string, localPath: Option<string>, policy: Policy,
                  info: Option<FileInfo>, fs: Files)
  {
    info.Some? &&
    ShouldSkip(info.value.size, Get(fs, TargetPath(roots, remotePath, localPath)), policy.force, policy.checkSize)
  }

  /** One transfer: a skipped file is a success that touches nothing; otherwise the URL is
      fetched, and served bytes are written to the target path. */
  function Transfer(roots: Roots, remotePath: string, localPath: Option<string>, policy: Policy,
                    info: Option<FileInfo>, dev: Device, fs: Files): Step
  {
    var path := TargetPath(roots, remotePath, localPath);
    if Skips(roots, remotePath, localPath, policy, info, fs) then Step(Returned(true), fs)
    else
      match FetchAt(dev, FileUrl(roots.remote, remotePath))
      case Bytes(n) => Step(Returned(true), fs[path := n])
      case NetError => Step(Returned(false), fs)
      case Fault => Step(Raised, fs)
  }

  /** What a transfer reports and what it leaves behind: a skip is a success that touches
      nothing; a handled failure gives False and an unhandled one propagates, both leaving the
      files as they were; a change to the files is the served bytes written to the target
      path and nowhere else. */
  lemma TransferOutcome(roots: Roots, remotePath: string, localPath: Option<string>, policy: Policy,
                        info: Option<FileInfo>, dev: Device, fs: Files)
    ensures var r := Transfer(roots, remotePath, localPath, policy, info, dev, fs);
      && (Skips(roots, remotePath, localPath, policy, info, fs) ==> r == Step(Returned(true), fs))
      && (r.result != Returned(true) ==> r.fs == fs)
      && (r.result == Returned(false) <==>
          !Skips(roots, remotePath, localPath, policy, info, fs) && FetchAt(dev, FileUrl(roots.remote, remotePath)) == NetError)
      && (r.result == Raised <==>
          !Skips(roots, remotePath, localPath, policy, info, fs) && FetchAt(dev, FileUrl(roots.remote, remotePath)) == Fault)
      && (r.fs == fs || r.fs == fs[TargetPath(roots, remotePath, localPath) :=
          FetchAt(dev, FileUrl(roots.remote, remotePath)).length])
      && (r.fs != fs ==>
          FetchAt(dev, FileUrl(roots.remote, remotePath)) == Bytes(r.fs[TargetPath(roots, remotePath, localPath)]))
  {
  }

  /** Without an entry the transfer always goes to the device, whatever the local files. */
  lemma TransferWithoutInfoFetches(roots: Roots, remotePath: string, localPath: Option<string>,
                                   policy: Policy, dev: Device, fs: Files)
    requires FetchAt(dev, FileUrl(roots.remote, remotePath)).Bytes?
    ensures Transfer(roots, remotePath, localPath, policy, None, dev, fs).fs ==
      fs[TargetPath(roots, remotePath, localPath) := FetchAt(dev, FileUrl(roots.remote, remotePath)).length]
  {
  }

  /** The entry agrees with what the device serves for it: the device serves bytes and the
      entry's size, when it is a number, is their length. */
  predicate Agrees(roots: Roots, info: FileInfo, dev: Device)
  {
    && FetchAt(dev, FileUrl(roots.remote, info.uri)).Bytes?
    && (info.size.Absent? || info.size == Whole(FetchAt(dev, FileUrl(roots.remote, info.uri)).length))
  }

  /** Once a transfer of an entry that agrees with the device has succeeded, transferring it
      again without `force` is skipped: it succeeds and changes nothing. */
  lemma {:induction false} TransferAgainSkips(roots: Roots, info: FileInfo, policy: Policy, dev: Device, fs: Files)
    requires !policy.force && Agrees(roots, info, dev)
    ensures var first := Transfer(roots, info.uri, None, policy, Some(info), dev, fs);
      Transfer(roots, info.uri, None, policy, Some(info), dev, first.fs) == Step(Returned(true), first.fs)
  {
    var first := Transfer(roots, info.uri, None, policy, Some(info), dev, fs);
    var path := TargetPath(roots, info.uri, None);
    ShouldSkipIff(info.size, Get(fs, path), policy.force, policy.checkSize);
    ShouldSkipIff(info.size, Get(first.fs, path), policy.force, policy.checkSize);
  }

  /** The local file of an entry is present and current for the size check `checkSize`. */
  predicate Fresh(roots: Roots, e: FileInfo, checkSize: bool, fs: Files)
  {
    var path := TargetPath(roots, e.uri, None);
    path in fs && UpToDate(e.size, fs[path], checkSize)
  }

  /** An unforced transfer of an entry that agrees with the device leaves the entry's file
      fresh, whether it skipped or fetched. */
  lemma TransferMakesFresh(roots: Roots, info: FileInfo, policy: Policy, dev: Device, fs: Files)
    requires !policy.force && Agrees(roots, info, dev)
    ensures Fresh(roots, info, policy.checkSize, Transfer(roots, info.uri, None, policy, Some(info), dev, fs).fs)
  {
    ShouldSkipIff(info.size, Get(fs, TargetPath(roots, info.uri, None)), policy.force, policy.checkSize);
  }

  /** No transfer spoils the fresh file of an entry that agrees with the device: a write to
      the same local path is fetched from the same URL, so it has the length the entry
      announces. */
  lemma TransferKeepsFresh(roots: Roots, remotePath: string, policy: Policy, info: Option<FileInfo>,
                           dev: Device, fs: Files, e: FileInfo, checkSize: bool)
    requires Agrees(roots, e, dev) && Fresh(roots, e, checkSize, fs)
    ensures Fresh(roots, e, checkSize, Transfer(roots, remotePath, None, policy, info, dev, fs).fs)
  {
    TransferOutcome(roots, remotePath, None, policy, info, dev, fs);
    if TargetPath(roots, remotePath, None) == TargetPath(roots, e.uri, None) {
      LocalPathInjective(roots.local, remotePath, e.uri);
      FileUrlInjective(roots.remote, remotePath, e.uri);
    }
  }

  /** An unforced transfer of an entry whose file is fresh skips it: it succeeds and
      changes nothing. */
  lemma TransferOfFreshSkips(roots: Roots, info: FileInfo, policy: Policy, dev: Device, fs: Files)
    requires !policy.force && Fresh(roots, info, policy.checkSize, fs)
    ensures Transfer(roots, info.uri, None, policy, Some(info), dev, fs) == Step(Returned(true), fs)
  {
    ShouldSkipIff(info.size, Get(fs, TargetPath(roots, info.uri, None)), policy.force, policy.checkSize);
  }

  /** A transfer of an entry that agrees with the device succeeds. */
  lemma TransferOfAgreeingSucceeds(roots: Roots, info: FileInfo, policy: Policy, dev: Device, fs: Files)
    requires Agrees(roots, info, dev)
    ensures Transfer(roots, info.uri, None, policy, Some(info), dev, fs).result == Returned(true)
  {
  }
}
