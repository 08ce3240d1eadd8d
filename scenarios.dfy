/** A worked example of the two directory walks (supynote/supernote.py:127-176, 178-267):
    the folder `Note` holds `a.note` (100 bytes) and `b.note` (200 bytes) and the folder
    `Note/Sub`, which holds `c.note` (50 bytes). */
module Scenarios {
  import opened Wrappers
  import opened Remote
  import opened Paths
  import opened SkipPolicy
  import opened Transfers
  import opened Walks

  const Here := Roots("http://sn", "/home")

  const RelA := "Note/a.note"
  const RelB := "Note/b.note"
  const RelC := "Note/Sub/c.note"
  const A := FileInfo("/" + RelA, Whole(100))
  const B := FileInfo("/" + RelB, Whole(200))
  const C := FileInfo("/" + RelC, Whole(50))
  const Sub := FileList([File(C)])
  const Tree := FileList([File(A), File(B), Folder("/Note/Sub", Sub)])

  /** Where each file lands locally, and the URL it is fetched from. */
  const PathA := "/home/" + RelA
  const PathB := "/home/" + RelB
  const PathC := "/home/" + RelC
  const UrlA := "http://sn/" + RelA
  const UrlB := "http://sn/" + RelB
  const UrlC := "http://sn/" + RelC

  /** The device serves every file with the size its entry announces. */
  const Served: Device := map[UrlA := Bytes(100), UrlB := Bytes(200), UrlC := Bytes(50)]

  const Checked := Policy(false, true)

  /** The local files once every file has been downloaded. */
  const Synced: Files := map[PathA := 100, PathB := 200, PathC := 50]

  /** How the two listings split into files and subdirectories, and where the files go. */
  lemma Layout()
    ensures FileUris(Tree.items) == [A.uri, B.uri] && Subdirs(Tree.items) == [Sub]
    ensures InfoMap(Tree.items) == map[A.uri := A, B.uri := B]
    ensures FileUris(Sub.items) == [C.uri] && Subdirs(Sub.items) == []
    ensures InfoMap(Sub.items) == map[C.uri := C]
    ensures TargetPath(Here, A.uri, None) == PathA && FileUrl(Here.remote, A.uri) == UrlA
    ensures TargetPath(Here, B.uri, None) == PathB && FileUrl(Here.remote, B.uri) == UrlB
    ensures TargetPath(Here, C.uri, None) == PathC && FileUrl(Here.remote, C.uri) == UrlC
  {
    TreeLayout();
    SubLayout();
    Placed(A.uri, RelA);
    Placed(B.uri, RelB);
    Placed(C.uri, RelC);
  }

  lemma TreeLayout()
    ensures FileUris(Tree.items) == [A.uri, B.uri] && Subdirs(Tree.items) == [Sub]
    ensures InfoMap(Tree.items) == map[A.uri := A, B.uri := B]
  {
    var one := [File(A)];
    var two := [File(A), File(B)];
    assert one[..0] == [] && one[0] == File(A);
    assert FileUris(one) == [A.uri];
    assert InfoMap(one) == map[A.uri := A];
    assert Subdirs(one) == [];
    assert two[..1] == one && two[1] == File(B);
    assert Tree.items[..2] == two && Tree.items[2] == Folder("/Note/Sub", Sub);
  }

  lemma SubLayout()
    ensures FileUris(Sub.items) == [C.uri] && Subdirs(Sub.items) == []
    ensures InfoMap(Sub.items) == map[C.uri := C]
  {
    assert Sub.items[..0] == [] && Sub.items[0] == File(C);
  }

  /** The three files have three local paths and three URLs. */
  lemma AllDifferent()
    ensures PathA != PathB && PathA != PathC && PathB != PathC
    ensures UrlA != UrlB && UrlA != UrlC && UrlB != UrlC
  {
    assert PathA[11] == 'a' && PathB[11] == 'b' && PathC[11] == 'S';
    assert UrlA[15] == 'a' && UrlB[15] == 'b' && UrlC[15] == 'S';
  }

  /** A uri with one leading slash lands under the local root and is fetched under the
      remote root. */
  lemma Placed(uri: string, rest: string)
    requires uri == "/" + rest && rest != [] && rest[0] != '/'
    ensures TargetPath(Here, uri, None) == "/home/" + rest
    ensures FileUrl(Here.remote, uri) == "http://sn/" + rest
  {
    assert uri[1..] == rest;
    assert LStripSlash(rest) == rest;
  }

  /** 1 for a transfer that returned True. */
  function Ok(s: Step): nat
  {
    if s.result == Returned(true) then 1 else 0
  }

  /** The transfers of the example tree, each on the files the previous one left. */
  function S1(policy: Policy, dev: Device, fs: Files): Step
  {
    Transfer(Here, A.uri, None, policy, Some(A), dev, fs)
  }

  function S2(policy: Policy, dev: Device, fs: Files): Step
  {
    Transfer(Here, B.uri, None, policy, Some(B), dev, S1(policy, dev, fs).fs)
  }

  function S3(policy: Policy, dev: Device, fs: Files): Step
  {
    Transfer(Here, C.uri, None, policy, Some(C), dev, S2(policy, dev, fs).fs)
  }

  /** The files of each level are transferred in listing order with their own entries. */
  lemma Levels(policy: Policy, dev: Device, fs: Files)
    ensures var s1, s2, s3 := S1(policy, dev, fs), S2(policy, dev, fs), S3(policy, dev, fs);
      && RunFiles(Here, FileUris(Tree.items), InfoMap(Tree.items), policy, dev, Batch(0, false, fs))
         == Batch(Ok(s1) + Ok(s2), s1.result == Raised || s2.result == Raised, s2.fs)
      && RunFiles(Here, FileUris(Sub.items), InfoMap(Sub.items), policy, dev, Batch(0, false, s2.fs))
         == Batch(Ok(s3), s3.result == Raised, s3.fs)
  {
    TopLevel(policy, dev, fs);
    SubLayout();
  }

  lemma TopLevel(policy: Policy, dev: Device, fs: Files)
    ensures var s1, s2 := S1(policy, dev, fs), S2(policy, dev, fs);
      RunFiles(Here, FileUris(Tree.items), InfoMap(Tree.items), policy, dev, Batch(0, false, fs))
      == Batch(Ok(s1) + Ok(s2), s1.result == Raised || s2.result == Raised, s2.fs)
  {
    TreeLayout();
    var s1, s2 := S1(policy, dev, fs), S2(policy, dev, fs);
    var info := InfoMap(Tree.items);
    assert Get(info, A.uri) == Some(A) && Get(info, B.uri) == Some(B) by {
      assert A.uri != B.uri by { assert A.uri[6] == 'a' && B.uri[6] == 'b'; }
    }
    var b1 := Batch(Ok(s1), s1.result == Raised, s1.fs);
    var b2 := Batch(Ok(s1) + Ok(s2), s1.result == Raised || s2.result == Raised, s2.fs);
    assert [A.uri, B.uri][1..] == [B.uri];
    assert RunFiles(Here, [B.uri], info, policy, dev, b1) == b2;
  }

  /** The asynchronous walk over the example tree reports the successes among the three
      transfers and a total of 3. */
  lemma AsyncTree(policy: Policy, dev: Device, fs: Files)
    ensures var s1, s2, s3 := S1(policy, dev, fs), S2(policy, dev, fs), S3(policy, dev, fs);
      AsyncWalk(Here, Tree, policy, dev, fs) == Async(Counts(Ok(s1) + Ok(s2) + Ok(s3), 3), s3.fs)
  {
    Layout();
    Levels(policy, dev, fs);
    var s1, s2, s3 := S1(policy, dev, fs), S2(policy, dev, fs), S3(policy, dev, fs);
    AsyncWalkLevel(Here, Sub.items, policy, dev, s2.fs);
    assert AsyncSubdirs(Here, [], policy, dev, Counts(Ok(s3), 1), s3.fs) == Async(Counts(Ok(s3), 1), s3.fs);
    assert AsyncWalk(Here, Sub, policy, dev, s2.fs) == Async(Counts(Ok(s3), 1), s3.fs);
    AsyncWalkLevel(Here, Tree.items, policy, dev, fs);
    AsyncSubdirsStep(Here, [Sub], policy, dev, Counts(Ok(s1) + Ok(s2), 2), s2.fs);
    assert [Sub][0] == Sub && [Sub][1..] == [];
  }

  /** When no transfer raises, the synchronous walk with four workers reports the same. */
  lemma SyncTree(policy: Policy, dev: Device, fs: Files)
    requires S1(policy, dev, fs).result != Raised && S2(policy, dev, fs).result != Raised
    requires S3(policy, dev, fs).result != Raised
    ensures var s1, s2, s3 := S1(policy, dev, fs), S2(policy, dev, fs), S3(policy, dev, fs);
      SyncWalk(Here, Tree, 4, policy, dev, fs) == Sync(Done(Counts(Ok(s1) + Ok(s2) + Ok(s3), 3)), s3.fs)
  {
    Layout();
    Levels(policy, dev, fs);
    var s1, s2, s3 := S1(policy, dev, fs), S2(policy, dev, fs), S3(policy, dev, fs);
    SyncWalkLevel(Here, Sub.items, 4, policy, dev, s2.fs);
    assert SyncSubdirs(Here, [], 4, policy, dev, Counts(Ok(s3), 1), s3.fs) == Sync(Done(Counts(Ok(s3), 1)), s3.fs);
    assert SyncWalk(Here, Sub, 4, policy, dev, s2.fs) == Sync(Done(Counts(Ok(s3), 1)), s3.fs);
    SyncWalkLevel(Here, Tree.items, 4, policy, dev, fs);
    SyncSubdirsStep(Here, [Sub], 4, policy, dev, Counts(Ok(s1) + Ok(s2), 2), s2.fs);
    assert [Sub][0] == Sub && [Sub][1..] == [];
  }

  /** A first run on an empty local tree downloads all three files: (3, 3). */
  lemma FirstRun()
    ensures SyncWalk(Here, Tree, 4, Checked, Served, map[]) == Sync(Done(Counts(3, 3)), Synced)
    ensures AsyncWalk(Here, Tree, Checked, Served, map[]) == Async(Counts(3, 3), Synced)
  {
    FirstRunSteps();
    AsyncTree(Checked, Served, map[]);
    SyncTree(Checked, Served, map[]);
  }

  lemma FirstRunSteps()
    ensures S1(Checked, Served, map[]) == Step(Returned(true), map[PathA := 100])
    ensures S2(Checked, Served, map[]) == Step(Returned(true), map[PathA := 100, PathB := 200])
    ensures S3(Checked, Served, map[]) == Step(Returned(true), Synced)
  {
    FirstRunA();
    FirstRunB();
    FirstRunC();
  }

  lemma FirstRunA()
    ensures S1(Checked, Served, map[]) == Step(Returned(true), map[PathA := 100])
  {
    Placed(A.uri, RelA);
    AllDifferent();
  }

  lemma FirstRunB()
    ensures S2(Checked, Served, map[]) == Step(Returned(true), map[PathA := 100, PathB := 200])
  {
    FirstRunA();
    Placed(B.uri, RelB);
    AllDifferent();
  }

  lemma FirstRunC()
    ensures S3(Checked, Served, map[]) == Step(Returned(true), Synced)
  {
    FirstRunB();
    Placed(C.uri, RelC);
    AllDifferent();
  }

  /** A second run with `b.note` truncated to 150 bytes skips `a.note` and `c.note` and
      downloads `b.note` again; skipped files count as successes, so the run reports
      (3, 3) and leaves the local tree as the first run did. */
  lemma SecondRun()
    ensures SyncWalk(Here, Tree, 4, Checked, Served, Synced[PathB := 150]) == Sync(Done(Counts(3, 3)), Synced)
    ensures AsyncWalk(Here, Tree, Checked, Served, Synced[PathB := 150]) == Async(Counts(3, 3), Synced)
  {
    SecondRunSteps();
    AsyncTree(Checked, Served, Synced[PathB := 150]);
    SyncTree(Checked, Served, Synced[PathB := 150]);
  }

  lemma SecondRunSteps()
    ensures S1(Checked, Served, Synced[PathB := 150]) == Step(Returned(true), Synced[PathB := 150])
    ensures S2(Checked, Served, Synced[PathB := 150]) == Step(Returned(true), Synced)
    ensures S3(Checked, Served, Synced[PathB := 150]) == Step(Returned(true), Synced)
  {
    SecondRunA();
    SecondRunB();
    SecondRunC();
  }

  lemma SecondRunA()
    ensures S1(Checked, Served, Synced[PathB := 150]) == Step(Returned(true), Synced[PathB := 150])
  {
    Placed(A.uri, RelA);
    AllDifferent();
  }

  lemma SecondRunB()
    ensures S2(Checked, Served, Synced[PathB := 150]) == Step(Returned(true), Synced)
  {
    SecondRunA();
    Placed(B.uri, RelB);
    AllDifferent();
    var fs := Synced[PathB := 150];
    assert Get(fs, PathB) == Some(150);
    assert !ShouldSkip(B.size, Some(150), false, true);
    assert FetchAt(Served, UrlB) == Bytes(200);
    assert Transfer(Here, B.uri, None, Checked, Some(B), Served, fs) == Step(Returned(true), fs[PathB := 200]);
    RestoreEntry(Synced, PathB, 150);
  }

  /** Writing an entry back to the value it had restores the map. */
  lemma RestoreEntry<K, V>(m: map<K, V>, k: K, v: V)
    requires k in m
    ensures m[k := v][k := m[k]] == m
  {
  }

  lemma SecondRunC()
    ensures S3(Checked, Served, Synced[PathB := 150]) == Step(Returned(true), Synced)
  {
    SecondRunB();
    Placed(C.uri, RelC);
    AllDifferent();
  }

  /** When the device fails to serve `b.note`, its siblings are still transferred and the
      run reports (2, 3). */
  lemma OneFailure()
    ensures SyncWalk(Here, Tree, 4, Checked, Served[UrlB := NetError], map[])
      == Sync(Done(Counts(2, 3)), map[PathA := 100, PathC := 50])
    ensures AsyncWalk(Here, Tree, Checked, Served[UrlB := NetError], map[])
      == Async(Counts(2, 3), map[PathA := 100, PathC := 50])
  {
    OneFailureSteps();
    AsyncTree(Checked, Served[UrlB := NetError], map[]);
    SyncTree(Checked, Served[UrlB := NetError], map[]);
  }

  lemma OneFailureSteps()
    ensures S1(Checked, Served[UrlB := NetError], map[]) == Step(Returned(true), map[PathA := 100])
    ensures S2(Checked, Served[UrlB := NetError], map[]) == Step(Returned(false), map[PathA := 100])
    ensures S3(Checked, Served[UrlB := NetError], map[]) == Step(Returned(true), map[PathA := 100, PathC := 50])
  {
    OneFailureA();
    OneFailureB();
    OneFailureC();
  }

  lemma OneFailureA()
    ensures S1(Checked, Served[UrlB := NetError], map[]) == Step(Returned(true), map[PathA := 100])
  {
    Placed(A.uri, RelA);
    AllDifferent();
  }

  lemma OneFailureB()
    ensures S2(Checked, Served[UrlB := NetError], map[]) == Step(Returned(false), map[PathA := 100])
  {
    OneFailureA();
    Placed(B.uri, RelB);
    AllDifferent();
  }

  lemma OneFailureC()
    ensures S3(Checked, Served[UrlB := NetError], map[]) == Step(Returned(true), map[PathA := 100, PathC := 50])
  {
    OneFailureB();
    Placed(C.uri, RelC);
    AllDifferent();
  }

  /** A device whose root page yields no data gives (0, 0) and changes nothing. */
  lemma Unreachable(fs: Files)
    ensures SyncWalk(Here, NoData, 4, Checked, Served, fs) == Sync(Done(Counts(0, 0)), fs)
    ensures AsyncWalk(Here, NoData, Checked, Served, fs) == Async(Counts(0, 0), fs)
  {
  }
}
