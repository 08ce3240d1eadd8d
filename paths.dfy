/** Where a remote path lands locally and where it is fetched from (supynote/supernote.py). */
module Paths {

  /** Python's `s.lstrip('/')`: every leading `/` removed. */
  function LStripSlash(s: string): (r: string)
    ensures |r| <= |s|
    ensures r == [] || r[0] != '/'
  {
    if s != [] && s[0] == '/' then LStripSlash(s[1..]) else s
  }

  /** `n` slashes. */
  function Slashes(n: nat): (r: string)
    ensures |r| == n && forall i :: 0 <= i < n ==> r[i] == '/'
  {
    if n == 0 then "" else "/" + Slashes(n - 1)
  }

  /** What `lstrip('/')` removes is a run of slashes in front of what it keeps. */
  lemma {:induction false} LStripSlashSplits(s: string)
    ensures s == Slashes(|s| - |LStripSlash(s)|) + LStripSlash(s)
  {
    if s != [] && s[0] == '/' {
      LStripSlashSplits(s[1..]);
      assert s == "/" + s[1..];
    }
  }

  /** Leading slashes make no difference to the stripped path. */
  lemma {:induction false} LStripSlashIgnoresLeadingSlashes(n: nat, s: string)
    ensures LStripSlash(Slashes(n) + s) == LStripSlash(s)
  {
    if n > 0 {
      assert (Slashes(n) + s)[0] == '/';
      assert (Slashes(n) + s)[1..] == Slashes(n - 1) + s;
      LStripSlashIgnoresLeadingSlashes(n - 1, s);
    } else {
      assert Slashes(n) + s == s;
    }
  }

  /** Stripping twice is stripping once. */
  lemma LStripSlashIdempotent(s: string)
    ensures LStripSlash(LStripSlash(s)) == LStripSlash(s)
  {
  }

  /** `Path(root) / rel` for a relative `rel` without `.` segments or doubled separators;
      joining the empty path leaves the root as it is. */
  function JoinPath(root: string, rel: string): string
  {
    if rel == "" then root else root + "/" + rel
  }

  /** `self.local_root / remote_path.lstrip('/')` (supynote/supernote.py:101, 296). */
  function LocalPath(localRoot: string, remotePath: string): string
  {
    JoinPath(localRoot, LStripSlash(remotePath))
  }

  /** `f"{self.remote_root}/{remote_path.lstrip('/')}"` (supynote/supernote.py:110, 305). */
  function FileUrl(remoteRoot: string, remotePath: string): string
  {
    remoteRoot + "/" + LStripSlash(remotePath)
  }

  /** Two remote paths land on the same local path exactly when they are the same once
      their leading slashes are stripped. */
  lemma LocalPathInjective(localRoot: string, a: string, b: string)
    ensures LocalPath(localRoot, a) == LocalPath(localRoot, b) <==> LStripSlash(a) == LStripSlash(b)
  {
    var x, y := LStripSlash(a), LStripSlash(b);
    if LocalPath(localRoot, a) == LocalPath(localRoot, b) && x != "" && y != "" {
      assert (localRoot + "/" + x)[|localRoot| + 1..] == x;
      assert (localRoot + "/" + y)[|localRoot| + 1..] == y;
    }
  }

  /** Two remote paths are fetched from the same URL exactly when they are the same once
      their leading slashes are stripped. */
  lemma FileUrlInjective(remoteRoot: string, a: string, b: string)
    ensures FileUrl(remoteRoot, a) == FileUrl(remoteRoot, b) <==> LStripSlash(a) == LStripSlash(b)
  {
    if FileUrl(remoteRoot, a) == FileUrl(remoteRoot, b) {
      assert FileUrl(remoteRoot, a)[|remoteRoot| + 1..] == LStripSlash(a);
      assert FileUrl(remoteRoot, b)[|remoteRoot| + 1..] == LStripSlash(b);
    }
  }

  /** Whatever the roots, remote paths that share a local path share a URL: a local file
      is only ever written with the bytes of one URL. */
  lemma SameLocalPathSameUrl(localRoot: string, remoteRoot: string, a: string, b: string)
    requires LocalPath(localRoot, a) == LocalPath(localRoot, b)
    ensures FileUrl(remoteRoot, a) == FileUrl(remoteRoot, b)
  {
    LocalPathInjective(localRoot, a, b);
    FileUrlInjective(remoteRoot, a, b);
  }

  /** Remote paths that differ only in their leading slashes map to the same local path
      and to the same URL. */
  lemma {:induction false} LeadingSlashesIrrelevant(localRoot: string, remoteRoot: string, n: nat, s: string)
    ensures LocalPath(localRoot, Slashes(n) + s) == LocalPath(localRoot, s)
    ensures FileUrl(remoteRoot, Slashes(n) + s) == FileUrl(remoteRoot, s)
  {
    LStripSlashIgnoresLeadingSlashes(n, s);
  }
}
