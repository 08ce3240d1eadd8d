/** The decision whether a file already present locally is downloaded again
    (supynote/supernote.py:70-96). */
module SkipPolicy {
  import opened Wrappers
  import opened Remote

  /** A local file of `localLength` bytes counts as current for an entry: with the size check
      off any local file does, with it on the entry must give no size or the same size. */
  predicate UpToDate(size: SizeField, localLength: nat, checkSize: bool)
  {
    !checkSize || size.Absent? || size == Whole(localLength)
  }

  /** `_should_skip_file`: `local` is the byte length of the file at the local path, `None`
      when nothing exists there. */
  function ShouldSkip(size: SizeField, local: Option<nat>, force: bool, checkSize: bool): (skip: bool)
    ensures force ==> !skip
    ensures local.None? ==> !skip
    ensures !force && local.Some? && !checkSize ==> skip
    ensures !force && local.Some? && checkSize && size.Whole? ==> (skip <==> size.n == local.value)
    ensures !force && local.Some? && checkSize && size.Absent? ==> skip
    ensures !force && local.Some? && checkSize && size.Other? ==> !skip
  {
    if force then false
    else if local.None? then false
    else if !checkSize then true
    else
      match size
      case Whole(n) => local.value == n
      case Other => false
      case Absent => true
  }

  /** The policy skips exactly when it is not forced and the local file exists and is
      current. */
  lemma ShouldSkipIff(size: SizeField, local: Option<nat>, force: bool, checkSize: bool)
    ensures ShouldSkip(size, local, force, checkSize) <==>
      !force && local.Some? && UpToDate(size, local.value, checkSize)
  {
  }
}
