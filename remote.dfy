/** What the device's listing pages say: a finite tree of entries (supynote/supernote.py:129-145,
    215-231), how entries split into files and subdirectories, and the transitive file count. */
module Remote {
  import opened Wrappers

  /** The `size` field of a listing entry: missing, a whole number (Python compares a JSON
      boolean or an integral float the same way), or some other value that no byte count
      equals (a string, `null`, a float with a fraction). */
  datatype SizeField = Absent | Whole(n: int) | Other

  /** A file entry: its `uri` and its `size` field. */
  datatype FileInfo = FileInfo(uri: string, size: SizeField)

  /** A `fileList` item: `isDirectory` false gives a file, true a directory, which carries the
      listing the device returns when that directory is requested. */
  datatype Entry = File(info: FileInfo) | Folder(uri: string, listing: Listing)

  /** A listing request's result: `NoData` when `list_files` gives None or a dictionary
      without `fileList`, otherwise the items of `fileList` in order. */
  datatype Listing = NoData | FileList(items: seq<Entry>)

  /** What fetching one URL gives: the bytes (only their length matters to the model), a
      failure of the handled class (`requests.RequestException`, `aiohttp.ClientError`:
      connection errors, timeouts, error statuses), or an exception outside that class. */
  datatype Fetch = Bytes(length: nat) | NetError | Fault

  /** The device as seen over HTTP: what each URL gives; a URL it does not serve fails. */
  type Device = map<string, Fetch>

  function FetchAt(dev: Device, url: string): (f: Fetch)
    ensures url !in dev ==> f == NetError
    ensures url in dev ==> f == dev[url]
  {
    if url in dev then dev[url] else NetError
  }

  /** `files_to_download`: the uris of the file entries, in listing order. */
  function FileUris(items: seq<Entry>): seq<string>
  {
    if items == [] then []
    else
      var init := FileUris(items[..|items| - 1]);
      match items[|items| - 1]
      case File(info) => init + [info.uri]
      case Folder(_, _) => init
  }

  /** `file_info_map`: each file uri to its entry; a later entry with the same uri replaces
      an earlier one. */
  function InfoMap(items: seq<Entry>): map<string, FileInfo>
  {
    if items == [] then map[]
    else
      var init := InfoMap(items[..|items| - 1]);
      match items[|items| - 1]
      case File(info) => init[info.uri := info]
      case Folder(_, _) => init
  }

  /** `directories_to_process`, each directory given by the listing it leads to, in listing
      order. */
  function Subdirs(items: seq<Entry>): seq<Listing>
  {
    if items == [] then []
    else
      var init := Subdirs(items[..|items| - 1]);
      match items[|items| - 1]
      case File(_) => init
      case Folder(_, l) => init + [l]
  }

  /** Every item lands in exactly one of the two lists. */
  lemma {:induction false} PartitionSizes(items: seq<Entry>)
    ensures |FileUris(items)| + |Subdirs(items)| == |items|
  {
    if items != [] {
      PartitionSizes(items[..|items| - 1]);
    }
  }

  /** `files_to_download` holds exactly the uris of the file entries, in order: its `k`-th
      uri is that of the `k`-th file entry. */
  lemma {:induction false} FileUrisAreTheFiles(items: seq<Entry>, u: string)
    ensures u in FileUris(items) <==> exists i :: 0 <= i < |items| && items[i].File? && items[i].info.uri == u
  {
    if items != [] {
      var init := items[..|items| - 1];
      FileUrisAreTheFiles(init, u);
      if exists i :: 0 <= i < |init| && init[i].File? && init[i].info.uri == u {
        var i :| 0 <= i < |init| && init[i].File? && init[i].info.uri == u;
        assert items[i] == init[i];
      }
    }
  }

  /** The keys of `file_info_map` are the uris of `files_to_download`. */
  lemma {:induction false} InfoMapKeys(items: seq<Entry>)
    ensures InfoMap(items).Keys == set u | u in FileUris(items)
  {
    if items != [] {
      InfoMapKeys(items[..|items| - 1]);
    }
  }

  /** The entry `file_info_map` keeps for a uri is the last file entry with that uri. */
  lemma {:induction false} InfoMapKeepsLast(items: seq<Entry>, i: nat)
    requires i < |items| && items[i].File?
    requires forall j :: i < j < |items| ==> !(items[j].File? && items[j].info.uri == items[i].info.uri)
    ensures items[i].info.uri in InfoMap(items)
    ensures InfoMap(items)[items[i].info.uri] == items[i].info
  {
    if i < |items| - 1 {
      InfoMapKeepsLast(items[..|items| - 1], i);
    }
  }

  /** Every entry `file_info_map` holds is stored under its own uri. */
  lemma {:induction false} InfoMapUnderOwnUri(items: seq<Entry>, u: string)
    requires u in InfoMap(items)
    ensures InfoMap(items)[u].uri == u
  {
    var init := items[..|items| - 1];
    if items[|items| - 1].Folder? || items[|items| - 1].info.uri != u {
      InfoMapUnderOwnUri(init, u);
    }
  }

  /** A measure that shrinks from a listing to each of its subdirectories. */
  function Size(l: Listing): nat
    decreases l
  {
    match l
    case NoData => 1
    case FileList(items) => 1 + SizeEntries(items)
  }

  function SizeEntries(items: seq<Entry>): nat
    decreases items
  {
    if items == [] then 0
    else
      SizeEntries(items[..|items| - 1]) +
      match items[|items| - 1]
      case File(_) => 1
      case Folder(_, l) => 1 + Size(l)
  }

  function SizeAll(dirs: seq<Listing>): nat
  {
    if dirs == [] then 0 else Size(dirs[0]) + 1 + SizeAll(dirs[1..])
  }

  lemma {:induction false} SizeAllAppend(a: seq<Listing>, b: seq<Listing>)
    ensures SizeAll(a + b) == SizeAll(a) + SizeAll(b)
  {
    if a == [] {
      assert a + b == b;
    } else {
      assert (a + b)[1..] == a[1..] + b;
      SizeAllAppend(a[1..], b);
    }
  }

  /** The subdirectories of a level weigh less than the level's entries. */
  lemma {:induction false} SubdirsSmaller(items: seq<Entry>)
    ensures SizeAll(Subdirs(items)) <= SizeEntries(items)
  {
    if items != [] {
      var init := items[..|items| - 1];
      SubdirsSmaller(init);
      match items[|items| - 1]
      case File(_) =>
      case Folder(_, l) =>
        SizeAllAppend(Subdirs(init), [l]);
    }
  }

  lemma {:induction false} ElementSmaller(dirs: seq<Listing>, i: nat)
    requires i < |dirs|
    ensures Size(dirs[i]) < SizeAll(dirs)
  {
    if i > 0 {
      ElementSmaller(dirs[1..], i - 1);
    }
  }

  /** Each subdirectory of a level weighs less than the level. */
  lemma SubdirSmaller(items: seq<Entry>, i: nat)
    requires i < |Subdirs(items)|
    ensures Size(Subdirs(items)[i]) < Size(FileList(items))
  {
    SubdirsSmaller(items);
    ElementSmaller(Subdirs(items), i);
  }

  /** The number of file entries in a listing and, transitively, in all directories below. */
  function FileCount(l: Listing): nat
    decreases l
  {
    match l
    case NoData => 0
    case FileList(items) => CountEntries(items)
  }

  function CountEntries(items: seq<Entry>): nat
    decreases items
  {
    if items == [] then 0
    else
      CountEntries(items[..|items| - 1]) +
      match items[|items| - 1]
      case File(_) => 1
      case Folder(_, l) => FileCount(l)
  }

  /** The file counts of a run of directories, added up. */
  function SumCounts(dirs: seq<Listing>): nat
  {
    if dirs == [] then 0 else FileCount(dirs[0]) + SumCounts(dirs[1..])
  }

  lemma {:induction false} SumCountsAppend(a: seq<Listing>, b: seq<Listing>)
    ensures SumCounts(a + b) == SumCounts(a) + SumCounts(b)
  {
    if a == [] {
      assert a + b == b;
    } else {
      assert (a + b)[1..] == a[1..] + b;
      SumCountsAppend(a[1..], b);
    }
  }

  /** The transitive count of a level is its own files plus its subdirectories' counts. */
  lemma {:induction false} CountSplits(items: seq<Entry>)
    ensures CountEntries(items) == |FileUris(items)| + SumCounts(Subdirs(items))
  {
    if items != [] {
      var init := items[..|items| - 1];
      CountSplits(init);
      match items[|items| - 1]
      case File(_) =>
      case Folder(_, l) =>
        SumCountsAppend(Subdirs(init), [l]);
    }
  }

  /** The uris of all file entries in a listing and in all directories below. */
  function TreeUris(l: Listing): set<string>
    decreases l
  {
    match l
    case NoData => {}
    case FileList(items) => EntriesUris(items)
  }

  function EntriesUris(items: seq<Entry>): set<string>
    decreases items
  {
    if items == [] then {}
    else
      EntriesUris(items[..|items| - 1]) +
      match items[|items| - 1]
      case File(info) => {info.uri}
      case Folder(_, l) => TreeUris(l)
  }

  /** The uris of a run of directories' trees, together. */
  function AllUris(dirs: seq<Listing>): set<string>
  {
    if dirs == [] then {} else TreeUris(dirs[0]) + AllUris(dirs[1..])
  }

  lemma {:induction false} AllUrisAppend(a: seq<Listing>, b: seq<Listing>)
    ensures AllUris(a + b) == AllUris(a) + AllUris(b)
  {
    if a == [] {
      assert a + b == b;
    } else {
      assert (a + b)[1..] == a[1..] + b;
      AllUrisAppend(a[1..], b);
    }
  }

  /** A tree's files are its own level's files and those of its subdirectories. */
  lemma {:induction false} UrisSplit(items: seq<Entry>)
    ensures EntriesUris(items) == (set u | u in FileUris(items)) + AllUris(Subdirs(items))
  {
    if items != [] {
      var init := items[..|items| - 1];
      UrisSplit(init);
      match items[|items| - 1]
      case File(_) =>
      case Folder(_, l) =>
        AllUrisAppend(Subdirs(init), [l]);
    }
  }
}
