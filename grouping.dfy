/** `_group_files_by_date` (supynote/merger.py:86-111): drop the files dated before the
    cutoff, group the rest by the day of their date, and sort each group by time. */
module Grouping {
  import opened Wrappers
  import opened Text
  import opened Calendar
  import opened Dates
  import opened StrOrder

  /** A file with the date `_extract_date_from_file` gave it: one `(file_path, file_date)`
      pair of the result. */
  datatype Stamped = Stamped(path: string, time: Moment)

  /** The files paired with their dates, in input order. */
  function Stamps(paths: seq<string>, date: string -> Moment): (r: seq<Stamped>)
    ensures |r| == |paths|
  {
    if paths == [] then []
    else Stamps(paths[..|paths| - 1], date) + [Stamped(paths[|paths| - 1], date(paths[|paths| - 1]))]
  }

  lemma {:induction false} StampsAt(paths: seq<string>, date: string -> Moment, i: nat)
    requires i < |paths|
    ensures Stamps(paths, date)[i] == Stamped(paths[i], date(paths[i]))
  {
    if i < |paths| - 1 {
      StampsAt(paths[..|paths| - 1], date, i);
    }
  }

  // ---------------------------------------------------------------------------------------
  // What is kept, and how it falls into days
  // ---------------------------------------------------------------------------------------

  /** The files inside the time range, in input order. */
  function Kept(s: seq<Stamped>, cutoff: Option<Moment>): (r: seq<Stamped>)
    ensures |r| <= |s|
  {
    if s == [] then []
    else
      var x := s[|s| - 1];
      Kept(s[..|s| - 1], cutoff) + (if Skipped(cutoff, x.time) then [] else [x])
  }

  /** A file is kept exactly when it is not dated strictly before the cutoff. */
  lemma {:induction false} KeptSpec(s: seq<Stamped>, cutoff: Option<Moment>, x: Stamped)
    ensures x in Kept(s, cutoff) <==> x in s && !Skipped(cutoff, x.time)
  {
    if s != [] {
      var init, last := s[..|s| - 1], s[|s| - 1];
      KeptSpec(init, cutoff, x);
      LastSplit(s);
    }
  }

  /** With no cutoff every file is kept. */
  lemma {:induction false} KeptAll(s: seq<Stamped>)
    ensures Kept(s, None) == s
  {
    if s != [] {
      KeptAll(s[..|s| - 1]);
      LastSplit(s);
    }
  }

  /** The kept files of one day, in input order; `day` names the day of a moment. */
  function OnDay(s: seq<Stamped>, day: Moment -> string, k: string): (r: seq<Stamped>)
    ensures |r| <= |s|
  {
    if s == [] then []
    else
      var x := s[|s| - 1];
      OnDay(s[..|s| - 1], day, k) + (if day(x.time) == k then [x] else [])
  }

  /** A day's files are the files whose day is that day. */
  lemma {:induction false} OnDaySpec(s: seq<Stamped>, day: Moment -> string, k: string, x: Stamped)
    ensures x in OnDay(s, day, k) <==> x in s && day(x.time) == k
  {
    if s != [] {
      OnDaySpec(s[..|s| - 1], day, k, x);
      LastSplit(s);
    }
  }

  /** The days in the order the dictionary first meets them. */
  function DayOrder(s: seq<Stamped>, day: Moment -> string): seq<string>
  {
    if s == [] then []
    else
      var prev := DayOrder(s[..|s| - 1], day);
      var k := day(s[|s| - 1].time);
      prev + (if k in prev then [] else [k])
  }

  /** Each day appears once, and exactly the days that have a file appear. */
  lemma {:induction false} DayOrderSpec(s: seq<Stamped>, day: Moment -> string, k: string)
    ensures Distinct(DayOrder(s, day))
    ensures k in DayOrder(s, day) <==> OnDay(s, day, k) != []
  {
    if s != [] {
      DayOrderSpec(s[..|s| - 1], day, k);
    }
  }

  /** The dictionary `files_by_date` before its lists are sorted: every file appended to
      the list of its day, a day's list created on its first file. */
  function Grouped(s: seq<Stamped>, day: Moment -> string): map<string, seq<Stamped>>
  {
    if s == [] then map[]
    else
      var g := Grouped(s[..|s| - 1], day);
      var x := s[|s| - 1];
      var k := day(x.time);
      g[k := (if k in g then g[k] else []) + [x]]
  }

  /** The dictionary holds exactly the days met, each mapped to its files in input order. */
  lemma {:induction false} GroupedAt(s: seq<Stamped>, day: Moment -> string, k: string)
    ensures k in Grouped(s, day) <==> k in DayOrder(s, day)
    ensures k in Grouped(s, day) ==> Grouped(s, day)[k] == OnDay(s, day, k)
  {
    if s != [] {
      GroupedAt(s[..|s| - 1], day, k);
      DayOrderSpec(s[..|s| - 1], day, k);
    }
  }

  // ---------------------------------------------------------------------------------------
  // Sorting a day by time (`list.sort(key=lambda x: x[1])`)
  // ---------------------------------------------------------------------------------------

  predicate TimeSorted(s: seq<Stamped>)
  {
    forall i, j :: 0 <= i < j < |s| ==> !Before(s[j].time, s[i].time)
  }

  /** `x` placed before the first element that is not earlier than it. */
  function InsertByTime(x: Stamped, s: seq<Stamped>): seq<Stamped>
  {
    if s == [] then [x]
    else if Before(s[0].time, x.time) then [s[0]] + InsertByTime(x, s[1..])
    else [x] + s
  }

  /** A stable sort by time (as an insertion sort: which stable sort it is does not
      change its result). */
  function SortByTime(s: seq<Stamped>): seq<Stamped>
  {
    if s == [] then [] else InsertByTime(s[0], SortByTime(s[1..]))
  }

  /** The elements at time `t`, in order. */
  function AtTime(s: seq<Stamped>, t: Moment): seq<Stamped>
  {
    if s == [] then [] else (if s[0].time == t then [s[0]] else []) + AtTime(s[1..], t)
  }

  lemma {:induction false} InsertByTimeKeeps(x: Stamped, s: seq<Stamped>)
    ensures multiset(InsertByTime(x, s)) == multiset(s) + multiset{x}
  {
    if s != [] && Before(s[0].time, x.time) {
      InsertByTimeKeeps(x, s[1..]);
      assert s == [s[0]] + s[1..];
    }
  }

  lemma {:induction false} InsertByTimeAtTime(x: Stamped, s: seq<Stamped>, t: Moment)
    ensures AtTime(InsertByTime(x, s), t) == (if x.time == t then [x] else []) + AtTime(s, t)
  {
    if s != [] && Before(s[0].time, x.time) {
      InsertByTimeAtTime(x, s[1..], t);
      BeforeIsStrictTotal(s[0].time, x.time, x.time);
      var r := InsertByTime(x, s);
      assert r[1..] == InsertByTime(x, s[1..]);
    } else if s != [] {
      var r := [x] + s;
      assert r[1..] == s;
    }
  }

  lemma {:induction false} InsertByTimeSorted(x: Stamped, s: seq<Stamped>)
    requires TimeSorted(s)
    ensures TimeSorted(InsertByTime(x, s))
  {
    if s != [] && Before(s[0].time, x.time) {
      InsertByTimeSorted(x, s[1..]);
      BeforeIsStrictTotal(s[0].time, x.time, x.time);
      NotBeforeInsert(s[0].time, x, s[1..]);
    } else if s != [] {
      var r := [x] + s;
      forall j | 0 < j < |r| ensures !Before(r[j].time, x.time) {
        var y := s[j - 1];
        assert j > 1 ==> !Before(y.time, s[0].time);
        BeforeIsStrictTotal(y.time, s[0].time, x.time);
      }
    }
  }

  /** No element is earlier than `lo`. */
  predicate NotBefore(lo: Moment, s: seq<Stamped>)
  {
    forall i :: 0 <= i < |s| ==> !Before(s[i].time, lo)
  }

  lemma {:induction false} NotBeforeInsert(lo: Moment, x: Stamped, s: seq<Stamped>)
    requires NotBefore(lo, s) && !Before(x.time, lo)
    ensures NotBefore(lo, InsertByTime(x, s))
  {
    if s != [] && Before(s[0].time, x.time) {
      NotBeforeInsert(lo, x, s[1..]);
    }
  }

  /** The sort returns a permutation of the day's files in ascending time ... */
  lemma {:induction false} SortByTimeSorts(s: seq<Stamped>)
    ensures multiset(SortByTime(s)) == multiset(s)
    ensures TimeSorted(SortByTime(s))
  {
    if s != [] {
      SortByTimeSorts(s[1..]);
      InsertByTimeKeeps(s[0], SortByTime(s[1..]));
      InsertByTimeSorted(s[0], SortByTime(s[1..]));
      assert s == [s[0]] + s[1..];
    }
  }

  /** ... in which the files of equal time keep their input order. */
  lemma {:induction false} SortByTimeStable(s: seq<Stamped>, t: Moment)
    ensures AtTime(SortByTime(s), t) == AtTime(s, t)
  {
    if s != [] {
      SortByTimeStable(s[1..], t);
      InsertByTimeAtTime(s[0], SortByTime(s[1..]), t);
    }
  }

  // ---------------------------------------------------------------------------------------
  // Counting
  // ---------------------------------------------------------------------------------------

  /** `sum(len(files) for files in files_by_date.values())`. */
  function Total(order: seq<string>, groups: map<string, seq<Stamped>>): nat
    requires forall i :: 0 <= i < |order| ==> order[i] in groups
  {
    if order == [] then 0
    else Total(order[..|order| - 1], groups) + |groups[order[|order| - 1]]|
  }

  /** The sizes of the day lists of `s` for the days of `order`. */
  function DaySizes(s: seq<Stamped>, day: Moment -> string, order: seq<string>): nat
  {
    if order == [] then 0
    else DaySizes(s, day, order[..|order| - 1]) + |OnDay(s, day, order[|order| - 1])|
  }

  /** How often `k` occurs in `keys`. */
  function Occurrences(keys: seq<string>, k: string): nat
  {
    if keys == [] then 0
    else Occurrences(keys[..|keys| - 1], k) + (if keys[|keys| - 1] == k then 1 else 0)
  }

  lemma {:induction false} OccurrencesOfDistinct(keys: seq<string>, k: string)
    requires Distinct(keys)
    ensures Occurrences(keys, k) == (if k in keys then 1 else 0)
  {
    if keys != [] {
      var init := keys[..|keys| - 1];
      assert Distinct(init);
      OccurrencesOfDistinct(init, k);
      LastSplit(keys);
    }
  }

  /** One more file adds one to the size of its own day and nothing to the others. */
  lemma {:induction false} DaySizesGrow(s: seq<Stamped>, day: Moment -> string, x: Stamped, order: seq<string>)
    ensures DaySizes(s + [x], day, order) == DaySizes(s, day, order) + Occurrences(order, day(x.time))
  {
    if order != [] {
      DaySizesGrow(s, day, x, order[..|order| - 1]);
      assert (s + [x])[..|s + [x]| - 1] == s;
    }
  }

  /** Every file is counted once across the days. */
  lemma {:induction false} DaySizesCover(s: seq<Stamped>, day: Moment -> string)
    ensures DaySizes(s, day, DayOrder(s, day)) == |s|
  {
    if s != [] {
      var init, x := s[..|s| - 1], s[|s| - 1];
      var k := day(x.time);
      DaySizesCover(init, day);
      LastSplit(s);
      DayOrderSpec(init, day, k);
      DaySizesGrow(init, day, x, DayOrder(init, day));
      OccurrencesOfDistinct(DayOrder(init, day), k);
      GroupedExtends(init, day, x);
      var order := DayOrder(init, day);
      if k !in order {
        assert DayOrder(s, day) == order + [k];
        NewDaySize(init, day, x);
        assert DaySizes(s, day, order) == |init|;
      } else {
        assert DayOrder(s, day) == order;
        assert DaySizes(s, day, order) == |init| + 1;
      }
    }
  }

  /** A file of a day not met before adds that day, holding just the file. */
  lemma NewDaySize(init: seq<Stamped>, day: Moment -> string, x: Stamped)
    requires day(x.time) !in DayOrder(init, day)
    ensures DaySizes(init + [x], day, DayOrder(init, day) + [day(x.time)]) ==
      DaySizes(init + [x], day, DayOrder(init, day)) + 1
  {
    var order, k := DayOrder(init, day), day(x.time);
    assert (order + [k])[..|order|] == order;
    DayOrderSpec(init, day, k);
    assert OnDay(init, day, k) == [];
    assert (init + [x])[..|init|] == init;
    assert OnDay(init + [x], day, k) == [x];
  }

  /** The groups of `order` hold as many files as the days they sort. */
  lemma {:induction false} TotalOfSorted(s: seq<Stamped>, day: Moment -> string, order: seq<string>,
                                         groups: map<string, seq<Stamped>>)
    requires forall i :: 0 <= i < |order| ==> order[i] in groups
    requires forall k :: k in groups ==> groups[k] == SortByTime(OnDay(s, day, k))
    ensures Total(order, groups) == DaySizes(s, day, order)
  {
    if order != [] {
      var k := order[|order| - 1];
      TotalOfSorted(s, day, order[..|order| - 1], groups);
      SortByTimeSorts(OnDay(s, day, k));
      assert |multiset(groups[k])| == |multiset(OnDay(s, day, k))|;
    }
  }

  // ---------------------------------------------------------------------------------------
  // The grouping itself
  // ---------------------------------------------------------------------------------------

  /** One more input file: the kept files grow by it unless it is skipped. */
  lemma KeptExtends(files: seq<string>, date: string -> Moment, cutoff: Option<Moment>, i: nat)
    requires i < |files|
    ensures var x := Stamped(files[i], date(files[i]));
      Kept(Stamps(files[..i + 1], date), cutoff)
        == Kept(Stamps(files[..i], date), cutoff) + (if Skipped(cutoff, x.time) then [] else [x])
  {
    var x := Stamped(files[i], date(files[i]));
    PrefixStep(files, i);
    assert Stamps(files[..i + 1], date) == Stamps(files[..i], date) + [x];
    assert (Stamps(files[..i], date) + [x])[..i] == Stamps(files[..i], date);
  }

  /** One more kept file: its day's list grows by it, created first when the day is new. */
  lemma GroupedExtends(kept: seq<Stamped>, day: Moment -> string, x: Stamped)
    ensures var g := Grouped(kept, day); var k := day(x.time);
      Grouped(kept + [x], day) == g[k := (if k in g then g[k] else []) + [x]]
    ensures var o := DayOrder(kept, day); var k := day(x.time);
      DayOrder(kept + [x], day) == o + (if k in o then [] else [k])
  {
    assert (kept + [x])[..|kept|] == kept;
  }

  /** Lines 103-105 for a kept file `x` of day `key`: create the day's list when the day
      is new, then append `x` to it; the dictionary of the files before `x` becomes the
      dictionary of the files up to `x`. */
  method AddToDay(order: seq<string>, groups: map<string, seq<Stamped>>, x: Stamped, key: string,
                  ghost kept: seq<Stamped>, day: Moment -> string)
    returns (order': seq<string>, groups': map<string, seq<Stamped>>)
    requires key == day(x.time)
    requires order == DayOrder(kept, day) && groups == Grouped(kept, day)
    ensures order' == DayOrder(kept + [x], day) && groups' == Grouped(kept + [x], day)
  {
    GroupedAt(kept, day, key);
    GroupedExtends(kept, day, x);
    order', groups' := order, groups;
    if key !in groups' {
      groups' := groups'[key := []];
      order' := order' + [key];
    }
    groups' := groups'[key := groups'[key] + [x]];
  }

  /** The first loop of `_group_files_by_date`: skip the files outside the range, append
      every other file to the list of its day. */
  method CollectByDay(files: seq<string>, cutoff: Option<Moment>, date: string -> Moment,
                      day: Moment -> string)
    returns (order: seq<string>, groups: map<string, seq<Stamped>>, skipped: nat)
    ensures skipped + |Kept(Stamps(files, date), cutoff)| == |files|
    ensures order == DayOrder(Kept(Stamps(files, date), cutoff), day)
    ensures groups == Grouped(Kept(Stamps(files, date), cutoff), day)
  {
    order, groups, skipped := [], map[], 0;
    for i := 0 to |files|
      invariant skipped + |Kept(Stamps(files[..i], date), cutoff)| == i
      invariant order == DayOrder(Kept(Stamps(files[..i], date), cutoff), day)
      invariant groups == Grouped(Kept(Stamps(files[..i], date), cutoff), day)
    {
      order, groups, skipped := CollectOne(files, i, cutoff, date, day, order, groups, skipped);
    }
    WholePrefix(files);
  }

  /** One pass of that loop, on `files[i]`. */
  method CollectOne(files: seq<string>, i: nat, cutoff: Option<Moment>, date: string -> Moment,
                    day: Moment -> string, order: seq<string>, groups: map<string, seq<Stamped>>,
                    skipped: nat)
    returns (order': seq<string>, groups': map<string, seq<Stamped>>, skipped': nat)
    requires i < |files|
    requires skipped + |Kept(Stamps(files[..i], date), cutoff)| == i
    requires order == DayOrder(Kept(Stamps(files[..i], date), cutoff), day)
    requires groups == Grouped(Kept(Stamps(files[..i], date), cutoff), day)
    ensures skipped' + |Kept(Stamps(files[..i + 1], date), cutoff)| == i + 1
    ensures order' == DayOrder(Kept(Stamps(files[..i + 1], date), cutoff), day)
    ensures groups' == Grouped(Kept(Stamps(files[..i + 1], date), cutoff), day)
  {
    ghost var kept := Kept(Stamps(files[..i], date), cutoff);
    var x := Stamped(files[i], date(files[i]));
    KeptExtends(files, date, cutoff, i);
    if Skipped(cutoff, x.time) {
      assert kept + [] == kept;
      order', groups', skipped' := order, groups, skipped + 1;
    } else {
      assert Kept(Stamps(files[..i + 1], date), cutoff) == kept + [x];
      order', groups' := AddToDay(order, groups, x, day(x.time), kept, day);
      skipped' := skipped;
    }
  }

  /** The second loop: sort the list of every day in the dictionary, each once. */
  method SortGroups(order: seq<string>, raw: map<string, seq<Stamped>>)
    returns (groups: map<string, seq<Stamped>>)
    requires Distinct(order)
    requires forall k :: k in raw <==> k in order
    ensures forall k :: k in groups <==> k in raw
    ensures forall k :: k in groups ==> groups[k] == SortByTime(raw[k])
  {
    groups := raw;
    for j := 0 to |order|
      invariant forall k :: k in groups <==> k in raw
      invariant forall k :: k in groups ==> groups[k] == (if k in order[..j] then SortByTime(raw[k]) else raw[k])
    {
      assert forall k :: k in order[..j + 1] <==> k in order[..j] || k == order[j];
      groups := groups[order[j] := SortByTime(groups[order[j]])];
    }
    WholePrefix(order);
  }

  /** `_group_files_by_date(files)` for the cutoff `_get_time_cutoff()` gave, the date
      `_extract_date_from_file` gives each file and the day `strftime("%Y-%m-%d")` gives
      each date: the dictionary as its days in insertion order and their lists, and the
      number of files outside the range. */
  method GroupFilesByDate(files: seq<string>, cutoff: Option<Moment>, date: string -> Moment,
                          day: Moment -> string)
    returns (order: seq<string>, groups: map<string, seq<Stamped>>, skipped: nat)
    ensures skipped + |Kept(Stamps(files, date), cutoff)| == |files|
    ensures order == DayOrder(Kept(Stamps(files, date), cutoff), day)
    ensures groups == DayGroups(Kept(Stamps(files, date), cutoff), day)
    ensures skipped + Total(order, groups) == |files|
  {
    var raw;
    order, raw, skipped := CollectByDay(files, cutoff, date, day);
    ghost var kept := Kept(Stamps(files, date), cutoff);
    forall k ensures k in raw <==> k in order && (k in raw ==> raw[k] == OnDay(kept, day, k)) {
      GroupedAt(kept, day, k);
    }
    DayOrderSpec(kept, day, "");
    groups := SortGroups(order, raw);
    TotalOfSorted(kept, day, order, groups);
    DaySizesCover(kept, day);
    SortedGroupsAre(kept, day, groups);
  }

  /** A dictionary with exactly the days met, each mapped to its sorted files, is
      `DayGroups`. */
  lemma SortedGroupsAre(kept: seq<Stamped>, day: Moment -> string, g: map<string, seq<Stamped>>)
    requires forall k :: k in g <==> k in DayOrder(kept, day)
    requires forall k :: k in g ==> g[k] == SortByTime(OnDay(kept, day, k))
    ensures g == DayGroups(kept, day)
  {
    var d := DayGroups(kept, day);
    assert g.Keys == d.Keys;
    assert forall k :: k in g ==> g[k] == d[k];
  }

  /** What `_group_files_by_date` returns for the kept files: every day met, mapped to its
      files sorted by time. */
  function DayGroups(kept: seq<Stamped>, day: Moment -> string): map<string, seq<Stamped>>
  {
    map k | k in DayOrder(kept, day) :: SortByTime(OnDay(kept, day, k))
  }

  // ---------------------------------------------------------------------------------------
  // What the grouping promises
  // ---------------------------------------------------------------------------------------

  /** Every kept file is in the group of its own day and in no other, that group exists,
      and every file of a group is kept and lies on the group's day. */
  lemma ExactlyOneGroup(kept: seq<Stamped>, day: Moment -> string, x: Stamped, k: string)
    ensures x in SortByTime(OnDay(kept, day, k)) <==> x in kept && day(x.time) == k
    ensures x in kept ==> day(x.time) in DayOrder(kept, day)
  {
    SortByTimeSorts(OnDay(kept, day, k));
    assert x in SortByTime(OnDay(kept, day, k)) <==> x in multiset(OnDay(kept, day, k));
    OnDaySpec(kept, day, k, x);
    OnDaySpec(kept, day, day(x.time), x);
    DayOrderSpec(kept, day, day(x.time));
  }

  /** No day in the dictionary has an empty list. */
  lemma NoEmptyGroup(kept: seq<Stamped>, day: Moment -> string, k: string)
    requires k in DayOrder(kept, day)
    ensures SortByTime(OnDay(kept, day, k)) != []
  {
    DayOrderSpec(kept, day, k);
    var x := OnDay(kept, day, k)[0];
    SortByTimeSorts(OnDay(kept, day, k));
    assert x in multiset(SortByTime(OnDay(kept, day, k)));
  }
}
