/** The dates the merger (supynote/merger.py) works with: the cutoff of a time range and
    the creation time a file name announces. */
module Dates {
  import opened Wrappers
  import opened Text
  import opened Calendar

  // ---------------------------------------------------------------------------------------
  // Time-range cutoff (`_get_time_cutoff`)
  // ---------------------------------------------------------------------------------------

  /** How many days back each recognised time range reaches; "all" and any unknown name
      reach back without limit. */
  function LookbackDays(range: string): (r: Option<nat>)
    ensures r.Some? <==> range in {"week", "2weeks", "month"}
  {
    if range == "week" then Some(7)
    else if range == "2weeks" then Some(14)
    else if range == "month" then Some(30)
    else None
  }

  /** The cutoff of a time range: none at all, a moment, or the OverflowError that
      `now - timedelta(days=n)` raises for a result before year 1. */
  datatype Cutoff = NoCutoff | Since(moment: Moment) | Overflow

  /** `_get_time_cutoff()` with `datetime.now()` passed in as `now`. */
  function TimeCutoff(range: string, now: Moment): Cutoff
  {
    if range == "all" then NoCutoff
    else
      match LookbackDays(range)
      case None => NoCutoff
      case Some(n) =>
        SubDaysOrdinal(now, n);
        match SubDays(now, n)
        case None => Overflow
        case Some(c) => Since(c)
  }

  /** `c` is the moment `n` days before `now` at the same time of day, or the overflow
      when that would fall before 0001-01-01. */
  ghost predicate DaysBefore(c: Cutoff, now: Moment, n: nat)
  {
    && !c.NoCutoff?
    && (c.Overflow? <==> Ordinal(now) <= n)
    && (c.Since? ==> SameClock(c.moment, now) && Ordinal(c.moment) == Ordinal(now) - n)
  }

  /** "all" and unknown names give no cutoff; "week", "2weeks" and "month" give the moment
      7, 14 or 30 days before `now`, which is strictly earlier than `now`. */
  lemma TimeCutoffSpec(range: string, now: Moment)
    ensures range !in {"week", "2weeks", "month"} ==> TimeCutoff(range, now) == NoCutoff
    ensures range == "week" ==> DaysBefore(TimeCutoff(range, now), now, 7)
    ensures range == "2weeks" ==> DaysBefore(TimeCutoff(range, now), now, 14)
    ensures range == "month" ==> DaysBefore(TimeCutoff(range, now), now, 30)
    ensures TimeCutoff(range, now).Since? ==> Before(TimeCutoff(range, now).moment, now)
  {
    if LookbackDays(range).Some? {
      var n := LookbackDays(range).value;
      SubDaysOrdinal(now, n);
      if SubDays(now, n).Some? {
        SubDaysIsEarlier(now, n);
      }
    }
  }

  /** Whether a file dated `t` falls outside the range: `cutoff and file_date < cutoff`
      (a datetime is always true). */
  predicate Skipped(cutoff: Option<Moment>, t: Moment)
  {
    cutoff.Some? && Before(t, cutoff.value)
  }

  // ---------------------------------------------------------------------------------------
  // Names (`Path.name`, `Path.stem`)
  // ---------------------------------------------------------------------------------------

  /** `Path(p).name`: what follows the last `/`. */
  function BaseName(p: string): (r: string)
    ensures |r| <= |p| && '/' !in r
  {
    if p == [] || p[|p| - 1] == '/' then [] else BaseName(p[..|p| - 1]) + [p[|p| - 1]]
  }

  /** A path ends in its name, and a path with no `/` is its own name. */
  lemma {:induction false} BaseNameAfterSlash(dir: string, name: string)
    requires '/' !in name
    ensures BaseName(dir + "/" + name) == name
    ensures BaseName(name) == name
  {
    if name != [] {
      var p := dir + "/" + name;
      assert p[..|p| - 1] == dir + "/" + name[..|name| - 1];
      assert name[..|name| - 1] + [name[|name| - 1]] == name;
      BaseNameAfterSlash(dir, name[..|name| - 1]);
    } else {
      assert (dir + "/" + name)[|dir + "/" + name| - 1] == '/';
    }
  }

  /** The position of the last `.`, as `str.rfind('.')` finds it. */
  function LastDot(s: string): (r: Option<nat>)
    ensures r.Some? ==> r.value < |s| && s[r.value] == '.'
    ensures r.Some? ==> forall j :: r.value < j < |s| ==> s[j] != '.'
    ensures r.None? ==> '.' !in s
  {
    if s == [] then None
    else if s[|s| - 1] == '.' then Some(|s| - 1)
    else LastDot(s[..|s| - 1])
  }

  /** `Path.stem`: the name without its last suffix; a name that starts with its only dot,
      or ends with it, is its own stem. */
  function Stem(name: string): (r: string)
    ensures |r| <= |name| && r == name[..|r|]
  {
    match LastDot(name)
    case Some(i) => if 0 < i < |name| - 1 then name[..i] else name
    case None => name
  }

  /** The stem of `base + "." + ext` is `base`, when `base` is not empty and `ext` is a
      non-empty suffix without dots. */
  lemma StemDropsSuffix(base: string, ext: string)
    requires base != [] && ext != [] && '.' !in ext
    ensures Stem(base + "." + ext) == base
  {
    var name := base + "." + ext;
    assert name[|base|] == '.';
    forall j | |base| < j < |name| ensures name[j] != '.' {
      assert name[j] == ext[j - |base| - 1];
    }
    assert name[..|base|] == base;
  }

  // ---------------------------------------------------------------------------------------
  // The date a file name announces (`_extract_date_from_file`, first strategy)
  // ---------------------------------------------------------------------------------------

  /** Whether `stem` starts like `YYYYMMDD_HHMMSS`, per `re.match(r'^\d{8}_\d{6}', stem)`. */
  predicate HasStampPrefix(stem: string)
  {
    |stem| >= 15 && AllDigits(stem[0..8]) && stem[8] == '_' && AllDigits(stem[9..15])
  }

  /** The fields `strptime(stem[:15], '%Y%m%d_%H%M%S')` reads. */
  function StampFields(stem: string): DateTime
    requires HasStampPrefix(stem)
  {
    DigitsWithin(stem, 0, 8, 0, 4);
    DigitsWithin(stem, 0, 8, 4, 6);
    DigitsWithin(stem, 0, 8, 6, 8);
    DigitsWithin(stem, 9, 15, 9, 11);
    DigitsWithin(stem, 9, 15, 11, 13);
    DigitsWithin(stem, 9, 15, 13, 15);
    DateTime(DigitsValue(stem[0..4]), DigitsValue(stem[4..6]), DigitsValue(stem[6..8]),
             DigitsValue(stem[9..11]), DigitsValue(stem[11..13]), DigitsValue(stem[13..15]), 0)
  }

  lemma DigitsWithin(s: string, i: nat, j: nat, k: nat, l: nat)
    requires i <= k <= l <= j <= |s| && AllDigits(s[i..j])
    ensures AllDigits(s[k..l])
  {
    forall m | 0 <= m < l - k ensures IsDigit(s[k..l][m]) {
      assert s[k..l][m] == s[i..j][m + k - i];
    }
  }

  /** The creation time a stem announces: `None` when it has no stamp prefix or when
      `strptime` raises ValueError on an impossible date or time. */
  function FilenameDate(stem: string): Option<Moment>
  {
    if HasStampPrefix(stem) && Valid(StampFields(stem)) then Some(StampFields(stem)) else None
  }

  /** How the device stamps a name: `strftime('%Y%m%d_%H%M%S')`. */
  function StampText(t: Moment): (r: string)
    ensures |r| == 15
  {
    Padded(t.year, 4) + Padded(t.month, 2) + Padded(t.day, 2) + "_"
      + Padded(t.hour, 2) + Padded(t.minute, 2) + Padded(t.second, 2)
  }

  /** A stamped name reads back as the moment it was stamped with, whatever follows it. */
  lemma StampRoundTrip(t: Moment, rest: string)
    requires t.micro == 0
    ensures FilenameDate(StampText(t) + rest) == Some(t)
  {
    var s := StampText(t) + rest;
    StampSlices(Padded(t.year, 4), Padded(t.month, 2), Padded(t.day, 2), "_",
                Padded(t.hour, 2), Padded(t.minute, 2), Padded(t.second, 2), rest);
    assert AllDigits(s[0..8]);
    assert AllDigits(s[9..15]);
    assert StampFields(s) == t;
  }

  /** Where the seven parts of a stamp sit in a text that starts with it. */
  lemma StampSlices<T>(a: seq<T>, b: seq<T>, c: seq<T>, u: seq<T>, d: seq<T>, e: seq<T>, f: seq<T>, rest: seq<T>)
    requires |a| == 4 && |b| == 2 && |c| == 2 && |u| == 1 && |d| == 2 && |e| == 2 && |f| == 2
    ensures var s := a + b + c + u + d + e + f + rest;
      && s[0..4] == a && s[4..6] == b && s[6..8] == c && s[8] == u[0]
      && s[9..11] == d && s[11..13] == e && s[13..15] == f
      && s[0..8] == a + b + c && s[9..15] == d + e + f
  {
  }

  /** Only the first 15 characters of a stem decide its date. */
  lemma OnlyPrefixCounts(stem: string, rest: string)
    requires |stem| >= 15
    ensures FilenameDate(stem + rest) == FilenameDate(stem)
  {
    var s := stem + rest;
    assert s[0..8] == stem[0..8] && s[9..15] == stem[9..15] && s[8] == stem[8];
    if HasStampPrefix(stem) {
      assert s[0..4] == stem[0..4] && s[4..6] == stem[4..6] && s[6..8] == stem[6..8];
      assert s[9..11] == stem[9..11] && s[11..13] == stem[11..13] && s[13..15] == stem[13..15];
    }
  }

  /** A stem announces exactly the moments whose stamp its first 15 characters are: any
      other prefix, an impossible calendar value (month 13, 30 February, second 60, year 0)
      among them, announces nothing and leaves the date to the other strategies. */
  lemma FilenameDateExact(stem: string, t: Moment)
    ensures FilenameDate(stem) == Some(t) <==> |stem| >= 15 && stem[..15] == StampText(t) && t.micro == 0
  {
    if |stem| >= 15 && stem[..15] == StampText(t) && t.micro == 0 {
      assert stem == StampText(t) + stem[15..];
      StampRoundTrip(t, stem[15..]);
    }
    if FilenameDate(stem) == Some(t) {
      StampOfFields(stem);
    }
  }

  /** A valid stamp prefix is printed back by `StampText` exactly as it was written. */
  lemma StampOfFields(stem: string)
    requires HasStampPrefix(stem) && Valid(StampFields(stem))
    ensures StampText(StampFields(stem)) == stem[..15]
  {
    var t := StampFields(stem);
    DateDigits(stem);
    TimeDigits(stem);
    StampShape(stem);
    Regroup7(Padded(t.year, 4), Padded(t.month, 2), Padded(t.day, 2), "_",
             Padded(t.hour, 2), Padded(t.minute, 2), Padded(t.second, 2));
  }

  /** A stamp prefix is its date digits, the underscore and its time digits. */
  lemma StampShape(stem: string)
    requires HasStampPrefix(stem)
    ensures stem[..15] == stem[0..8] + "_" + stem[9..15]
  {
    SlicesJoin(stem, 0, 8, 15);
    SlicesJoin(stem, 8, 9, 15);
    assert stem[8..9] == [stem[8]];
  }

  lemma Regroup7<T>(a: seq<T>, b: seq<T>, c: seq<T>, u: seq<T>, d: seq<T>, e: seq<T>, f: seq<T>)
    ensures a + b + c + u + d + e + f == (a + b + c) + u + (d + e + f)
  {
  }

  lemma DateDigits(stem: string)
    requires HasStampPrefix(stem) && Valid(StampFields(stem))
    ensures Padded(StampFields(stem).year, 4) + Padded(StampFields(stem).month, 2)
      + Padded(StampFields(stem).day, 2) == stem[0..8]
  {
    DigitsWithin(stem, 0, 8, 0, 4);
    DigitsWithin(stem, 0, 8, 4, 6);
    DigitsWithin(stem, 0, 8, 6, 8);
    PaddedDigits(stem[0..4]);
    PaddedDigits(stem[4..6]);
    PaddedDigits(stem[6..8]);
    SlicesJoin(stem, 0, 4, 8);
    SlicesJoin(stem, 4, 6, 8);
  }

  lemma TimeDigits(stem: string)
    requires HasStampPrefix(stem) && Valid(StampFields(stem))
    ensures Padded(StampFields(stem).hour, 2) + Padded(StampFields(stem).minute, 2)
      + Padded(StampFields(stem).second, 2) == stem[9..15]
  {
    DigitsWithin(stem, 9, 15, 9, 11);
    DigitsWithin(stem, 9, 15, 11, 13);
    DigitsWithin(stem, 9, 15, 13, 15);
    PaddedDigits(stem[9..11]);
    PaddedDigits(stem[11..13]);
    PaddedDigits(stem[13..15]);
    SlicesJoin(stem, 9, 11, 15);
    SlicesJoin(stem, 11, 13, 15);
  }

  lemma SlicesJoin(s: string, i: nat, j: nat, k: nat)
    requires i <= j <= k <= |s|
    ensures s[i..j] + s[j..k] == s[i..k]
  {
  }

  /** Reading digits and printing them back at the same width gives the same digits. */
  lemma {:induction false} PaddedDigits(d: string)
    requires AllDigits(d)
    ensures Padded(DigitsValue(d), |d|) == d
  {
    if d != [] {
      var init := d[..|d| - 1];
      assert AllDigits(init) by {
        forall m | 0 <= m < |init| ensures IsDigit(init[m]) {
          assert init[m] == d[m];
        }
      }
      PaddedDigits(init);
      var c := d[|d| - 1] as int - '0' as int;
      LastDigit(DigitsValue(init), c);
      assert DigitChar(c) == d[|d| - 1];
      LastSplit(d);
    }
  }

  lemma LastDigit(v: nat, c: nat)
    requires c < 10
    ensures (10 * v + c) / 10 == v && (10 * v + c) % 10 == c
  {
  }

  /** `_extract_date_from_file`: the date in the name when there is one, otherwise what
      `other` says (the notebook's metadata, the matching `.note` file or the modification
      time, none of which is part of this model). */
  function FileDate(path: string, other: string -> Moment): Moment
  {
    match FilenameDate(Stem(BaseName(path)))
    case Some(t) => t
    case None => other(path)
  }

  /** A file the device stamped, `dir/YYYYMMDD_HHMMSS<rest>.<ext>`, is dated by its name
      whatever the other strategies would say. */
  lemma StampedFileDate(dir: string, t: Moment, rest: string, ext: string, other: string -> Moment)
    requires t.micro == 0
    requires '/' !in rest && '/' !in ext && '.' !in ext && ext != []
    ensures FileDate(dir + "/" + (StampText(t) + rest + "." + ext), other) == t
  {
    var name := StampText(t) + rest + "." + ext;
    assert '/' !in StampText(t) by {
      assert forall i :: 0 <= i < |StampText(t)| ==> StampText(t)[i] != '/' by {
        assert StampText(t) == Padded(t.year, 4) + Padded(t.month, 2) + Padded(t.day, 2) + "_"
          + Padded(t.hour, 2) + Padded(t.minute, 2) + Padded(t.second, 2);
      }
    }
    assert '/' !in name;
    BaseNameAfterSlash(dir, name);
    StemDropsSuffix(StampText(t) + rest, ext);
    StampRoundTrip(t, rest);
  }
}
