/** `DateBasedMerger` (supynote/merger.py): which files it merges, and the day files it
    writes for them. */
module Merger {
  import opened Wrappers
  import opened Text
  import opened Paths
  import opened StrOrder
  import opened Calendar
  import opened Dates
  import opened Grouping

  // ---------------------------------------------------------------------------------------
  // Configuration (`MergeConfig`)
  // ---------------------------------------------------------------------------------------

  datatype MergeConfig = MergeConfig(pdfOutputDir: string, markdownOutputDir: string,
                                     timeRange: string, mergeByDate: bool)

  /** `MergeConfig()`: the dataclass defaults. */
  const DefaultConfig := MergeConfig("pdf_notes", "markdown_notes", "all", true)

  /** `config or MergeConfig()` in the constructor. */
  function Configure(config: Option<MergeConfig>): (r: MergeConfig)
    ensures config.Some? ==> r == config.value
    ensures config.None? ==>
      (r.timeRange == "all" && r.pdfOutputDir == "pdf_notes" && r.markdownOutputDir == "markdown_notes")
  {
    if config.Some? then config.value else DefaultConfig
  }

  // ---------------------------------------------------------------------------------------
  // Which files are merged
  // ---------------------------------------------------------------------------------------

  /** `path` contains none of `names` as a substring (`name not in str(f)`). */
  predicate Clear(path: string, names: seq<string>)
  {
    forall i :: 0 <= i < |names| ==> !Contains(path, names[i])
  }

  /** The paths that are clear of every name, in input order. */
  function KeepClear(paths: seq<string>, names: seq<string>): (r: seq<string>)
    ensures |r| <= |paths|
  {
    if paths == [] then []
    else
      var p := paths[|paths| - 1];
      KeepClear(paths[..|paths| - 1], names) + (if Clear(p, names) then [p] else [])
  }

  lemma {:induction false} KeepClearSpec(paths: seq<string>, names: seq<string>, p: string)
    ensures p in KeepClear(paths, names) <==> p in paths && Clear(p, names)
  {
    if paths != [] {
      KeepClearSpec(paths[..|paths| - 1], names, p);
      LastSplit(paths);
    }
  }

  /** Lines 123-128: the PDFs outside both output directories and outside any
      "merged_by_date" folder. */
  function PdfCandidates(config: MergeConfig, pdfs: seq<string>): seq<string>
  {
    KeepClear(pdfs, [config.pdfOutputDir, config.markdownOutputDir, "merged_by_date"])
  }

  /** Lines 218-222: the notebooks outside both output directories. */
  function NoteCandidates(config: MergeConfig, notes: seq<string>): seq<string>
  {
    KeepClear(notes, [config.pdfOutputDir, config.markdownOutputDir])
  }

  /** A PDF is merged exactly when its path mentions neither output directory nor
      "merged_by_date"; a notebook exactly when it mentions neither output directory. */
  lemma CandidatesSpec(config: MergeConfig, paths: seq<string>, p: string)
    ensures p in PdfCandidates(config, paths) <==>
      p in paths && !Contains(p, config.pdfOutputDir) && !Contains(p, config.markdownOutputDir)
      && !Contains(p, "merged_by_date")
    ensures p in NoteCandidates(config, paths) <==>
      p in paths && !Contains(p, config.pdfOutputDir) && !Contains(p, config.markdownOutputDir)
  {
    KeepClearSpec(paths, [config.pdfOutputDir, config.markdownOutputDir, "merged_by_date"], p);
    KeepClearSpec(paths, [config.pdfOutputDir, config.markdownOutputDir], p);
    var three := [config.pdfOutputDir, config.markdownOutputDir, "merged_by_date"];
    var two := [config.pdfOutputDir, config.markdownOutputDir];
    assert Clear(p, three) <==> !Contains(p, three[0]) && !Contains(p, three[1]) && !Contains(p, three[2]);
    assert Clear(p, two) <==> !Contains(p, two[0]) && !Contains(p, two[1]);
  }

  /** The PDF filter is the notebook filter followed by the "merged_by_date" filter: it
      keeps the order of the files and drops only files the notebook filter would keep or
      drop as well. */
  lemma {:induction false} PdfFilterRefinesNoteFilter(config: MergeConfig, paths: seq<string>)
    ensures PdfCandidates(config, paths) == KeepClear(NoteCandidates(config, paths), ["merged_by_date"])
  {
    if paths != [] {
      var init := paths[..|paths| - 1];
      var p := paths[|paths| - 1];
      PdfFilterRefinesNoteFilter(config, init);
      var three := [config.pdfOutputDir, config.markdownOutputDir, "merged_by_date"];
      var two := [config.pdfOutputDir, config.markdownOutputDir];
      assert Clear(p, three) <==> Clear(p, two) && Clear(p, ["merged_by_date"]) by {
        assert Clear(p, three) <==> !Contains(p, three[0]) && !Contains(p, three[1]) && !Contains(p, three[2]);
        assert Clear(p, two) <==> !Contains(p, two[0]) && !Contains(p, two[1]);
        assert Clear(p, ["merged_by_date"]) <==> !Contains(p, ["merged_by_date"][0]);
      }
      var notes := NoteCandidates(config, paths);
      if Clear(p, two) {
        assert notes == NoteCandidates(config, init) + [p];
        assert notes[..|notes| - 1] == NoteCandidates(config, init);
      } else {
        assert notes == NoteCandidates(config, init);
      }
    }
  }

  /** A filter none of whose paths is clear keeps nothing. */
  lemma {:induction false} KeepClearNone(paths: seq<string>, names: seq<string>)
    requires forall i :: 0 <= i < |paths| ==> !Clear(paths[i], names)
    ensures KeepClear(paths, names) == []
  {
    if paths != [] {
      KeepClearNone(paths[..|paths| - 1], names);
    }
  }

  /** Every text contains the empty string, so an empty output-directory name leaves
      nothing to merge. */
  lemma EmptyNameExcludesAll(config: MergeConfig, paths: seq<string>)
    requires config.pdfOutputDir == "" || config.markdownOutputDir == ""
    ensures PdfCandidates(config, paths) == [] && NoteCandidates(config, paths) == []
  {
    var three := [config.pdfOutputDir, config.markdownOutputDir, "merged_by_date"];
    var two := [config.pdfOutputDir, config.markdownOutputDir];
    forall i | 0 <= i < |paths| ensures !Clear(paths[i], three) && !Clear(paths[i], two) {
      ContainsSpec(paths[i], "");
      assert OccursAt(paths[i], "", 0);
      assert three[0] == two[0] && three[1] == two[1];
    }
    KeepClearNone(paths, three);
    KeepClearNone(paths, two);
  }

  /** The test looks at the whole path, the searched directory included: when the
      directory's own path mentions an output-directory name, nothing under it is merged. */
  lemma OutputNameAboveExcludesAll(config: MergeConfig, directory: string, rels: seq<string>)
    requires Contains(directory, config.pdfOutputDir)
    ensures PdfCandidates(config, Under(directory, rels)) == []
    ensures NoteCandidates(config, Under(directory, rels)) == []
  {
    var paths := Under(directory, rels);
    var name := config.pdfOutputDir;
    var three := [name, config.markdownOutputDir, "merged_by_date"];
    var two := [name, config.markdownOutputDir];
    UnderSpec(directory, rels);
    ContainsSpec(directory, name);
    var q: nat :| OccursAt(directory, name, q);
    forall i | 0 <= i < |paths| ensures !Clear(paths[i], three) && !Clear(paths[i], two) {
      var p := paths[i];
      assert p in paths;
      var rest :| p == directory + rest;
      assert p[q..q + |name|] == directory[q..q + |name|];
      assert OccursAt(p, name, q);
      ContainsSpec(p, name);
      assert three[0] == name && two[0] == name;
    }
    KeepClearNone(paths, three);
    KeepClearNone(paths, two);
  }

  /** The paths `directory.glob(...)` gives for relative paths `rels`. */
  function Under(directory: string, rels: seq<string>): (r: seq<string>)
    ensures |r| == |rels|
  {
    if rels == [] then [] else Under(directory, rels[..|rels| - 1]) + [directory + "/" + rels[|rels| - 1]]
  }

  lemma {:induction false} UnderSpec(directory: string, rels: seq<string>)
    ensures forall p :: p in Under(directory, rels) ==> exists rest :: p == directory + rest
  {
    if rels != [] {
      UnderSpec(directory, rels[..|rels| - 1]);
      var r := rels[|rels| - 1];
      assert directory + "/" + r == directory + ("/" + r);
    }
  }

  // ---------------------------------------------------------------------------------------
  // The markdown file of one day (lines 258-276)
  // ---------------------------------------------------------------------------------------

  /** A markdown file written for one day: where, and its text. */
  datatype DayNote = DayNote(path: string, content: string)

  /** `f"# Notes for {date_str}\n"`. */
  function Header(key: string): string
  {
    "# Notes for " + key + "\n"
  }

  /** `f"\n## {file_path.name} ({time_str})\n"` with `time_str` the `%H:%M:%S` clock. */
  function Heading(f: Stamped): string
  {
    "\n## " + BaseName(f.path) + " (" + Clock(f.time) + ")\n"
  }

  /** The extracted text when there is some (an empty text is false in Python), the
      placeholder otherwise. */
  function Body(f: Stamped, text: Option<string>): string
  {
    if text.Some? && text.value != "" then text.value
    else "*No text content available for " + BaseName(f.path) + "*"
  }

  /** `markdown_content` after the loop over the day's files: `texts` stands for
      `_extract_text_from_note`. */
  function DayLines(key: string, files: seq<Stamped>, texts: string -> Option<string>): (r: seq<string>)
    ensures |r| == 1 + 2 * |files|
  {
    if files == [] then [Header(key)]
    else
      var f := files[|files| - 1];
      DayLines(key, files[..|files| - 1], texts) + [Heading(f), Body(f, texts(f.path))]
  }

  /** The day's lines are the header, then for every file in group order its heading and
      after it its text or the placeholder. */
  lemma {:induction false} DayLinesAt(key: string, files: seq<Stamped>, texts: string -> Option<string>, i: nat)
    requires i < |files|
    ensures DayLines(key, files, texts)[0] == Header(key)
    ensures DayLines(key, files, texts)[1 + 2 * i] == Heading(files[i])
    ensures DayLines(key, files, texts)[2 + 2 * i] == Body(files[i], texts(files[i].path))
  {
    if i < |files| - 1 {
      DayLinesAt(key, files[..|files| - 1], texts, i);
    } else if |files| > 1 {
      DayLinesAt(key, files[..|files| - 1], texts, 0);
    }
  }

  /** The body of the loop over the days of `merge_markdown_by_date`: the file
      `{date_str}.md` in `outDir` and the lines joined into its text. */
  method MarkdownFor(outDir: string, key: string, files: seq<Stamped>, texts: string -> Option<string>)
    returns (note: DayNote)
    ensures note == DayNote(JoinPath(outDir, key + ".md"), Join(DayLines(key, files, texts), "\n"))
  {
    var lines := [Header(key)];
    for i := 0 to |files|
      invariant lines == DayLines(key, files[..i], texts)
    {
      PrefixStep(files, i);
      var f := files[i];
      lines := lines + [Heading(f)];
      var text := texts(f.path);
      if text.Some? && text.value != "" {
        lines := lines + [text.value];
      } else {
        lines := lines + ["*No text content available for " + BaseName(f.path) + "*"];
      }
    }
    WholePrefix(files);
    note := DayNote(JoinPath(outDir, key + ".md"), Join(lines, "\n"));
  }

  // ---------------------------------------------------------------------------------------
  // The order of the days
  // ---------------------------------------------------------------------------------------

  /** `a` falls on an earlier calendar day than `b`. */
  predicate EarlierDay(a: Moment, b: Moment)
  {
    || a.year < b.year
    || (a.year == b.year && a.month < b.month)
    || (a.year == b.year && a.month == b.month && a.day < b.day)
  }

  /** Day keys sort as text in the order of their calendar days. */
  lemma DayKeyOrder(a: Moment, b: Moment)
    ensures StrLess(DayKey(a), DayKey(b)) <==> EarlierDay(a, b)
  {
    var ya, yb := Padded(a.year, 4), Padded(b.year, 4);
    assert DayKey(a) == ya + MonthDay(a);
    assert DayKey(b) == yb + MonthDay(b);
    StrLessConcat(ya, MonthDay(a), yb, MonthDay(b));
    PaddedOrder(a.year, b.year, 4);
    MonthDayOrder(a, b);
  }

  /** The `-MM-DD` part of a day key. */
  function MonthDay(t: Moment): string
  {
    "-" + (Padded(t.month, 2) + ("-" + Padded(t.day, 2)))
  }

  lemma MonthDayOrder(a: Moment, b: Moment)
    ensures StrLess(MonthDay(a), MonthDay(b)) <==>
      a.month < b.month || (a.month == b.month && a.day < b.day)
  {
    var ma, da := Padded(a.month, 2), Padded(a.day, 2);
    var mb, db := Padded(b.month, 2), Padded(b.day, 2);
    StrLessConcat("-", ma + ("-" + da), "-", mb + ("-" + db));
    StrLessConcat(ma, "-" + da, mb, "-" + db);
    StrLessConcat("-", da, "-", db);
    StrLessIrreflexive("-");
    assert Pow10(2) == 100 by { assert Pow10(1) == 10; }
    assert a.month < 100 && b.month < 100 && a.day < 100 && b.day < 100;
    PaddedOrder(a.month, b.month, 2);
    PaddedOrder(a.day, b.day, 2);
  }

  /** The days of the kept files in the order `sorted(files_by_date.items())` visits them:
      every day of the dictionary once. */
  function WriteOrder(kept: seq<Stamped>): (r: seq<string>)
    ensures forall k :: k in r <==> k in DayOrder(kept, DayKey)
    ensures |r| == |DayOrder(kept, DayKey)|
  {
    SortStringsMembers(DayOrder(kept, DayKey));
    SortStrings(DayOrder(kept, DayKey))
  }

  /** Files on different days of the dictionary are written in calendar order: the days are
      visited in strictly ascending text order, and the files of an earlier day fall on an
      earlier calendar day. */
  lemma MergedDaysInOrder(kept: seq<Stamped>)
    ensures StrictlyAscending(WriteOrder(kept))
    ensures var keys := WriteOrder(kept);
      forall i, j, x, y ::
        (0 <= i < j < |keys| && x in DayGroups(kept, DayKey)[keys[i]] && y in DayGroups(kept, DayKey)[keys[j]])
        ==> EarlierDay(x.time, y.time)
  {
    var keys := WriteOrder(kept);
    DayOrderSpec(kept, DayKey, "");
    SortStringsStrict(DayOrder(kept, DayKey));
    forall i, j, x, y | 0 <= i < j < |keys| && x in DayGroups(kept, DayKey)[keys[i]]
        && y in DayGroups(kept, DayKey)[keys[j]]
      ensures EarlierDay(x.time, y.time)
    {
      ExactlyOneGroup(kept, DayKey, x, keys[i]);
      ExactlyOneGroup(kept, DayKey, y, keys[j]);
      DayKeyOrder(x.time, y.time);
    }
  }

  // ---------------------------------------------------------------------------------------
  // The merge runs (`merge_markdown_by_date`, `merge_pdfs_by_date`)
  // ---------------------------------------------------------------------------------------

  /** How a merge run ends. */
  datatype MergeRun<T> =
    | NoLibrary                             // PyPDF is not installed
    | NoFiles                               // no file left after the exclusion filter
    | RangeOverflow                         // `_get_time_cutoff` raised OverflowError
    | NothingInRange(skipped: nat)          // no file inside the time range
    | Merged(skipped: nat, outputs: seq<T>) // the day files, in the order they are written

  /** A merged PDF written for one day: where, and the source PDFs appended to it, in order. */
  datatype DayPdf = DayPdf(path: string, parts: seq<string>)

  /** The cutoff `_group_files_by_date` compares with. */
  function CutoffMoment(c: Cutoff): (r: Option<Moment>)
    ensures r.Some? <==> c.Since?
    ensures r.Some? ==> r.value == c.moment
  {
    if c.Since? then Some(c.moment) else None
  }

  /** `_extract_date_from_file`, with `other` standing for its strategies after the file
      name. */
  function DateOf(other: string -> Moment): string -> Moment
  {
    p => FileDate(p, other)
  }

  /** The markdown files written for the days `keys`, in that order. */
  function NoteFiles(outDir: string, keys: seq<string>, groups: map<string, seq<Stamped>>,
                     texts: string -> Option<string>): (r: seq<DayNote>)
    requires forall i :: 0 <= i < |keys| ==> keys[i] in groups
    ensures |r| == |keys|
  {
    if keys == [] then []
    else
      var k := keys[|keys| - 1];
      NoteFiles(outDir, keys[..|keys| - 1], groups, texts)
        + [DayNote(JoinPath(outDir, k + ".md"), Join(DayLines(k, groups[k], texts), "\n"))]
  }

  /** The `i`-th markdown file is `{key}.md` of the `i`-th day, holding that day's lines. */
  lemma {:induction false} NoteFilesAt(outDir: string, keys: seq<string>, groups: map<string, seq<Stamped>>,
                                       texts: string -> Option<string>, i: nat)
    requires forall i :: 0 <= i < |keys| ==> keys[i] in groups
    requires i < |keys|
    ensures NoteFiles(outDir, keys, groups, texts)[i]
      == DayNote(JoinPath(outDir, keys[i] + ".md"), Join(DayLines(keys[i], groups[keys[i]], texts), "\n"))
  {
    if i < |keys| - 1 {
      NoteFilesAt(outDir, keys[..|keys| - 1], groups, texts, i);
    }
  }

  /** The source PDFs `merger.append` accepts, in group order; `appendOk` stands for
      whether appending a file succeeds. */
  function Appended(files: seq<Stamped>, appendOk: string -> bool): (r: seq<string>)
    ensures |r| <= |files|
  {
    if files == [] then []
    else
      var f := files[|files| - 1];
      Appended(files[..|files| - 1], appendOk) + (if appendOk(f.path) then [f.path] else [])
  }

  /** A PDF is in the merged file exactly when it belongs to the day and appending it
      succeeded; when every append succeeds, all of the day's files are merged in order. */
  lemma {:induction false} AppendedSpec(files: seq<Stamped>, appendOk: string -> bool, p: string)
    ensures p in Appended(files, appendOk) <==> appendOk(p) && exists x :: x in files && x.path == p
    ensures (forall i :: 0 <= i < |files| ==> appendOk(files[i].path)) ==>
      |Appended(files, appendOk)| == |files|
      && forall i :: 0 <= i < |files| ==> Appended(files, appendOk)[i] == files[i].path
  {
    if files != [] {
      var init := files[..|files| - 1];
      var f := files[|files| - 1];
      AppendedSpec(init, appendOk, p);
      LastSplit(files);
      if p in Appended(files, appendOk) && p !in Appended(init, appendOk) {
        assert p == f.path && f in files;
      }
      if forall i :: 0 <= i < |files| ==> appendOk(files[i].path) {
        assert forall i :: 0 <= i < |init| ==> appendOk(init[i].path) by {
          forall i | 0 <= i < |init| ensures appendOk(init[i].path) {
            assert init[i] == files[i];
          }
        }
        var r := Appended(files, appendOk);
        assert r == Appended(init, appendOk) + [f.path];
        forall i | 0 <= i < |files| ensures r[i] == files[i].path {
          if i < |init| {
            assert files[i] == init[i];
          }
        }
      }
    }
  }

  /** The merged PDFs written for the days `keys`, in that order. */
  function PdfFiles(outDir: string, keys: seq<string>, groups: map<string, seq<Stamped>>,
                    appendOk: string -> bool): (r: seq<DayPdf>)
    requires forall i :: 0 <= i < |keys| ==> keys[i] in groups
    ensures |r| == |keys|
  {
    if keys == [] then []
    else
      var k := keys[|keys| - 1];
      PdfFiles(outDir, keys[..|keys| - 1], groups, appendOk)
        + [DayPdf(JoinPath(outDir, k + ".pdf"), Appended(groups[k], appendOk))]
  }

  /** The `i`-th merged PDF is `{key}.pdf` of the `i`-th day, made of that day's files. */
  lemma {:induction false} PdfFilesAt(outDir: string, keys: seq<string>, groups: map<string, seq<Stamped>>,
                                      appendOk: string -> bool, i: nat)
    requires forall i :: 0 <= i < |keys| ==> keys[i] in groups
    requires i < |keys|
    ensures PdfFiles(outDir, keys, groups, appendOk)[i]
      == DayPdf(JoinPath(outDir, keys[i] + ".pdf"), Appended(groups[keys[i]], appendOk))
  {
    if i < |keys| - 1 {
      PdfFilesAt(outDir, keys[..|keys| - 1], groups, appendOk, i);
    }
  }

  /** The `merger.append` loop of one day. */
  method AppendAll(files: seq<Stamped>, appendOk: string -> bool) returns (parts: seq<string>)
    ensures parts == Appended(files, appendOk)
  {
    parts := [];
    for i := 0 to |files|
      invariant parts == Appended(files[..i], appendOk)
    {
      PrefixStep(files, i);
      if appendOk(files[i].path) {
        parts := parts + [files[i].path];
      }
    }
    WholePrefix(files);
  }

  /** The loop over `sorted(files_by_date.items())` of `merge_markdown_by_date`. */
  method WriteNotes(outDir: string, keys: seq<string>, groups: map<string, seq<Stamped>>,
                    texts: string -> Option<string>)
    returns (outs: seq<DayNote>)
    requires forall i :: 0 <= i < |keys| ==> keys[i] in groups
    ensures outs == NoteFiles(outDir, keys, groups, texts)
  {
    outs := [];
    for i := 0 to |keys|
      invariant outs == NoteFiles(outDir, keys[..i], groups, texts)
    {
      PrefixStep(keys, i);
      var k := keys[i];
      var note := MarkdownFor(outDir, k, groups[k], texts);
      outs := outs + [note];
    }
    WholePrefix(keys);
  }

  /** The loop over `sorted(files_by_date.items())` of `merge_pdfs_by_date`. */
  method WritePdfs(outDir: string, keys: seq<string>, groups: map<string, seq<Stamped>>,
                   appendOk: string -> bool)
    returns (outs: seq<DayPdf>)
    requires forall i :: 0 <= i < |keys| ==> keys[i] in groups
    ensures outs == PdfFiles(outDir, keys, groups, appendOk)
  {
    outs := [];
    for i := 0 to |keys|
      invariant outs == PdfFiles(outDir, keys[..i], groups, appendOk)
    {
      PrefixStep(keys, i);
      var k := keys[i];
      var parts := AppendAll(groups[k], appendOk);
      outs := outs + [DayPdf(JoinPath(outDir, k + ".pdf"), parts)];
    }
    WholePrefix(keys);
  }

  /** The files of `candidates` inside the time range, with their dates. */
  function InRange(candidates: seq<string>, cutoff: Cutoff, other: string -> Moment): seq<Stamped>
  {
    Kept(Stamps(candidates, DateOf(other)), CutoffMoment(cutoff))
  }

  /** The grouping step shared by both merges. */
  method GroupCandidates(candidates: seq<string>, cutoff: Cutoff, other: string -> Moment)
    returns (keys: seq<string>, groups: map<string, seq<Stamped>>, skipped: nat)
    requires !cutoff.Overflow?
    ensures skipped + |InRange(candidates, cutoff, other)| == |candidates|
    ensures keys == WriteOrder(InRange(candidates, cutoff, other))
    ensures groups == DayGroups(InRange(candidates, cutoff, other), DayKey)
    ensures forall i :: 0 <= i < |keys| ==> keys[i] in groups
  {
    var order;
    order, groups, skipped := GroupFilesByDate(candidates, CutoffMoment(cutoff), DateOf(other), DayKey);
    ghost var kept := InRange(candidates, cutoff, other);
    keys := SortStrings(order);
    SortStringsSpec(order);
    forall i | 0 <= i < |keys| ensures keys[i] in groups {
      assert keys[i] in multiset(order);
    }
  }

  /** `merge_markdown_by_date(directory)`: `notes` is what the recursive `.note` glob of
      `directory` found, `now` is `datetime.now()`, `other` the date strategies after the file name and
      `texts` the text extraction of `_extract_text_from_note`. */
  method MergeMarkdownByDate(config: MergeConfig, directory: string, notes: seq<string>, now: Moment,
                             other: string -> Moment, texts: string -> Option<string>)
    returns (run: MergeRun<DayNote>)
    ensures run.NoFiles? <==> NoteCandidates(config, notes) == []
    ensures run.RangeOverflow? <==>
      NoteCandidates(config, notes) != [] && TimeCutoff(config.timeRange, now).Overflow?
    ensures !run.NoLibrary?
    ensures var kept := InRange(NoteCandidates(config, notes), TimeCutoff(config.timeRange, now), other);
      && (run.NothingInRange? ==> kept == [] && run.skipped == |NoteCandidates(config, notes)| > 0)
      && (run.Merged? ==>
            && kept != []
            && run.skipped + |kept| == |NoteCandidates(config, notes)|
            && run.outputs == NoteFiles(JoinPath(directory, config.markdownOutputDir), WriteOrder(kept),
                                        DayGroups(kept, DayKey), texts))
  {
    var candidates := NoteCandidates(config, notes);
    if candidates == [] {
      return NoFiles;
    }
    var cutoff := TimeCutoff(config.timeRange, now);
    if cutoff.Overflow? {
      return RangeOverflow;
    }
    var keys, groups, skipped := GroupCandidates(candidates, cutoff, other);
    if keys == [] {
      DayOrderSpec(InRange(candidates, cutoff, other), DayKey, "");
      return NothingInRange(skipped);
    }
    var outs := WriteNotes(JoinPath(directory, config.markdownOutputDir), keys, groups, texts);
    run := Merged(skipped, outs);
  }

  /** `merge_pdfs_by_date(directory)`: `pypdf` says whether PyPDF is installed, `pdfs` is
      what the recursive `.pdf` glob of `directory` found, `now` is `datetime.now()`,
      `other` the date strategies after the file name and `appendOk` whether
      `merger.append` accepts a file. */
  method MergePdfsByDate(config: MergeConfig, directory: string, pdfs: seq<string>, now: Moment,
                         other: string -> Moment, pypdf: bool, appendOk: string -> bool)
    returns (run: MergeRun<DayPdf>)
    ensures run.NoLibrary? <==> !pypdf
    ensures run.NoFiles? <==> pypdf && PdfCandidates(config, pdfs) == []
    ensures run.RangeOverflow? <==>
      pypdf && PdfCandidates(config, pdfs) != [] && TimeCutoff(config.timeRange, now).Overflow?
    ensures var kept := InRange(PdfCandidates(config, pdfs), TimeCutoff(config.timeRange, now), other);
      && (run.NothingInRange? ==> kept == [] && run.skipped == |PdfCandidates(config, pdfs)| > 0)
      && (run.Merged? ==>
            && kept != []
            && run.skipped + |kept| == |PdfCandidates(config, pdfs)|
            && run.outputs == PdfFiles(JoinPath(directory, config.pdfOutputDir), WriteOrder(kept),
                                       DayGroups(kept, DayKey), appendOk))
  {
    if !pypdf {
      return NoLibrary;
    }
    var candidates := PdfCandidates(config, pdfs);
    if candidates == [] {
      return NoFiles;
    }
    var cutoff := TimeCutoff(config.timeRange, now);
    if cutoff.Overflow? {
      return RangeOverflow;
    }
    var keys, groups, skipped := GroupCandidates(candidates, cutoff, other);
    if keys == [] {
      DayOrderSpec(InRange(candidates, cutoff, other), DayKey, "");
      return NothingInRange(skipped);
    }
    var outs := WritePdfs(JoinPath(directory, config.pdfOutputDir), keys, groups, appendOk);
    run := Merged(skipped, outs);
  }
}
