/**
 * The command-line tool: for every workbook that matches a glob pattern,
 * extract the values of one item and save them as (file, item, value) rows
 * of a CSV file.  The glob, the workbook reader, the console and the CSV
 * writer are outside the model: the batch takes the matched paths with what
 * loading each one gave, and returns what it would print and save.
 */
module ExtractExcelValues {
  import opened Extraction

  /** The console line printed for a workbook that could not be read: its path and the error text. */
  datatype Notice = ReadFailed(filepath: string, error: string)

  /** How `main` ends: no file matched, nothing was extracted, or these records were saved as CSV. */
  datatype Outcome = NoMatchingFiles | NothingExtracted | Saved(records: seq<Record>)

  /** `os.path.basename` on POSIX: the part of the path after its last '/'. */
  function Basename(path: string): string
  {
    if path == [] then []
    else if path[|path| - 1] == '/' then []
    else Basename(path[..|path| - 1]) + [path[|path| - 1]]
  }

  /**
   * The base name is the longest suffix of the path without a '/': it is a
   * suffix, it holds no '/', and the character just before it is a '/'.
   */
  lemma BasenameIsLastComponent(path: string)
    ensures |Basename(path)| <= |path|
    ensures path[|path| - |Basename(path)|..] == Basename(path)
    ensures '/' !in Basename(path)
    ensures |Basename(path)| < |path| ==> path[|path| - |Basename(path)| - 1] == '/'
  {
    BasenameSuffix(path);
    BasenameNoSlash(path);
  }

  lemma {:induction false} BasenameSuffix(path: string)
    ensures |Basename(path)| <= |path|
    ensures path[|path| - |Basename(path)|..] == Basename(path)
    ensures |Basename(path)| < |path| ==> path[|path| - |Basename(path)| - 1] == '/'
  {
    if path != [] && path[|path| - 1] != '/' {
      var n := |path|;
      var init := path[..n - 1];
      var last := path[n - 1];
      BasenameSuffix(init);
      var b := Basename(init);
      assert Basename(path) == b + [last];
      var start := n - 1 - |b|;
      assert path[start..] == path[start..n - 1] + [last];
      assert path[start..n - 1] == init[start..];
      if |b| + 1 < n {
        assert path[start - 1] == init[start - 1];
      }
    }
  }

  lemma {:induction false} BasenameNoSlash(path: string)
    ensures '/' !in Basename(path)
  {
    if path != [] && path[|path| - 1] != '/' {
      BasenameNoSlash(path[..|path| - 1]);
    }
  }

  /** A name without a '/' is its own base name. */
  lemma {:induction false} BasenameOfPlainName(name: string)
    requires '/' !in name
    ensures Basename(name) == name
  {
    if name != [] {
      var init := name[..|name| - 1];
      assert '/' !in init by {
        forall k | 0 <= k < |init| ensures init[k] != '/' {
          assert init[k] == name[k];
        }
      }
      BasenameOfPlainName(init);
      assert name == init + [name[|name| - 1]];
    }
  }

  /** One notice per file that failed to load, in the order of the files. */
  function LoadNotices(files: seq<Source>): seq<Notice>
  {
    if files == [] then []
    else
      var last := files[|files| - 1];
      LoadNotices(files[..|files| - 1])
        + (match last.content case LoadError(e) => [ReadFailed(last.name, e)] case Sheet(_) => [])
  }

  /** Every notice names a file of the batch and repeats the error its loading raised. */
  lemma {:induction false} NoticesNameFailedFiles(files: seq<Source>, n: Notice)
    requires n in LoadNotices(files)
    ensures exists i :: 0 <= i < |files| && files[i].name == n.filepath && files[i].content == LoadError(n.error)
  {
    var init := files[..|files| - 1];
    if n in LoadNotices(init) {
      NoticesNameFailedFiles(init, n);
      var i :| 0 <= i < |init| && init[i].name == n.filepath && init[i].content == LoadError(n.error);
      assert files[i] == init[i];
    } else {
      assert files[|files| - 1].name == n.filepath;
    }
  }

  /** A batch in which every file loads prints no notice. */
  lemma {:induction false} NoFailureNoNotice(files: seq<Source>)
    requires forall i :: 0 <= i < |files| ==> files[i].content.Sheet?
    ensures LoadNotices(files) == []
  {
    if files != [] {
      NoFailureNoNotice(files[..|files| - 1]);
    }
  }

  /**
   * `extract_values_from_file(filepath, item_name)`: the extracted values of
   * a loaded sheet, or no values and one printed notice when loading failed.
   */
  method ExtractValuesFromFile(filepath: string, loaded: Loaded, itemName: string, render: Cell -> string)
    returns (values: seq<Cell>, notices: seq<Notice>)
    ensures values == FileValues(loaded, itemName, render)
    ensures loaded.LoadError? ==> values == [] && notices == [ReadFailed(filepath, loaded.message)]
    ensures loaded.Sheet? ==> notices == []
  {
    values := [];
    match loaded {
      case LoadError(e) =>
        notices := [ReadFailed(filepath, e)];
        return;
      case Sheet(df) =>
        notices := [];
        values := ScanFrame(df, itemName, render);
    }
  }

  /** The records `main` builds from the matched files: values tagged with the file's base name. */
  function BatchRecords(files: seq<Source>, itemName: string, render: Cell -> string): seq<Record>
  {
    Records(files, itemName, Basename, ValuesOf(itemName, render))
  }

  /**
   * `main` after argument parsing: `files` are the paths the glob matched,
   * each with what loading it gave.  With no file it reports that nothing
   * matched; otherwise it extracts every file in turn, printing a notice for
   * each unreadable one, and saves the records unless there are none.
   */
  method RunBatch(files: seq<Source>, itemName: string, render: Cell -> string)
    returns (outcome: Outcome, notices: seq<Notice>)
    ensures files == [] ==> outcome == NoMatchingFiles && notices == []
    ensures files != [] ==>
      var records := BatchRecords(files, itemName, render);
      outcome == (if records == [] then NothingExtracted else Saved(records))
    ensures notices == LoadNotices(files)
  {
    notices := [];
    if |files| == 0 {
      outcome := NoMatchingFiles;
      return;
    }
    var results: seq<Record> := [];
    for i := 0 to |files|
      invariant results == BatchRecords(files[..i], itemName, render)
      invariant notices == LoadNotices(files[..i])
    {
      var file := files[i];
      assert files[..i + 1][..i] == files[..i];
      var vals, fileNotices := ExtractValuesFromFile(file.name, file.content, itemName, render);
      notices := notices + fileNotices;
      results := AppendRecords(results, Basename(file.name), itemName, vals);
    }
    assert files[..|files|] == files;
    if |results| > 0 {
      outcome := Saved(results);
    } else {
      outcome := NothingExtracted;
    }
  }

  /** The saved records are exactly one per value extracted, over all files. */
  lemma SavedRecordsCount(files: seq<Source>, itemName: string, render: Cell -> string)
    ensures |BatchRecords(files, itemName, render)| == ValueCount(files, ValuesOf(itemName, render))
  {
    RecordsCount(files, itemName, Basename, ValuesOf(itemName, render));
  }
}
