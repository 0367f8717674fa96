/**
 * The upload web page: the user uploads workbooks, types an item name and
 * presses the extract button; the page shows the (file, item, value) records
 * as a table with a CSV download, or a warning when none were found.  The
 * widgets are outside the model: the button state, the uploads with what
 * loading each one gave, and the item name are inputs, and the page's
 * warnings and final display are outputs.
 */
module ExtractExcelWebapp {
  import opened Extraction
  import ExtractExcelValues

  /** A `st.warning` message: a workbook could not be read, or no data was found. */
  datatype Warning = ReadFailed(error: string) | NoDataFound

  /** What the page shows after the script runs. */
  datatype Display = NothingShown | ResultTable(records: seq<Record>)

  /**
   * `extract_values_from_file(file, item_name)` of the web page: the same
   * values as the command-line tool, with an unreadable file reported as a
   * warning on the page instead of a console line.
   */
  method ExtractValuesFromFile(file: Loaded, itemName: string, render: Cell -> string)
    returns (values: seq<Cell>, warnings: seq<Warning>)
    ensures values == FileValues(file, itemName, render)
    ensures file.LoadError? ==> values == [] && warnings == [ReadFailed(file.message)]
    ensures file.Sheet? ==> warnings == []
  {
    values := [];
    match file {
      case LoadError(e) =>
        warnings := [ReadFailed(e)];
        return;
      case Sheet(df) =>
        warnings := [];
        values := ScanFrame(df, itemName, render);
    }
  }

  /**
   * The two copies of `extract_values_from_file` return the same values for
   * every sheet and item; they differ only in how a load failure is
   * reported, and both report it exactly once with the same error text.
   */
  method SameAsCommandLine(path: string, loaded: Loaded, itemName: string, render: Cell -> string)
    returns (cliValues: seq<Cell>, webValues: seq<Cell>, notices: seq<ExtractExcelValues.Notice>, warnings: seq<Warning>)
    ensures cliValues == webValues
    ensures |notices| == |warnings| <= 1
    ensures forall k :: 0 <= k < |notices| ==> warnings[k] == ReadFailed(notices[k].error) && notices[k].filepath == path
  {
    cliValues, notices := ExtractExcelValues.ExtractValuesFromFile(path, loaded, itemName, render);
    webValues, warnings := ExtractValuesFromFile(loaded, itemName, render);
  }

  /** One warning per upload that failed to load, in upload order. */
  function LoadWarnings(uploads: seq<Source>): seq<Warning>
  {
    if uploads == [] then []
    else
      var last := uploads[|uploads| - 1];
      LoadWarnings(uploads[..|uploads| - 1])
        + (match last.content case LoadError(e) => [ReadFailed(e)] case Sheet(_) => [])
  }

  /** A failed upload adds exactly one warning, and the other uploads are unaffected by it. */
  lemma {:induction false} FailedUploadOneWarning(before: seq<Source>, failed: Source, after: seq<Source>)
    requires failed.content.LoadError?
    ensures LoadWarnings(before + [failed] + after) == LoadWarnings(before) + [ReadFailed(failed.content.message)] + LoadWarnings(after)
  {
    LoadWarningsAppend(before + [failed], after);
    LoadWarningsAppend(before, [failed]);
    assert LoadWarnings([failed]) == [] + [ReadFailed(failed.content.message)];
  }

  lemma {:induction false} LoadWarningsAppend(a: seq<Source>, b: seq<Source>)
    ensures LoadWarnings(a + b) == LoadWarnings(a) + LoadWarnings(b)
  {
    if b == [] {
      assert a + b == a;
    } else {
      var init := b[..|b| - 1];
      var last := b[|b| - 1];
      var tail := match last.content case LoadError(e) => [ReadFailed(e)] case Sheet(_) => [];
      LoadWarningsAppend(a, init);
      assert (a + b)[..|a + b| - 1] == a + init;
      assert LoadWarnings(a + b) == LoadWarnings(a + init) + tail;
      assert LoadWarnings(b) == LoadWarnings(init) + tail;
    }
  }

  /** The records the page builds: values tagged with the upload's own file name. */
  function PageRecords(uploads: seq<Source>, itemName: string, render: Cell -> string): seq<Record>
  {
    Records(uploads, itemName, name => name, ValuesOf(itemName, render))
  }

  /**
   * The script body guarded by `if extract_btn and uploaded_files and
   * item_name`: nothing happens unless the button was pressed, at least one
   * file is uploaded and the item name is not empty.  Otherwise every upload
   * is extracted in turn, an unreadable one adding a warning; the records are
   * shown as a table, or, when there are none, a "not found" warning is shown.
   */
  method OnExtract(extractBtn: bool, uploadedFiles: seq<Source>, itemName: string, render: Cell -> string)
    returns (display: Display, warnings: seq<Warning>)
    ensures !(extractBtn && uploadedFiles != [] && itemName != []) ==> display == NothingShown && warnings == []
    ensures extractBtn && uploadedFiles != [] && itemName != [] ==>
      var records := PageRecords(uploadedFiles, itemName, render);
      display == (if records == [] then NothingShown else ResultTable(records)) &&
      warnings == LoadWarnings(uploadedFiles) + (if records == [] then [NoDataFound] else [])
  {
    display := NothingShown;
    warnings := [];
    if !(extractBtn && |uploadedFiles| > 0 && |itemName| > 0) {
      return;
    }
    var results: seq<Record> := [];
    for i := 0 to |uploadedFiles|
      invariant results == PageRecords(uploadedFiles[..i], itemName, render)
      invariant warnings == LoadWarnings(uploadedFiles[..i])
    {
      var uploadedFile := uploadedFiles[i];
      assert uploadedFiles[..i + 1][..i] == uploadedFiles[..i];
      var vals, fileWarnings := ExtractValuesFromFile(uploadedFile.content, itemName, render);
      warnings := warnings + fileWarnings;
      results := AppendRecords(results, uploadedFile.name, itemName, vals);
    }
    assert uploadedFiles[..|uploadedFiles|] == uploadedFiles;
    if |results| > 0 {
      display := ResultTable(results);
    } else {
      warnings := warnings + [NoDataFound];
    }
  }

  /**
   * When every uploaded name is a bare file name, the page shows the same
   * records the command-line tool saves for the same workbooks.
   */
  lemma SameRecordsAsCommandLine(uploads: seq<Source>, itemName: string, render: Cell -> string)
    requires forall i :: 0 <= i < |uploads| ==> '/' !in uploads[i].name
    ensures PageRecords(uploads, itemName, render) == ExtractExcelValues.BatchRecords(uploads, itemName, render)
  {
    forall i | 0 <= i < |uploads|
      ensures ExtractExcelValues.Basename(uploads[i].name) == uploads[i].name
    {
      ExtractExcelValues.BasenameOfPlainName(uploads[i].name);
    }
    RecordsSameLabels(uploads, itemName, name => name, ExtractExcelValues.Basename, ValuesOf(itemName, render));
  }
}
