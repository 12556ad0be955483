/**
 * The file handlers: importing a CSV or XLSX file (dispatch on the file
 * extension, header validation, then one record per row) and exporting
 * the records as a CSV or XLSX table under a user-chosen file name.
 * Reading, parsing and writing the files is done by libraries outside this
 * model; the parser is a parameter.
 */
module Transfer {
  import opened Wrappers
  import opened JsString
  import opened Objects
  import opened HeaderMap
  import opened Subjects

  /** The two file formats the page reads and writes. */
  datatype Format = Csv | Xlsx

  /** `file.name.toLowerCase().split('.').pop()` */
  function Extension(name: string): string {
    AfterLast(ToLower(name), '.')
  }

  /** `parseFile`'s dispatch: "csv" is read as CSV, "xlsx" and "xls" as XLSX, anything else is refused. */
  function FormatOf(name: string): (r: Option<Format>)
    ensures r == Some(Csv) <==> Extension(name) == "csv"
    ensures r == Some(Xlsx) <==> Extension(name) == "xlsx" || Extension(name) == "xls"
    ensures r == None <==> Extension(name) !in ["csv", "xlsx", "xls"]
  {
    var ext := Extension(name);
    if ext == "csv" then Some(Csv)
    else if ext == "xlsx" || ext == "xls" then Some(Xlsx)
    else None
  }

  /** The suffix an export of `format` gets. */
  function Suffix(format: Format): string {
    match format
    case Csv => ".csv"
    case Xlsx => ".xlsx"
  }

  /** `if (!filename.endsWith(ext)) filename += ext` */
  function WithExtension(name: string, ext: string): (r: string)
    ensures EndsWith(r, ext)
    ensures EndsWith(name, ext) ==> r == name
    ensures !EndsWith(name, ext) ==> r == name + ext
  {
    if EndsWith(name, ext) then name
    else
      var r := name + ext;
      assert r[|r| - |ext|..] == ext;
      r
  }

  /** Adding the suffix twice is adding it once. */
  lemma WithExtensionIdempotent(name: string, ext: string)
    ensures WithExtension(WithExtension(name, ext), ext) == WithExtension(name, ext)
  {
  }

  lemma ToLowerAppend(a: string, b: string)
    ensures ToLower(a + b) == ToLower(a) + ToLower(b)
  {
    var l, r := ToLower(a + b), ToLower(a) + ToLower(b);
    forall i | 0 <= i < |l| ensures l[i] == r[i] {
      if i < |a| { assert (a + b)[i] == a[i]; } else { assert (a + b)[i] == b[i - |a|]; }
    }
  }

  /** A name made of a stem, a dot and a lower-case, dot-free extension has that extension. */
  lemma ExtensionOfName(stem: string, ext: string)
    requires '.' !in ext && ToLower(ext) == ext
    ensures Extension(stem + ['.'] + ext) == ext
  {
    ToLowerAppend(stem + ['.'], ext);
    ToLowerAppend(stem, ['.']);
    assert ToLower(['.']) == ['.'];
    AfterLastOfSuffix(ToLower(stem), '.', ext);
  }

  /** The suffix of each format is a dot and a lower-case, dot-free extension. */
  lemma SuffixShape(format: Format)
    ensures |Suffix(format)| > 0 && Suffix(format)[0] == '.'
    ensures var ext := Suffix(format)[1..]; '.' !in ext && ToLower(ext) == ext
  {
    var ext := Suffix(format)[1..];
    assert ext == if format.Csv? then "csv" else "xlsx";
    assert ToLower(ext) == ext;
  }

  /** A file the page exports is read back in the format it was written in. */
  lemma ExportedNameReimports(name: string, format: Format)
    ensures FormatOf(WithExtension(name, Suffix(format))) == Some(format)
  {
    var suffix := Suffix(format);
    var full := WithExtension(name, suffix);
    SuffixShape(format);
    var ext := suffix[1..];
    var stem := full[..|full| - |suffix|];
    assert full == stem + ['.'] + ext;
    ExtensionOfName(stem, ext);
  }

  /** What `parseFile` hands back: the header row and the data rows. */
  datatype Parsed = Parsed(headers: seq<string>, rows: seq<Obj>)

  /** How an import attempt ends, as the page reports it. */
  datatype ImportOutcome =
    | NoFile
    | Imported
    | MissingColumns(missing: seq<string>)
    | Failed

  /**
   * `handleFileImport`. `fileName` is the chosen file's name, if any;
   * `parse` reads that file in the given format (the work of the CSV and
   * XLSX libraries), failing on unreadable input. Without a file nothing
   * happens; an unknown extension or a parse error fails; a file missing
   * template columns is refused with their list; only a valid file
   * replaces the records, one per row in row order, and selects the first.
   */
  method HandleFileImport(fileName: Option<string>, parse: Format -> Result<Parsed, string>, st: AppState)
    returns (next: AppState, outcome: ImportOutcome)
    ensures fileName.None? ==> next == st && outcome == NoFile
    ensures fileName.Some? && FormatOf(fileName.value).None? ==> next == st && outcome == Failed
    ensures fileName.Some? && FormatOf(fileName.value).Some? ==>
      match parse(FormatOf(fileName.value).value)
      case Failure(_) => next == st && outcome == Failed
      case Success(p) =>
        var v := ValidateHeaders(p.headers);
        if v.ok then next == AppState(ImportAll(p.rows, HeaderTable), 0) && outcome == Imported
        else next == st && outcome == MissingColumns(v.missing)
  {
    if fileName.None? {
      return st, NoFile;
    }
    var format := FormatOf(fileName.value);
    if format.None? {
      return st, Failed;
    }
    var parsed := parse(format.value);
    if parsed.Failure? {
      return st, Failed;
    }
    var v := ValidateHeaders(parsed.value.headers);
    if !v.ok {
      return st, MissingColumns(v.missing);
    }
    var records := ImportRows(parsed.value.rows, HeaderTable);
    next := AppState(records, 0);
    outcome := Imported;
  }

  /** What an export writes: the file name, its format, the header row and the data rows. */
  datatype ExportJob = ExportJob(fileName: string, format: Format, headers: seq<string>, rows: seq<Obj>)

  /**
   * `handleExport` and `handleExportXLSX`. `answer` is what the name
   * prompt returned (`None` when cancelled). A cancelled or empty answer
   * exports nothing; otherwise the name gets the format's suffix unless it
   * already ends with it, and the table has the template headers and one
   * row per record.
   */
  method HandleExport(answer: Option<string>, format: Format, subjects: seq<Obj>) returns (job: Option<ExportJob>)
    ensures answer.None? || answer == Some("") ==> job.None?
    ensures answer.Some? && answer.value != "" ==>
      job == Some(ExportJob(WithExtension(answer.value, Suffix(format)), format, RequiredHeaders, ExportAll(subjects, HeaderTable)))
  {
    if answer.None? || answer.value == "" {
      return None;
    }
    var filename := answer.value;
    if !EndsWith(filename, Suffix(format)) {
      filename := filename + Suffix(format);
    }
    var rows := ExportRows(subjects, HeaderTable);
    job := Some(ExportJob(filename, format, RequiredHeaders, rows));
  }

  /**
   * Every exported table has one row per record, each row with exactly the
   * template headers in template order, and reading such a row back
   * restores every template key with the record's value or "".
   */
  lemma ExportTableSpec(subjects: seq<Obj>)
    ensures |ExportAll(subjects, HeaderTable)| == |subjects|
    ensures forall i :: 0 <= i < |subjects| ==> ExportAll(subjects, HeaderTable)[i].keys == RequiredHeaders
    ensures forall i :: 0 <= i < |subjects| ==>
      ImportMapping(ExportAll(subjects, HeaderTable)[i]).keys == TableKeys
  {
    ExportAllIndex(subjects, HeaderTable);
    forall i | 0 <= i < |subjects|
      ensures ExportAll(subjects, HeaderTable)[i].keys == RequiredHeaders
      ensures ImportMapping(ExportAll(subjects, HeaderTable)[i]).keys == TableKeys
    {
      ExportMappingSpec(subjects[i]);
      RoundTrip(subjects[i]);
    }
  }

  /**
   * Importing an exported file gives back the same number of records, in
   * order, each holding every template key with the original value, or ""
   * where the original had none.
   */
  lemma ExportThenImport(subjects: seq<Obj>)
    ensures var back := ImportAll(ExportAll(subjects, HeaderTable), HeaderTable);
      && |back| == |subjects|
      && forall i, e :: 0 <= i < |subjects| && e in HeaderTable ==>
           Get(back[i], e.key) == Some(ValueOr(subjects[i], e.key))
  {
    var rows := ExportAll(subjects, HeaderTable);
    ExportAllIndex(subjects, HeaderTable);
    ImportAllIndex(rows, HeaderTable);
    forall i, e | 0 <= i < |subjects| && e in HeaderTable
      ensures Get(ImportAll(rows, HeaderTable)[i], e.key) == Some(ValueOr(subjects[i], e.key))
    {
      RoundTrip(subjects[i]);
    }
  }
}
