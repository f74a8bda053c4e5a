/** `combine_xlsx_to_csv`: discovery, validation, and the header-once,
    append-rows conversion loop. */
module Combiner {
  import opened Cells
  import opened Sanitize
  import opened Headers
  import opened Discovery
  import opened Naming
  import opened Counter

  /** How a run ends. `StructureMismatch`: the headers differ and nothing is
      written. `NoInputFiles`: no workbook was found, and the run stops
      before the output file is opened. `Written`: the output file's path and
      the rows written to it, each a sequence of cells. */
  datatype Outcome =
    | StructureMismatch
    | NoInputFiles
    | Written(path: string, rows: seq<seq<Cell>>)

  /** The output file, opened once and appended to by every frame written. */
  class CsvStream {
    const path: string
    var rows: seq<seq<Cell>>

    /** Opening for writing creates or truncates the file. */
    constructor Open(path: string)
      ensures this.path == path && rows == []
    {
      this.path := path;
      rows := [];
    }

    /** Writing one frame: its column names first when `withHeader` is set,
        then its data rows. */
    method WriteFrame(header: seq<Cell>, data: seq<seq<Cell>>, withHeader: bool)
      modifies this
      ensures rows == old(rows) + (if withHeader then [header] else []) + data
    {
      if withHeader {
        rows := rows + [header];
      }
      rows := rows + data;
    }
  }

  /** `applymap(sanitize_value)`: sanitises every data cell of a sheet. */
  function SanitizeRows(rows: seq<seq<Cell>>): seq<seq<Cell>>
  {
    seq(|rows|, i requires 0 <= i < |rows| =>
      seq(|rows[i]|, j requires 0 <= j < |rows[i]| => SanitizeValue(rows[i][j])))
  }

  /** The raw data rows of all workbooks, in file order. */
  function AllRows(books: seq<Workbook>): seq<seq<Cell>>
  {
    if books == [] then [] else AllRows(books[..|books| - 1]) + books[|books| - 1].rows
  }

  /** The sanitised data rows of all workbooks, in file order, as the loop writes them. */
  function DataRows(books: seq<Workbook>): seq<seq<Cell>>
  {
    if books == [] then [] else DataRows(books[..|books| - 1]) + SanitizeRows(books[|books| - 1].rows)
  }

  /** The number of data rows over all workbooks. */
  function TotalRows(books: seq<Workbook>): nat
  {
    if books == [] then 0 else TotalRows(books[..|books| - 1]) + |books[|books| - 1].rows|
  }

  /** The output file's contents: the first workbook's column names once, then
      every data row of every workbook. */
  function CombinedOutput(books: seq<Workbook>): seq<seq<Cell>>
    requires books != []
  {
    [books[0].header] + DataRows(books)
  }

  /** The console counter for file `idx` of `total`: `idx` zero-padded, a slash, `total`. */
  function ProgressLabel(idx: nat, total: nat): string
  {
    PaddedCounter(idx, total) + "/" + NatToString(total)
  }

  /** The counters printed for a run over `total` files, in order. */
  function ProgressLabels(total: nat): (labels: seq<string>)
    ensures |labels| == total
  {
    seq(total, k requires 0 <= k < total => ProgressLabel(k + 1, total))
  }

  /** The paths `get_xlsx_files` finds in a listing. */
  function Discovered(inputDir: string, listing: seq<string>): seq<string>
  {
    JoinAll(inputDir, XlsxNames(listing))
  }

  /** The workbook behind each path. */
  function ReadAll(paths: seq<string>, read: string -> Workbook): (books: seq<Workbook>)
    ensures |books| == |paths|
  {
    seq(|paths|, i requires 0 <= i < |paths| => read(paths[i]))
  }

  /** A run. `listing` is the input directory's listing and `read` gives the
      first sheet of a file. Validation comes first; on success the output
      name is normalised and, with at least one file, the file is opened and
      every workbook is appended, the header only for the first. `progress`
      holds the counters printed per file. */
  method CombineXlsxToCsv(inputDir: string, listing: seq<string>, read: string -> Workbook,
                          outputDir: string, outputFilename: string)
    returns (outcome: Outcome, progress: seq<string>)
    ensures !HeadersMatch(HeaderList(Discovered(inputDir, listing), read)) ==>
              outcome == StructureMismatch && progress == []
    ensures HeadersMatch(HeaderList(Discovered(inputDir, listing), read)) && Discovered(inputDir, listing) == [] ==>
              outcome == NoInputFiles && progress == []
    ensures HeadersMatch(HeaderList(Discovered(inputDir, listing), read)) && Discovered(inputDir, listing) != [] ==>
              outcome == Written(Join(outputDir, CsvFileName(outputFilename)),
                                 CombinedOutput(ReadAll(Discovered(inputDir, listing), read)))
              && progress == ProgressLabels(|Discovered(inputDir, listing)|)
  {
    var fileList := GetXlsxFiles(inputDir, listing);
    var ok, _ := ValidateHeaders(fileList, read);
    if !ok {
      return StructureMismatch, [];
    }
    var outputFile := Join(outputDir, CsvFileName(outputFilename));
    var totalFiles := |fileList|;
    if totalFiles == 0 {
      // `max` over the empty list of name lengths fails before the file is opened.
      return NoInputFiles, [];
    }
    var csvFile := new CsvStream.Open(outputFile);
    progress := WriteWorkbooks(csvFile, fileList, read);
    outcome := Written(outputFile, csvFile.rows);
  }

  /** The `for idx` loop over the files: prints the counter, reads the
      workbook, sanitises its data cells and appends them to the open stream,
      with the column names only for the first file. */
  method WriteWorkbooks(csvFile: CsvStream, fileList: seq<string>, read: string -> Workbook)
    returns (progress: seq<string>)
    requires fileList != [] && csvFile.rows == []
    modifies csvFile
    ensures csvFile.rows == CombinedOutput(ReadAll(fileList, read))
    ensures progress == ProgressLabels(|fileList|)
  {
    ghost var books := ReadAll(fileList, read);
    var totalFiles := |fileList|;
    progress := [];
    for idx := 1 to totalFiles + 1
      invariant |progress| == idx - 1
      invariant forall k :: 0 <= k < idx - 1 ==> progress[k] == ProgressLabel(k + 1, totalFiles)
      invariant idx == 1 ==> csvFile.rows == []
      invariant idx > 1 ==> csvFile.rows == [books[0].header] + DataRows(books[..idx - 1])
    {
      progress := progress + [ProgressLabel(idx, totalFiles)];
      var excelData := read(fileList[idx - 1]);
      csvFile.WriteFrame(excelData.header, SanitizeRows(excelData.rows), idx == 1);
      assert books[..idx][..idx - 1] == books[..idx - 1];
    }
    assert books[..totalFiles] == books;
    assert progress == ProgressLabels(totalFiles);
  }

  /** Sanitising rows works on the two halves of a row list independently. */
  lemma SanitizeRowsConcat(a: seq<seq<Cell>>, b: seq<seq<Cell>>)
    ensures SanitizeRows(a + b) == SanitizeRows(a) + SanitizeRows(b)
  {
    assert forall i :: 0 <= i < |a + b| ==> SanitizeRows(a + b)[i] == (SanitizeRows(a) + SanitizeRows(b))[i];
  }

  /** The rows written after the header are the sanitised raw rows of all
      workbooks, in file order. */
  lemma {:induction false} DataRowsAreSanitizedRows(books: seq<Workbook>)
    ensures DataRows(books) == SanitizeRows(AllRows(books))
  {
    if books != [] {
      var init := books[..|books| - 1];
      DataRowsAreSanitizedRows(init);
      SanitizeRowsConcat(AllRows(init), books[|books| - 1].rows);
    }
  }

  /** The raw rows of all workbooks number the sum of their row counts. */
  lemma {:induction false} AllRowsLength(books: seq<Workbook>)
    ensures |AllRows(books)| == TotalRows(books)
  {
    if books != [] {
      AllRowsLength(books[..|books| - 1]);
    }
  }

  /** File order is kept: the rows of a list of workbooks are those of its
      first part followed by those of its second part. */
  lemma {:induction false} DataRowsConcat(a: seq<Workbook>, b: seq<Workbook>)
    ensures DataRows(a + b) == DataRows(a) + DataRows(b)
  {
    if b == [] {
      assert a + b == a;
    } else {
      var init := b[..|b| - 1];
      assert (a + b)[..|a + b| - 1] == a + init;
      DataRowsConcat(a, init);
    }
  }

  /** What the output file holds: one header row, the first workbook's column
      names unsanitised; then every data row of every workbook in file order,
      cell by cell sanitised; so 1 plus the total number of data rows. */
  lemma CombinedOutputSpec(books: seq<Workbook>)
    requires books != []
    ensures |AllRows(books)| == TotalRows(books)
    ensures |CombinedOutput(books)| == 1 + TotalRows(books)
    ensures CombinedOutput(books)[0] == books[0].header
    ensures forall r :: 0 <= r < |AllRows(books)| ==> |CombinedOutput(books)[1 + r]| == |AllRows(books)[r]|
    ensures forall r, c :: 0 <= r < |AllRows(books)| && 0 <= c < |AllRows(books)[r]| ==>
              CombinedOutput(books)[1 + r][c] == SanitizeValue(AllRows(books)[r][c])
  {
    DataRowsAreSanitizedRows(books);
    AllRowsLength(books);
  }

  /** With matching headers the header row is the one all files share. */
  lemma SharedHeader(paths: seq<string>, read: string -> Workbook)
    requires paths != [] && HeadersMatch(HeaderList(paths, read))
    ensures forall i :: 0 <= i < |paths| ==> CombinedOutput(ReadAll(paths, read))[0] == read(paths[i]).header
  {
    assert forall i :: 0 <= i < |paths| ==> HeaderList(paths, read)[i] == read(paths[i]).header;
  }
}
