# xlsx combiner: a Dafny model

`xlsxcombiner.py` merges every `.xlsx` workbook of a directory into one CSV
file. It first checks that all workbooks have the same column names. Then it
writes the first workbook's column names once, followed by the data rows of
every workbook in directory order. Before a text cell is written, each `'`,
`"`, `/` and `\` in it is doubled. While it runs, it prints a zero-padded
`idx/total` counter for each file.

This project models that pipeline in Dafny and proves its properties:

- `cells.dfy` (module `Cells`): cells, workbooks (the first sheet's header
  and data rows) and `Option`.
- `text.dfy` (`Text`): ASCII lower-casing and `endswith`, which both file-name
  rules use.
- `sanitize.dfy` (`Sanitize`): `sanitize_value`, written as the source's
  chain of four one-character `replace` calls. It is proved equal to a
  one-pass doubling, and that doubling is proved invertible.
- `headers.dfy` (`Headers`): `validate_headers`, a method with the source's
  loop and early exit.
- `discovery.dfy` (`Discovery`): `get_xlsx_files`, a method with the source's
  append loop. It is proved against a reference filter and the POSIX
  `os.path.join` rule.
- `naming.dfy` (`Naming`): the rule that adds `.csv` to the output name.
- `counter.dfy` (`Counter`): `str(n)`, `zfill` and the padded progress
  counter.
- `combiner.dfy` (`Combiner`): `combine_xlsx_to_csv`. The output file is a
  `CsvStream` object whose row list each `to_csv` call appends to. The run
  returns an `Outcome`: `StructureMismatch`, `NoInputFiles` or
  `Written(path, rows)`.

I/O is abstracted as follows:

- The directory listing is a `seq<string>` parameter.
- Reading a workbook is a total function parameter `read: string ->
  Workbook`. The source reads each file twice, once for the header check and
  once for conversion. The model assumes both reads give the same content.
- The output file is the sequence of cell rows appended to it, not CSV text.
- The console output is modelled only as the sequence of progress counters.

Where the code behaves differently from what one might expect, the model
follows the code:

- An empty file list passes validation. One might expect the later stages
  to process zero files; instead the run fails at `max([])`
  (xlsxcombiner.py:73) before the output file is opened. The model returns
  `NoInputFiles` with no rows.
- Sanitisation is not idempotent: running it again doubles the special
  characters a second time. `Sanitize.SanitizeNotIdempotent` proves this.
- Discovery returns an ordered list (directory order), not a set.

## Model

| member | source | states |
|---|---|---|
| `Sanitize.SanitizeValue` | xlsxcombiner.py:44-47 | a text cell becomes the text with every `'`, `"`, `/`, `\` written twice and nothing else changed; every non-text cell is returned unchanged |
| `Sanitize.SanitizeTextIsDoubling` | xlsxcombiner.py:46 | the four chained `replace` calls, in the source's order, equal one per-character pass that doubles each special character |
| `Sanitize.DoublingStepsCommute` | xlsxcombiner.py:46 | two doubling steps for different characters give the same result in either order, so the order of the source's four steps does not matter |
| `Sanitize.SanitizeTextLength` | xlsxcombiner.py:46 | the sanitised length is the input length plus the number of special characters; a text without special characters is unchanged |
| `Sanitize.UndoubleDoubleSpecials` | xlsxcombiner.py:46 | reading the doubled text back pair by pair recovers the original text, so no information is lost |
| `Sanitize.SanitizeTextInjective` | xlsxcombiner.py:46 | two different texts never sanitise to the same text |
| `Sanitize.SanitizeNotIdempotent` | xlsxcombiner.py:46 | on a text with at least one special character, sanitising twice differs from sanitising once |
| `Headers.ValidateHeaders` | xlsxcombiner.py:34-42 | returns true iff every file's header equals the first file's (ordered exact equality, so true for zero or one file); on true it read every file; on false it stopped right after the first file whose header differs from the first, and all files before that one matched |
| `Headers.HeadersMatchPairwise` | xlsxcombiner.py:38-41 | comparing each header with the first is the same as requiring all headers to be pairwise equal |
| `Headers.ExampleReorderedHeaders` | xlsxcombiner.py:40 | `[A,B]` against `[B,A]` and `[A,B]` against `[A,C]` fail; the empty list and a single header pass |
| `Discovery.GetXlsxFiles` | xlsxcombiner.py:49-54 | the loop returns the directory-joined path of exactly the listed names that the reference filter keeps, in listing order |
| `Discovery.XlsxNamesMembers` | xlsxcombiner.py:52 | a name is kept iff it is in the listing and its lower-cased form ends in `.xlsx` |
| `Discovery.XlsxNamesConcat` | xlsxcombiner.py:51-53 | the filter keeps listing order: filtering two concatenated listings concatenates their filtered parts |
| `Discovery.XlsxNamesLength` | xlsxcombiner.py:50-54 | the result is never longer than the listing |
| `Discovery.XlsxPathsSound` | xlsxcombiner.py:49-54 | each returned path is the join of the directory with a listed workbook name, and is itself recognised as a workbook path |
| `Discovery.JoinParts` | xlsxcombiner.py:53 | the joined path ends with the file name and, for a relative name, starts with the directory |
| `Discovery.JoinKeepsXlsx` | xlsxcombiner.py:52-53 | joining a workbook name to any directory gives a path that still ends in `.xlsx`, ignoring case |
| `Naming.CsvFileNameEndsWithCsv` | xlsxcombiner.py:64-65 | the output name always ends in `.csv`, ignoring case |
| `Naming.CsvFileNameExtends` | xlsxcombiner.py:64-65 | the output name starts with the given name; it equals the given name exactly when that name already ends in `.csv` in any case, and otherwise it is the name followed by `.csv` |
| `Naming.CsvFileNameIdempotent` | xlsxcombiner.py:64-65 | applying the rule twice gives the same name as applying it once |
| `Counter.NatToStringValue` | xlsxcombiner.py:69 | `str(n)` is a digit string that reads back as `n` and has no leading zero unless `n` is 0 |
| `Counter.NatToStringMonotone` | xlsxcombiner.py:69 | a smaller number never has more decimal digits |
| `Counter.PaddedCounterSpec` | xlsxcombiner.py:82 | for `idx <= total`, `str(idx).zfill(len(str(total)))` has exactly `len(str(total))` characters, all of them digits, and reads back as `idx` |
| `Combiner.CombineXlsxToCsv` | xlsxcombiner.py:56-94 | headers differ: `StructureMismatch`, nothing written, no counters. No workbook found: `NoInputFiles`, the file is never opened. Otherwise: the file at the join of the output directory and the normalised name holds the combined output, and one counter is printed per file in order |
| `Combiner.WriteWorkbooks` | xlsxcombiner.py:75-91 | the `for idx` loop leaves the stream holding the first file's column names, then every file's sanitised rows, and prints the counters `1/total` to `total/total` |
| `Combiner.CsvStream.Open` | xlsxcombiner.py:75 | opening for writing starts an empty file at the given path |
| `Combiner.CsvStream.WriteFrame` | xlsxcombiner.py:86 | `to_csv` appends the header row only when asked, then all data rows, and leaves earlier rows as they were |
| `Combiner.CombinedOutputSpec` | xlsxcombiner.py:76-86 | the output has 1 plus the total number of data rows; row 0 is the first workbook's column names, not sanitised; each later row is the matching input row, cell by cell sanitised, in file order |
| `Combiner.DataRowsAreSanitizedRows` | xlsxcombiner.py:85-86 | the rows after the header are exactly the sanitised concatenation of all input rows |
| `Combiner.DataRowsConcat` | xlsxcombiner.py:76 | file order is kept: the rows for two concatenated lists of files are the rows of the first list followed by those of the second |
| `Combiner.SharedHeader` | xlsxcombiner.py:59 | when validation passes, the single header row equals every input file's header |

## Left out

- Workbook reading with pandas/openpyxl (xlsxcombiner.py:37, 84) is a library call. It becomes the `read` parameter. So pandas' header inference, its renaming of duplicate and unnamed columns, and its type conversion are not modelled. A read that raises is not modelled either; the source does not catch one.
- CSV serialisation (`to_csv` with `QUOTE_ALL`, xlsxcombiner.py:86) is a library call. The output is the sequence of cell rows, not quoted text.
- `human_friendly_time` (xlsxcombiner.py:23-32) and the progress percentage and its padding (xlsxcombiner.py:78, 81) are left out because they use floating-point arithmetic and formatting.
- The file-name padding (xlsxcombiner.py:73, 79-80) is left out because it is console layout built on `os.path.basename`, an OS path call. Only the failure of `max` on an empty list is kept, as `NoInputFiles`.
- Timing, `os.listdir`, `os.makedirs` (the output directory is created even when there are no workbooks), opening and closing files, coloured printing, screen clearing, the `pip` self-install and argument or prompt handling (xlsxcombiner.py:8-21, 96-116) are I/O and environment code.
- `Text.Lower`: lower-cases only the ASCII letters A to Z. Python's `str.lower` also maps non-ASCII letters, and some of those change the string's length.
- `Counter.PaddedCounterSpec`: `zfill` is modelled only for unsigned digit strings. The source only ever pads `str(idx)` with `idx >= 1`.
- `Headers.ValidateHeaders`: column names are compared by structural equality of `Cell`. Python's cross-type equality (`1 == 1.0 == True`) is not modelled.
- `Discovery.Join`: follows the POSIX `os.path.join` rule. Windows path joining is not modelled.
- Floating-point and date cells are the opaque `Other` cells; their values are not interpreted.
