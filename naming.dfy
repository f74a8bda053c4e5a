/** The output file name rule of `combine_xlsx_to_csv`. */
module Naming {
  import opened Text

  /** Appends `.csv` unless the name already ends in it, ignoring case. */
  function CsvFileName(name: string): string
  {
    if EndsWith(Lower(name), ".csv") then name else name + ".csv"
  }

  /** The result always ends in `.csv`, ignoring case. */
  lemma CsvFileNameEndsWithCsv(name: string)
    ensures EndsWith(Lower(CsvFileName(name)), ".csv")
  {
    if !EndsWith(Lower(name), ".csv") {
      LowerConcat(name, ".csv");
      assert Lower(".csv") == ".csv";
      EndsWithAppended(Lower(name), ".csv");
    }
  }

  /** The result starts with the given name; it equals the name exactly when
      the name already ends in `.csv` (any case), and otherwise adds `.csv`. */
  lemma CsvFileNameExtends(name: string)
    ensures |name| <= |CsvFileName(name)| && CsvFileName(name)[..|name|] == name
    ensures CsvFileName(name) == name <==> EndsWith(Lower(name), ".csv")
    ensures CsvFileName(name) != name ==> CsvFileName(name)[|name|..] == ".csv"
  {
    if !EndsWith(Lower(name), ".csv") {
      assert |CsvFileName(name)| == |name| + 4;
    }
  }

  /** Normalising twice gives the same name as normalising once. */
  lemma CsvFileNameIdempotent(name: string)
    ensures CsvFileName(CsvFileName(name)) == CsvFileName(name)
  {
    CsvFileNameEndsWithCsv(name);
  }
}
