/** `validate_headers`: every workbook must carry the first workbook's column names. */
module Headers {
  import opened Cells

  /** The column names of each listed file, in list order. */
  function HeaderList(paths: seq<string>, read: string -> Workbook): (hs: seq<seq<Cell>>)
    ensures |hs| == |paths|
  {
    seq(|paths|, i requires 0 <= i < |paths| => read(paths[i]).header)
  }

  /** Every header equals the first one: ordered, exact sequence equality. */
  predicate HeadersMatch(headers: seq<seq<Cell>>)
  {
    forall i :: 0 <= i < |headers| ==> headers[i] == headers[0]
  }

  /** Comparing everything with the first header is the same as comparing
      every pair of headers. */
  lemma HeadersMatchPairwise(headers: seq<seq<Cell>>)
    ensures HeadersMatch(headers) <==>
      forall i, j :: 0 <= i < |headers| && 0 <= j < |headers| ==> headers[i] == headers[j]
  {
  }

  /** Reads the header of each file in turn (`read` stands for reading the
      first sheet with no data rows); the first one becomes the baseline and
      the scan stops at the first file whose header differs. `examined` is the
      number of files read. */
  method ValidateHeaders(paths: seq<string>, read: string -> Workbook) returns (ok: bool, examined: nat)
    ensures ok <==> HeadersMatch(HeaderList(paths, read))
    ensures ok ==> examined == |paths|
    ensures !ok ==> (1 < examined <= |paths|
                     && read(paths[examined - 1]).header != read(paths[0]).header
                     && HeadersMatch(HeaderList(paths[..examined - 1], read)))
  {
    var header: Option<seq<Cell>> := None;
    examined := 0;
    for k := 0 to |paths|
      invariant examined == k
      invariant k == 0 <==> header == None
      invariant k > 0 ==> header == Some(read(paths[0]).header)
      invariant HeadersMatch(HeaderList(paths[..k], read))
    {
      var columns := read(paths[k]).header;
      examined := examined + 1;
      if header == None {
        header := Some(columns);
      } else if header.value != columns {
        assert HeaderList(paths, read)[k] != HeaderList(paths, read)[0];
        return false, examined;
      }
      assert HeaderList(paths[..k + 1], read) == HeaderList(paths[..k], read) + [columns];
    }
    assert paths[..|paths|] == paths;
    return true, examined;
  }

  /** Header equality is ordered: the same names in another order do not match. */
  lemma ExampleReorderedHeaders()
    ensures !HeadersMatch([[Text("A"), Text("B")], [Text("B"), Text("A")]])
    ensures !HeadersMatch([[Text("A"), Text("B")], [Text("A"), Text("C")]])
    ensures HeadersMatch([]) && HeadersMatch([[Text("A")]])
  {
    var ab: seq<Cell>, ba: seq<Cell>, ac: seq<Cell> := [Text("A"), Text("B")], [Text("B"), Text("A")], [Text("A"), Text("C")];
    var h1: seq<seq<Cell>>, h2: seq<seq<Cell>> := [ab, ba], [ab, ac];
    assert ab[0] != ba[0] && h1[1] != h1[0];
    assert ab[1] != ac[1] && h2[1] != h2[0];
  }
}
