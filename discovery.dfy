/** `get_xlsx_files`: the workbook files of one directory listing. */
module Discovery {
  import opened Text

  /** True if the lower-cased name ends in `.xlsx`. */
  predicate IsXlsxName(name: string)
  {
    EndsWith(Lower(name), ".xlsx")
  }

  /** `os.path.join(dir, name)` for two components, by the POSIX rule: an
      absolute `name` replaces `dir`; otherwise a `/` is put in between unless
      `dir` is empty or already ends in one. */
  function Join(dir: string, name: string): string
  {
    if |name| > 0 && name[0] == '/' then name
    else if dir == [] || dir[|dir| - 1] == '/' then dir + name
    else dir + "/" + name
  }

  /** The joined path ends with the name; when the name is relative it also
      starts with the directory. */
  lemma JoinParts(dir: string, name: string)
    ensures EndsWith(Join(dir, name), name)
    ensures !(|name| > 0 && name[0] == '/') ==> Join(dir, name)[..|dir|] == dir
  {
    if |name| > 0 && name[0] == '/' {
    } else if dir == [] || dir[|dir| - 1] == '/' {
      EndsWithAppended(dir, name);
    } else {
      assert dir + "/" + name == (dir + "/") + name;
      EndsWithAppended(dir + "/", name);
    }
  }

  /** A path joined from a workbook name is itself recognised as a workbook path. */
  lemma JoinKeepsXlsx(dir: string, name: string)
    requires IsXlsxName(name)
    ensures IsXlsxName(Join(dir, name))
  {
    JoinParts(dir, name);
    LowerKeepsSuffix(Join(dir, name), name);
    EndsWithTransitive(Lower(Join(dir, name)), Lower(name), ".xlsx");
  }

  /** The reference filter: the workbook names of the listing, in listing order. */
  function XlsxNames(listing: seq<string>): seq<string>
  {
    if listing == [] then []
    else
      var last := listing[|listing| - 1];
      XlsxNames(listing[..|listing| - 1]) + (if IsXlsxName(last) then [last] else [])
  }

  /** Every name is joined to the directory. */
  function JoinAll(dir: string, names: seq<string>): (paths: seq<string>)
    ensures |paths| == |names|
  {
    seq(|names|, k requires 0 <= k < |names| => Join(dir, names[k]))
  }

  /** Scans the listing in order and collects the joined path of every
      workbook name. */
  method GetXlsxFiles(dir: string, listing: seq<string>) returns (fileList: seq<string>)
    ensures fileList == JoinAll(dir, XlsxNames(listing))
  {
    fileList := [];
    for i := 0 to |listing|
      invariant fileList == JoinAll(dir, XlsxNames(listing[..i]))
    {
      var file := listing[i];
      assert listing[..i + 1][..i] == listing[..i];
      if IsXlsxName(file) {
        fileList := fileList + [Join(dir, file)];
      }
    }
    assert listing[..|listing|] == listing;
  }

  /** The filter keeps exactly the workbook names of the listing. */
  lemma {:induction false} XlsxNamesMembers(listing: seq<string>, name: string)
    ensures name in XlsxNames(listing) <==> name in listing && IsXlsxName(name)
  {
    if listing != [] {
      var init := listing[..|listing| - 1];
      XlsxNamesMembers(init, name);
      assert listing == init + [listing[|listing| - 1]];
    }
  }

  /** The filter preserves order: filtering a concatenation concatenates the filtered parts. */
  lemma {:induction false} XlsxNamesConcat(a: seq<string>, b: seq<string>)
    ensures XlsxNames(a + b) == XlsxNames(a) + XlsxNames(b)
  {
    if b == [] {
      assert a + b == a;
    } else {
      var init := b[..|b| - 1];
      assert (a + b)[..|a + b| - 1] == a + init;
      XlsxNamesConcat(a, init);
    }
  }

  /** The filter never yields more names than the listing holds. */
  lemma {:induction false} XlsxNamesLength(listing: seq<string>)
    ensures |XlsxNames(listing)| <= |listing|
  {
    if listing != [] {
      XlsxNamesLength(listing[..|listing| - 1]);
    }
  }

  /** What `get_xlsx_files` returns: each path is the joined path of a
      workbook name of the listing and is itself a workbook path. */
  lemma XlsxPathsSound(dir: string, listing: seq<string>, k: nat)
    requires k < |JoinAll(dir, XlsxNames(listing))|
    ensures var name := XlsxNames(listing)[k];
      name in listing && IsXlsxName(name)
      && JoinAll(dir, XlsxNames(listing))[k] == Join(dir, name)
      && IsXlsxName(JoinAll(dir, XlsxNames(listing))[k])
  {
    var name := XlsxNames(listing)[k];
    XlsxNamesMembers(listing, name);
    JoinKeepsXlsx(dir, name);
  }
}
