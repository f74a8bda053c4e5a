/** `sanitize_value`: the character-doubling rule applied to every data cell. */
module Sanitize {
  import opened Cells

  /** The four characters the rule doubles: `'`, `"`, `/` and `\`. */
  predicate IsSpecial(c: char)
  {
    c == '\'' || c == '"' || c == '/' || c == '\\'
  }

  /** `s.replace(c, rep)` for a one-character pattern `c`: every occurrence of
      `c`, scanning left to right, is replaced by `rep`. */
  function ReplaceChar(s: string, c: char, rep: string): string
  {
    if s == [] then [] else (if s[0] == c then rep else [s[0]]) + ReplaceChar(s[1..], c, rep)
  }

  /** The source's chain of four `replace` calls, in the source's order. */
  function SanitizeText(s: string): string
  {
    ReplaceChar(ReplaceChar(ReplaceChar(ReplaceChar(s, '\'', "''"), '"', "\"\""), '/', "//"), '\\', "\\\\")
  }

  /** The reference definition: a single pass that writes every special
      character twice and every other character once. */
  function DoubleSpecials(s: string): string
  {
    if s == [] then [] else (if IsSpecial(s[0]) then [s[0], s[0]] else [s[0]]) + DoubleSpecials(s[1..])
  }

  /** How many special characters `s` holds. */
  function CountSpecials(s: string): nat
  {
    if s == [] then 0 else (if IsSpecial(s[0]) then 1 else 0) + CountSpecials(s[1..])
  }

  /** `sanitize_value`: text cells get the replace chain, every other cell is
      returned as it is. The result is the single-pass doubling. */
  function SanitizeValue(v: Cell): (r: Cell)
    ensures v.Text? ==> r == Text(DoubleSpecials(v.s))
    ensures !v.Text? ==> r == v
  {
    if v.Text? then
      SanitizeTextIsDoubling(v.s);
      Text(SanitizeText(v.s))
    else v
  }

  /** `replace` works on the two halves of a string independently (the pattern
      is one character, so no occurrence straddles the cut). */
  lemma {:induction false} ReplaceCharConcat(a: string, b: string, c: char, rep: string)
    ensures ReplaceChar(a + b, c, rep) == ReplaceChar(a, c, rep) + ReplaceChar(b, c, rep)
  {
    if a == [] {
      assert a + b == b;
    } else {
      assert (a + b)[0] == a[0];
      assert (a + b)[1..] == a[1..] + b;
      ReplaceCharConcat(a[1..], b, c, rep);
    }
  }

  /** The whole chain therefore also works on the two halves independently. */
  lemma SanitizeTextConcat(a: string, b: string)
    ensures SanitizeText(a + b) == SanitizeText(a) + SanitizeText(b)
  {
    var r1a, r1b := ReplaceChar(a, '\'', "''"), ReplaceChar(b, '\'', "''");
    ReplaceCharConcat(a, b, '\'', "''");
    var r2a, r2b := ReplaceChar(r1a, '"', "\"\""), ReplaceChar(r1b, '"', "\"\"");
    ReplaceCharConcat(r1a, r1b, '"', "\"\"");
    var r3a, r3b := ReplaceChar(r2a, '/', "//"), ReplaceChar(r2b, '/', "//");
    ReplaceCharConcat(r2a, r2b, '/', "//");
    ReplaceCharConcat(r3a, r3b, '\\', "\\\\");
  }

  /** The chain on a one-character string: each step only introduces copies of
      its own character, so a special character ends up doubled exactly once
      and any other character is untouched. */
  lemma SanitizeTextSingle(x: char)
    ensures SanitizeText([x]) == if IsSpecial(x) then [x, x] else [x]
  {
    if x == '\'' {
      ReplaceCharOne(x, '\'', "''");
      ReplaceCharAbsent("''", '"', "\"\"");
      ReplaceCharAbsent("''", '/', "//");
      ReplaceCharAbsent("''", '\\', "\\\\");
    } else if x == '"' {
      ReplaceCharOne(x, '\'', "''");
      ReplaceCharOne(x, '"', "\"\"");
      ReplaceCharAbsent("\"\"", '/', "//");
      ReplaceCharAbsent("\"\"", '\\', "\\\\");
    } else if x == '/' {
      ReplaceCharOne(x, '\'', "''");
      ReplaceCharOne(x, '"', "\"\"");
      ReplaceCharOne(x, '/', "//");
      ReplaceCharAbsent("//", '\\', "\\\\");
    } else {
      ReplaceCharOne(x, '\'', "''");
      ReplaceCharOne(x, '"', "\"\"");
      ReplaceCharOne(x, '/', "//");
      ReplaceCharOne(x, '\\', "\\\\");
    }
  }

  /** `replace` on a one-character string. */
  lemma ReplaceCharOne(x: char, c: char, rep: string)
    ensures ReplaceChar([x], c, rep) == if x == c then rep else [x]
  {
    assert [x][1..] == [];
  }

  /** `replace` leaves a string without the pattern character unchanged. */
  lemma {:induction false} ReplaceCharAbsent(s: string, c: char, rep: string)
    requires c !in s
    ensures ReplaceChar(s, c, rep) == s
  {
    if s != [] {
      assert c !in s[1..];
      ReplaceCharAbsent(s[1..], c, rep);
      assert s == [s[0]] + s[1..];
    }
  }

  /** The four chained replacements equal the single per-character doubling. */
  lemma {:induction false} SanitizeTextIsDoubling(s: string)
    ensures SanitizeText(s) == DoubleSpecials(s)
  {
    if s != [] {
      assert s == [s[0]] + s[1..];
      SanitizeTextConcat([s[0]], s[1..]);
      SanitizeTextSingle(s[0]);
      SanitizeTextIsDoubling(s[1..]);
    }
  }

  /** Two doubling steps for different characters commute: each step only
      introduces copies of its own character, so the order of the source's
      four steps does not matter. */
  lemma {:induction false} DoublingStepsCommute(s: string, c: char, d: char)
    requires c != d
    ensures ReplaceChar(ReplaceChar(s, c, [c, c]), d, [d, d])
         == ReplaceChar(ReplaceChar(s, d, [d, d]), c, [c, c])
  {
    if s != [] {
      var x, t := s[0], s[1..];
      assert s == [x] + t;
      ReplaceCharConcat([x], t, c, [c, c]);
      ReplaceCharConcat([x], t, d, [d, d]);
      ReplaceCharOne(x, c, [c, c]);
      ReplaceCharOne(x, d, [d, d]);
      var hc := if x == c then [c, c] else [x];
      var hd := if x == d then [d, d] else [x];
      ReplaceCharConcat(hc, ReplaceChar(t, c, [c, c]), d, [d, d]);
      ReplaceCharConcat(hd, ReplaceChar(t, d, [d, d]), c, [c, c]);
      if x == c {
        ReplaceCharAbsent(hc, d, [d, d]);
      } else if x == d {
        ReplaceCharAbsent(hd, c, [c, c]);
      }
      DoublingStepsCommute(t, c, d);
    }
  }

  /** Doubling adds exactly one character per special character. */
  lemma {:induction false} DoubleSpecialsLength(s: string)
    ensures |DoubleSpecials(s)| == |s| + CountSpecials(s)
  {
    if s != [] {
      DoubleSpecialsLength(s[1..]);
    }
  }

  /** A string without special characters is left as it is. */
  lemma {:induction false} DoubleSpecialsNoSpecials(s: string)
    requires CountSpecials(s) == 0
    ensures DoubleSpecials(s) == s
  {
    if s != [] {
      DoubleSpecialsNoSpecials(s[1..]);
      assert s == [s[0]] + s[1..];
    }
  }

  /** On text, the sanitised length is the input length plus the number of
      special characters, and a text without special characters is unchanged. */
  lemma SanitizeTextLength(s: string)
    ensures |SanitizeText(s)| == |s| + CountSpecials(s)
    ensures CountSpecials(s) == 0 ==> SanitizeText(s) == s
  {
    SanitizeTextIsDoubling(s);
    DoubleSpecialsLength(s);
    if CountSpecials(s) == 0 {
      DoubleSpecialsNoSpecials(s);
    }
  }

  /** Reads doubled output back: every special character must come as a pair,
      which stands for one copy of it. A lone special character is rejected. */
  function Undouble(s: string): Option<string>
  {
    if s == [] then Some([])
    else if IsSpecial(s[0]) then
      if |s| >= 2 && s[1] == s[0] then
        match Undouble(s[2..])
        case Some(t) => Some([s[0]] + t)
        case None => None
      else None
    else
      match Undouble(s[1..])
      case Some(t) => Some([s[0]] + t)
      case None => None
  }

  /** Undoubling inverts the doubling: the sanitised text determines the original. */
  lemma {:induction false} UndoubleDoubleSpecials(s: string)
    ensures Undouble(DoubleSpecials(s)) == Some(s)
  {
    if s != [] {
      var d := DoubleSpecials(s);
      UndoubleDoubleSpecials(s[1..]);
      if IsSpecial(s[0]) {
        assert d[2..] == DoubleSpecials(s[1..]);
      } else {
        assert d[1..] == DoubleSpecials(s[1..]);
      }
      assert s == [s[0]] + s[1..];
    }
  }

  /** Hence sanitisation never maps two different texts to the same text. */
  lemma SanitizeTextInjective(a: string, b: string)
    requires SanitizeText(a) == SanitizeText(b)
    ensures a == b
  {
    SanitizeTextIsDoubling(a);
    SanitizeTextIsDoubling(b);
    UndoubleDoubleSpecials(a);
    UndoubleDoubleSpecials(b);
  }

  /** Doubling doubles the number of special characters. */
  lemma {:induction false} CountSpecialsDoubled(s: string)
    ensures CountSpecials(DoubleSpecials(s)) == 2 * CountSpecials(s)
  {
    if s != [] {
      var head := if IsSpecial(s[0]) then [s[0], s[0]] else [s[0]];
      CountSpecialsConcat(head, DoubleSpecials(s[1..]));
      CountSpecialsDoubled(s[1..]);
      assert head[1..] == if IsSpecial(s[0]) then [s[0]] else [];
    }
  }

  /** Counting works on the two halves of a string independently. */
  lemma {:induction false} CountSpecialsConcat(a: string, b: string)
    ensures CountSpecials(a + b) == CountSpecials(a) + CountSpecials(b)
  {
    if a == [] {
      assert a + b == b;
    } else {
      assert (a + b)[1..] == a[1..] + b;
      CountSpecialsConcat(a[1..], b);
    }
  }

  /** The rule is applied once per value because it is not idempotent: a
      second application doubles every special character again. */
  lemma SanitizeNotIdempotent(s: string)
    requires CountSpecials(s) > 0
    ensures SanitizeText(SanitizeText(s)) != SanitizeText(s)
  {
    var once := SanitizeText(s);
    SanitizeTextLength(s);
    SanitizeTextLength(once);
    SanitizeTextIsDoubling(s);
    CountSpecialsDoubled(s);
  }
}
