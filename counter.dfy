/** The progress counter `str(idx).zfill(len(str(total)))`. */
module Counter {

  /** The decimal digit character for `d`. */
  function DigitChar(d: nat): char
    requires d < 10
  {
    ('0' as int + d) as char
  }

  /** `str(n)` for a natural number: its decimal digits, most significant first. */
  function NatToString(n: nat): string
  {
    if n < 10 then [DigitChar(n)] else NatToString(n / 10) + [DigitChar(n % 10)]
  }

  /** Every character is a decimal digit. */
  predicate IsDigits(s: string)
  {
    forall i :: 0 <= i < |s| ==> '0' <= s[i] <= '9'
  }

  /** The number a digit string denotes (leading zeros allowed, `""` is 0). */
  function DecValue(s: string): nat
    requires IsDigits(s)
  {
    if s == [] then 0 else DecValue(s[..|s| - 1]) * 10 + (s[|s| - 1] as int - '0' as int)
  }

  /** `n` zero characters. */
  function Zeros(n: nat): (z: string)
    ensures |z| == n
  {
    seq(n, _ => '0')
  }

  /** `s.zfill(width)` for an unsigned digit string: left-padded with zeros to
      `width` characters, or `s` itself when it is already that long. */
  function ZFill(s: string, width: nat): string
  {
    if |s| >= width then s else Zeros(width - |s|) + s
  }

  /** The counter printed for file `idx` of `total`. */
  function PaddedCounter(idx: nat, total: nat): string
  {
    ZFill(NatToString(idx), |NatToString(total)|)
  }

  /** `str(n)` is a digit string that denotes `n`, with no leading zero
      unless `n` is zero. */
  lemma {:induction false} NatToStringValue(n: nat)
    ensures IsDigits(NatToString(n)) && DecValue(NatToString(n)) == n
    ensures n > 0 ==> NatToString(n)[0] != '0'
  {
    if n >= 10 {
      NatToStringValue(n / 10);
      var s := NatToString(n);
      assert s[..|s| - 1] == NatToString(n / 10);
    }
  }

  /** A smaller number never has more digits. */
  lemma {:induction false} NatToStringMonotone(a: nat, b: nat)
    requires a <= b
    ensures |NatToString(a)| <= |NatToString(b)|
  {
    if a >= 10 {
      NatToStringMonotone(a / 10, b / 10);
    }
  }

  /** Leading zeros do not change the value of a digit string. */
  lemma {:induction false} DecValueLeadingZeros(k: nat, s: string)
    requires IsDigits(s)
    ensures IsDigits(Zeros(k) + s) && DecValue(Zeros(k) + s) == DecValue(s)
    decreases |s|, k
  {
    var z := Zeros(k) + s;
    if s == [] {
      assert z == Zeros(k);
      if k > 0 {
        assert z[..k - 1] == Zeros(k - 1) + s;
        DecValueLeadingZeros(k - 1, s);
      }
    } else {
      assert z[..|z| - 1] == Zeros(k) + s[..|s| - 1];
      DecValueLeadingZeros(k, s[..|s| - 1]);
    }
  }

  /** For every file index up to the total, the counter is exactly as wide as
      the total's decimal form, is all digits, and reads back as the index. */
  lemma PaddedCounterSpec(idx: nat, total: nat)
    requires idx <= total
    ensures |PaddedCounter(idx, total)| == |NatToString(total)|
    ensures IsDigits(PaddedCounter(idx, total)) && DecValue(PaddedCounter(idx, total)) == idx
  {
    NatToStringMonotone(idx, total);
    NatToStringValue(idx);
    var s := NatToString(idx);
    DecValueLeadingZeros(|NatToString(total)| - |s|, s);
  }
}
