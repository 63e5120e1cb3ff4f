/** Identifier normalisation: the zero-padded text keys the county and
    district tables are joined on, and the decoding of the district-type
    code. */
module Identifiers {
  import opened Tables

  /** `n` copies of `c`. */
  function Repeat(c: char, n: nat): (r: string)
    ensures |r| == n
    ensures forall i :: 0 <= i < n ==> r[i] == c
  {
    if n == 0 then "" else Repeat(c, n - 1) + [c]
  }

  /** Python's `str.rjust(width, fill)`: `s` preceded by as many `fill`
      characters as it falls short of `width`. It pads and never truncates:
      a string already `width` long or longer comes back unchanged. */
  function RJust(s: string, width: int, fill: char): (r: string)
    ensures |r| == if |s| < width then width else |s|
    ensures r[|r| - |s|..] == s
    ensures forall i :: 0 <= i < |r| - |s| ==> r[i] == fill
    ensures |s| >= width ==> r == s
  {
    if |s| < width then Repeat(fill, width - |s|) + s else s
  }

  predicate IsDigit(c: char)
  {
    '0' <= c <= '9'
  }

  predicate AllDigits(s: string)
  {
    forall i :: 0 <= i < |s| ==> IsDigit(s[i])
  }

  function DigitChar(d: nat): (c: char)
    requires d < 10
    ensures IsDigit(c)
  {
    (48 + d) as char
  }

  function DigitValue(c: char): (d: nat)
    requires IsDigit(c)
    ensures d < 10
  {
    c as int - 48
  }

  function Pow10(k: nat): (p: nat)
    ensures p >= 1
  {
    if k == 0 then 1 else 10 * Pow10(k - 1)
  }

  /** Python's `str(n)` for a non-negative integer: its decimal digits,
      with no leading zero unless `n` is zero. */
  function NatToString(n: nat): (r: string)
    ensures |r| >= 1 && AllDigits(r)
    ensures r[0] == '0' ==> n == 0
  {
    if n < 10 then [DigitChar(n)] else NatToString(n / 10) + [DigitChar(n % 10)]
  }

  /** Python's `str(n)` for any integer. */
  function IntToString(n: int): string
  {
    if n < 0 then "-" + NatToString(-n) else NatToString(n)
  }

  /** The number a digit string denotes: what `pd.read_csv` stores for a
      column of digit strings, leading zeros and all. */
  function DigitsValue(s: string): nat
    requires AllDigits(s)
  {
    if s == [] then 0 else DigitsValue(s[..|s| - 1]) * 10 + DigitValue(s[|s| - 1])
  }

  /** Reading back the text of a number gives the number. */
  lemma {:induction false} NatToStringRoundTrip(n: nat)
    ensures DigitsValue(NatToString(n)) == n
  {
    if n >= 10 {
      NatToStringRoundTrip(n / 10);
      var s := NatToString(n);
      assert s[..|s| - 1] == NatToString(n / 10);
    }
  }

  /** A number below 10^k takes at most k digits. */
  lemma {:induction false} NatToStringLength(n: nat, k: nat)
    requires k >= 1 && n < Pow10(k)
    ensures |NatToString(n)| <= k
  {
    if n >= 10 {
      NatToStringLength(n / 10, k - 1);
    }
  }

  /** A string of k digits denotes a number below 10^k. */
  lemma {:induction false} DigitsValueBound(s: string)
    requires AllDigits(s)
    ensures DigitsValue(s) < Pow10(|s|)
  {
    if s != [] {
      DigitsValueBound(s[..|s| - 1]);
    }
  }

  /** Leading zeros do not change the number a digit string denotes. */
  lemma {:induction false} LeadingZerosValue(k: nat, s: string)
    requires AllDigits(s)
    ensures AllDigits(Repeat('0', k) + s)
    ensures DigitsValue(Repeat('0', k) + s) == DigitsValue(s)
  {
    var z := Repeat('0', k);
    var t := z + s;
    assert AllDigits(t) by {
      forall i | 0 <= i < |t|
        ensures IsDigit(t[i])
      {
        if i >= |z| {
          assert t[i] == s[i - |z|];
        }
      }
    }
    if s == [] {
      assert t == z;
      if k > 0 {
        LeadingZerosValue(k - 1, s);
        assert t[..|t| - 1] == Repeat('0', k - 1) + s;
        assert DigitsValue(t) == DigitsValue(t[..|t| - 1]) * 10 + DigitValue(t[|t| - 1]);
      }
    } else {
      var init := s[..|s| - 1];
      LeadingZerosValue(k, init);
      assert t[..|t| - 1] == z + init;
      assert t[|t| - 1] == s[|s| - 1];
      assert DigitsValue(t) == DigitsValue(z + init) * 10 + DigitValue(s[|s| - 1]);
    }
  }

  /** Two digit strings of the same length that denote the same number are
      the same string. */
  lemma {:induction false} DigitsValueInjective(a: string, b: string)
    requires AllDigits(a) && AllDigits(b) && |a| == |b|
    requires DigitsValue(a) == DigitsValue(b)
    ensures a == b
  {
    if a != [] {
      var n := |a| - 1;
      assert DigitValue(a[n]) == DigitValue(b[n]);
      DigitsValueInjective(a[..n], b[..n]);
      assert a == a[..n] + [a[n]] && b == b[..n] + [b[n]];
    }
  }

  /** Padding the text of a number with zeros keeps its value. */
  lemma PaddedValue(n: nat, width: int)
    ensures AllDigits(RJust(NatToString(n), width, '0'))
    ensures DigitsValue(RJust(NatToString(n), width, '0')) == n
  {
    var t := NatToString(n);
    NatToStringRoundTrip(n);
    if |t| < width {
      LeadingZerosValue(width - |t|, t);
    }
  }

  /** The padding restores a fixed-width code that was read as a number:
      a `width`-digit code, read as the number it denotes, printed with
      `str` and right-justified with '0' to `width`, is the code again. */
  lemma PadRestoresCode(code: string, width: nat)
    requires width >= 1 && |code| == width && AllDigits(code)
    ensures RJust(NatToString(DigitsValue(code)), width, '0') == code
  {
    var n := DigitsValue(code);
    DigitsValueBound(code);
    NatToStringLength(n, width);
    PaddedValue(n, width);
    DigitsValueInjective(RJust(NatToString(n), width, '0'), code);
  }

  /** Line 86: the county number of the boundary file, as text, padded to
      the two-digit county code the salary tables carry. */
  function CountyKey(num: string): (key: string)
    ensures |key| == if |num| < 2 then 2 else |num|
  {
    RJust(num, 2, '0')
  }

  /** Line 331: the district code `pd.read_csv` read as an integer, as
      text, padded to the seven-character county-and-district code. */
  function CdsKey(cds: int): (key: string)
  {
    RJust(IntToString(cds), 7, '0')
  }

  /** Distinct district numbers never share a key, so the padding cannot
      merge two districts in a join. */
  lemma CdsKeyInjective(a: nat, b: nat)
    requires CdsKey(a) == CdsKey(b)
    ensures a == b
  {
    PaddedValue(a, 7);
    PaddedValue(b, 7);
  }

  /** Every seven-digit code survives being read as a number and padded
      back, so districts of the salary tables find their metadata rows. */
  lemma CdsKeyRestoresCode(code: string)
    requires |code| == 7 && AllDigits(code)
    ensures CdsKey(DigitsValue(code)) == code
  {
    PadRestoresCode(code, 7);
  }

  /** County "5" becomes "05"; "37" is already two wide. */
  lemma CountyKeyExamples()
    ensures CountyKey("5") == "05"
    ensures CountyKey("37") == "37"
  {
    assert Repeat('0', 1) == "0";
  }

  /** District 171365, read from "0171365", becomes "0171365" again. */
  lemma CdsKeyExample()
    ensures CdsKey(171365) == "0171365"
  {
    assert NatToString(1) == "1";
    assert NatToString(17) == "17";
    assert NatToString(171) == "171";
    assert NatToString(1713) == "1713";
    assert NatToString(17136) == "17136";
    assert NatToString(171365) == "171365";
    assert Repeat('0', 1) == "0";
  }

  /** `f`, lines 333-343: the district-type code's name; any other code
      falls off the end of the function and gives Python's `None`. */
  function DistrictType(code: int): (name: Option<string>)
    ensures name.Some? <==> 0 <= code <= 4
  {
    if code == 0 then Some("County Office of Education")
    else if code == 1 then Some("Elementary")
    else if code == 2 then Some("High School")
    else if code == 3 then Some("Common Admin District")
    else if code == 4 then Some("Unified")
    else None
  }

  /** No two known codes share a name. */
  lemma DistrictTypeInjective(a: int, b: int)
    requires DistrictType(a).Some? && DistrictType(a) == DistrictType(b)
    ensures a == b
  {
  }
}
