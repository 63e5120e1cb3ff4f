/** The text operations the cohort filters rest on: ASCII lower-casing (how a
    case-insensitive search treats the letters of its patterns), Python's
    `str.strip`, and searching for a short literal pattern in which an atom
    is either one character or the class `\d` of decimal digits. */
module Text {

  function LowerChar(c: char): char
  {
    if 'A' <= c <= 'Z' then (c as int + 32) as char else c
  }

  /** The text with its ASCII capitals lower-cased. */
  function Lower(s: string): (r: string)
    ensures |r| == |s|
    ensures forall i :: 0 <= i < |s| ==> r[i] == LowerChar(s[i])
  {
    seq(|s|, i requires 0 <= i < |s| => LowerChar(s[i]))
  }

  /** Lower-casing a slice is slicing the lower-cased text. */
  lemma LowerSlice(s: string, a: nat, b: nat)
    requires a <= b <= |s|
    ensures Lower(s[a..b]) == Lower(s)[a..b]
  {
  }

  /** The characters Python's `str.isspace` accepts, which `str.strip()`
      removes from both ends. */
  predicate IsSpace(c: char)
  {
    var k := c as int;
    k == 32 || 9 <= k <= 13 || 28 <= k <= 31 || k == 0x85 || k == 0xA0 || k == 0x1680
    || 0x2000 <= k <= 0x200A || k == 0x2028 || k == 0x2029 || k == 0x202F || k == 0x205F
    || k == 0x3000
  }

  function TrimStart(s: string): string
  {
    if s != [] && IsSpace(s[0]) then TrimStart(s[1..]) else s
  }

  function TrimEnd(s: string): string
  {
    if s != [] && IsSpace(s[|s| - 1]) then TrimEnd(s[..|s| - 1]) else s
  }

  /** Python's `str.strip()`. */
  function Strip(s: string): string
  {
    TrimEnd(TrimStart(s))
  }

  lemma {:induction false} TrimStartBounds(s: string) returns (a: nat)
    ensures a <= |s| && TrimStart(s) == s[a..]
    ensures forall k :: 0 <= k < a ==> IsSpace(s[k])
    ensures a < |s| ==> !IsSpace(s[a])
  {
    if s != [] && IsSpace(s[0]) {
      var a' := TrimStartBounds(s[1..]);
      a := a' + 1;
      assert s[1..][a'..] == s[a..];
    } else {
      a := 0;
    }
  }

  lemma {:induction false} TrimEndBounds(s: string) returns (b: nat)
    ensures b <= |s| && TrimEnd(s) == s[..b]
    ensures forall k :: b <= k < |s| ==> IsSpace(s[k])
    ensures b > 0 ==> !IsSpace(s[b - 1])
  {
    if s != [] && IsSpace(s[|s| - 1]) {
      b := TrimEndBounds(s[..|s| - 1]);
      assert s[..|s| - 1][..b] == s[..b];
    } else {
      b := |s|;
    }
  }

  /** `str.strip()` keeps one slice of the text: what it removes on either
      side is whitespace, and what it keeps neither starts nor ends with
      whitespace. */
  lemma StripBounds(s: string) returns (a: nat, b: nat)
    ensures a <= b <= |s| && Strip(s) == s[a..b]
    ensures forall k :: 0 <= k < a ==> IsSpace(s[k])
    ensures forall k :: b <= k < |s| ==> IsSpace(s[k])
    ensures a < b ==> !IsSpace(s[a]) && !IsSpace(s[b - 1])
  {
    a := TrimStartBounds(s);
    var b' := TrimEndBounds(s[a..]);
    b := a + b';
    assert s[a..][..b'] == s[a..b];
    assert forall k :: b <= k < |s| ==> s[k] == s[a..][k - a];
  }

  /** One position of a search pattern: a literal character or `\d`. */
  datatype Atom = Char(c: char) | Digit

  predicate AtomMatches(x: Atom, c: char)
  {
    match x
    case Char(d) => c == d
    case Digit => '0' <= c <= '9'
  }

  /** The pattern matching exactly the characters of `s`. */
  function Lit(s: string): (pat: seq<Atom>)
    ensures |pat| == |s|
    ensures forall k :: 0 <= k < |s| ==> pat[k] == Char(s[k])
  {
    seq(|s|, k requires 0 <= k < |s| => Char(s[k]))
  }

  /** `pat` occurs in `s` starting at position `i`. */
  predicate MatchesAt(s: string, pat: seq<Atom>, i: int)
  {
    0 <= i && i + |pat| <= |s| && forall k :: 0 <= k < |pat| ==> AtomMatches(pat[k], s[i + k])
  }

  /** A regular-expression search for `pat`: it occurs somewhere in `s`. */
  predicate Contains(s: string, pat: seq<Atom>)
  {
    exists i | 0 <= i <= |s| :: MatchesAt(s, pat, i)
  }

  /** The search for `^pat`: `pat` occurs at the start of `s`. */
  predicate StartsWith(s: string, pat: seq<Atom>)
  {
    MatchesAt(s, pat, 0)
  }

  predicate SpacesAt(s: string, i: int, j: int)
  {
    0 <= i <= j <= |s| && forall k :: i <= k < j ==> s[k] == ' '
  }

  /** The search for ` *pat`: a run of zero or more spaces followed by `pat`
      occurs somewhere in `s`. */
  predicate SpacesThen(s: string, pat: seq<Atom>)
  {
    exists i, j | 0 <= i <= j <= |s| :: SpacesAt(s, i, j) && MatchesAt(s, pat, j)
  }

  /** Since the run of spaces may be empty, ` *pat` finds exactly what `pat`
      finds. */
  lemma SpacesThenIsContains(s: string, pat: seq<Atom>)
    ensures SpacesThen(s, pat) <==> Contains(s, pat)
  {
    if Contains(s, pat) {
      var i :| 0 <= i <= |s| && MatchesAt(s, pat, i);
      assert SpacesAt(s, i, i);
    }
  }

  /** A text containing `q + pat` contains `pat`. */
  lemma ContainsTail(s: string, q: seq<Atom>, pat: seq<Atom>)
    requires Contains(s, q + pat)
    ensures Contains(s, pat)
  {
    var i :| 0 <= i <= |s| && MatchesAt(s, q + pat, i);
    assert forall k :: 0 <= k < |pat| ==> (q + pat)[|q| + k] == pat[k];
    assert MatchesAt(s, pat, i + |q|);
  }

  /** A pattern longer than the text is not found in it. */
  lemma TooLongAbsent(s: string, pat: seq<Atom>)
    requires |s| < |pat|
    ensures !Contains(s, pat)
  {
  }

  /** A pattern starting with a character the text lacks is not found in
      it. */
  lemma FirstCharAbsent(s: string, pat: seq<Atom>)
    requires |pat| > 0 && pat[0].Char?
    requires forall k :: 0 <= k < |s| ==> s[k] != pat[0].c
    ensures !Contains(s, pat)
  {
    forall i | 0 <= i <= |s|
      ensures !MatchesAt(s, pat, i)
    {
      if i < |s| {
        assert !AtomMatches(pat[0], s[i + 0]);
      }
    }
  }

  /** A pattern none of whose positions can match whitespace. */
  predicate Solid(pat: seq<Atom>)
  {
    forall k :: 0 <= k < |pat| ==> pat[k].Digit? || !IsSpace(pat[k].c)
  }

  /** Searching a text for a non-empty solid pattern gives the same answer
      when whitespace is cut from both ends of the text. */
  lemma ContainsInCore(t: string, a: nat, b: nat, pat: seq<Atom>)
    requires a <= b <= |t|
    requires forall k :: 0 <= k < a ==> IsSpace(t[k])
    requires forall k :: b <= k < |t| ==> IsSpace(t[k])
    requires |pat| > 0 && Solid(pat)
    ensures Contains(t[a..b], pat) <==> Contains(t, pat)
  {
    if Contains(t[a..b], pat) {
      var i :| 0 <= i <= b - a && MatchesAt(t[a..b], pat, i);
      assert forall k :: 0 <= k < |pat| ==> AtomMatches(pat[k], t[a..b][i + k]) == AtomMatches(pat[k], t[a + i + k]);
      assert MatchesAt(t, pat, a + i);
    }
    if Contains(t, pat) {
      var i :| 0 <= i <= |t| && MatchesAt(t, pat, i);
      var e := i + |pat| - 1;
      assert AtomMatches(pat[0], t[i]) && AtomMatches(pat[|pat| - 1], t[e]);
      assert !IsSpace(t[i]) && !IsSpace(t[e]);
      assert a <= i && e < b;
      assert forall k :: 0 <= k < |pat| ==> AtomMatches(pat[k], t[a..b][i - a + k]) == AtomMatches(pat[k], t[i + k]);
      assert MatchesAt(t[a..b], pat, i - a);
    }
  }

  /** A case-insensitive search for a non-empty solid pattern finds the same
      in a text and in the text stripped of surrounding whitespace. */
  lemma StripKeepsSearch(s: string, pat: seq<Atom>)
    requires |pat| > 0 && Solid(pat)
    ensures Contains(Lower(Strip(s)), pat) <==> Contains(Lower(s), pat)
  {
    var a, b := StripBounds(s);
    LowerSlice(s, a, b);
    ContainsInCore(Lower(s), a, b, pat);
  }
}
