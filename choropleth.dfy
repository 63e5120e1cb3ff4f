/** The fill colour `style_function` gives one map feature: a sentinel grey,
    one of eight palette colours chosen by the half-open interval of the bin
    edges the salary falls in, or "black" when no test holds. The edges are
    taken as given (they come from `np.linspace` between the smallest and the
    largest salary). */
module Choropleth {

  /** `choropleth_colors`, from the lightest to the darkest. */
  const Palette: seq<string> := ["#fff7ec", "#fee8c8", "#fdd49e", "#fdbb84", "#fc8d59", "#ef6548", "#d7301f", "#990000"]

  /** The grey of a feature without data. */
  const NoData: string := "#d9d9d9"

  /** The colour when no interval test holds. */
  const Outside: string := "black"

  /** The tests from the `k`-th on: `bins[k] <= sal < bins[k + 1]` gives
      colour `k`, and after the seventh, `sal >= bins[7]` gives colour 7. */
  function ShadeFrom(sal: real, bins: seq<real>, k: nat): (colour: string)
    requires |bins| == 8 && k <= 7
    ensures colour == Outside || colour in Palette[k..]
    decreases 7 - k
  {
    if k == 7 then (if sal >= bins[7] then Palette[7] else Outside)
    else if bins[k] <= sal < bins[k + 1] then Palette[k]
    else ShadeFrom(sal, bins, k + 1)
  }

  /** The chain of interval tests of `style_function`, lines 166-174 and
      439-447. */
  function Shade(sal: real, bins: seq<real>): (colour: string)
    requires |bins| == 8
    ensures colour == Outside || colour in Palette
  {
    ShadeFrom(sal, bins, 0)
  }

  /** Lines 158-174: the county map. Its first test compares with NaN, which
      never holds, so the grey of a feature without data is never chosen:
      every county gets a palette colour or "black". */
  function CountyFill(sal: real, bins: seq<real>): (colour: string)
    requires |bins| == 8
    ensures colour != NoData
    ensures colour == Outside || colour in Palette
  {
    Shade(sal, bins)
  }

  /** Lines 431-447: the district map, where a salary of 0 (a district with
      no cohort rows) is grey. */
  function DistrictFill(sal: real, bins: seq<real>): (colour: string)
    requires |bins| == 8
    ensures sal == 0.0 <==> colour == NoData
  {
    if sal == 0.0 then NoData else Shade(sal, bins)
  }

  predicate Sorted(bins: seq<real>)
  {
    forall i, j :: 0 <= i <= j < |bins| ==> bins[i] <= bins[j]
  }

  /** The number of bin edges at or below `sal`: the reference definition of
      a salary's bucket. */
  function EdgesAtMost(sal: real, bins: seq<real>): nat
  {
    if bins == [] then 0
    else EdgesAtMost(sal, bins[..|bins| - 1]) + (if bins[|bins| - 1] <= sal then 1 else 0)
  }

  /** With sorted edges, the edges at or below `sal` are the first `c`,
      where `c` is the place of `sal` among them. */
  lemma {:induction false} SortedEdgeCount(sal: real, bins: seq<real>, c: nat)
    requires Sorted(bins) && c <= |bins|
    requires c == 0 || bins[c - 1] <= sal
    requires c == |bins| || sal < bins[c]
    ensures EdgesAtMost(sal, bins) == c
  {
    if bins != [] {
      var n := |bins| - 1;
      var init := bins[..n];
      if c == |bins| {
        SortedEdgeCount(sal, init, n);
      } else {
        SortedEdgeCount(sal, init, c);
      }
    }
  }

  /** Tests that fail from the `j`-th to the `m`-th hand the choice on. */
  lemma {:induction false} ShadeSkips(sal: real, bins: seq<real>, j: nat, m: nat)
    requires |bins| == 8 && j <= m <= 7
    requires forall i :: j <= i < m ==> !(bins[i] <= sal < bins[i + 1])
    ensures ShadeFrom(sal, bins, j) == ShadeFrom(sal, bins, m)
    decreases m - j
  {
    if j < m {
      ShadeSkips(sal, bins, j + 1, m);
    }
  }

  /** With sorted edges, a salary in `[bins[k], bins[k + 1])` takes colour
      `k`. */
  lemma ShadeInterval(sal: real, bins: seq<real>, k: nat)
    requires |bins| == 8 && Sorted(bins) && k < 7
    requires bins[k] <= sal < bins[k + 1]
    ensures Shade(sal, bins) == Palette[k]
  {
    forall i | 0 <= i < k
      ensures !(bins[i] <= sal < bins[i + 1])
    {
      assert bins[i + 1] <= bins[k];
    }
    ShadeSkips(sal, bins, 0, k);
  }

  /** With sorted edges, a salary at or above the last edge takes the
      darkest colour. */
  lemma ShadeTop(sal: real, bins: seq<real>)
    requires |bins| == 8 && Sorted(bins) && sal >= bins[7]
    ensures Shade(sal, bins) == Palette[7]
  {
    forall i | 0 <= i < 7
      ensures !(bins[i] <= sal < bins[i + 1])
    {
      assert bins[i + 1] <= bins[7];
    }
    ShadeSkips(sal, bins, 0, 7);
  }

  /** With sorted edges, a salary below the first edge is "black". */
  lemma ShadeBelow(sal: real, bins: seq<real>)
    requires |bins| == 8 && Sorted(bins) && sal < bins[0]
    ensures Shade(sal, bins) == Outside
  {
    forall i | 0 <= i < 7
      ensures !(bins[i] <= sal < bins[i + 1])
    {
      assert bins[0] <= bins[i];
    }
    ShadeSkips(sal, bins, 0, 7);
  }

  /** A salary between the first and the last edge lies in one of the
      seven intervals from the `k`-th on. */
  lemma {:induction false} FindInterval(sal: real, bins: seq<real>, k: nat) returns (m: nat)
    requires |bins| == 8 && k < 7 && bins[k] <= sal < bins[7]
    ensures k <= m < 7 && bins[m] <= sal < bins[m + 1]
    decreases 7 - k
  {
    if sal < bins[k + 1] {
      m := k;
    } else {
      m := FindInterval(sal, bins, k + 1);
    }
  }

  /** With sorted edges the interval chain agrees with the reference: no
      edge at or below the salary gives "black", and `c` of them give
      colour `c - 1`. */
  lemma ShadeIsBucket(sal: real, bins: seq<real>)
    requires |bins| == 8 && Sorted(bins)
    ensures var c := EdgesAtMost(sal, bins);
            c <= 8 && Shade(sal, bins) == if c == 0 then Outside else Palette[c - 1]
  {
    if sal < bins[0] {
      SortedEdgeCount(sal, bins, 0);
      ShadeBelow(sal, bins);
    } else if sal >= bins[7] {
      SortedEdgeCount(sal, bins, 8);
      ShadeTop(sal, bins);
    } else {
      var m := FindInterval(sal, bins, 0);
      SortedEdgeCount(sal, bins, m + 1);
      ShadeInterval(sal, bins, m);
    }
  }

  /** With sorted edges, a salary at or above the first edge is never
      "black": with edges from the smallest salary up, every feature gets a
      palette colour. */
  lemma ShadeInPalette(sal: real, bins: seq<real>)
    requires |bins| == 8 && Sorted(bins) && bins[0] <= sal
    ensures Shade(sal, bins) in Palette
  {
    if sal >= bins[7] {
      ShadeTop(sal, bins);
    } else {
      var m := FindInterval(sal, bins, 0);
      ShadeInterval(sal, bins, m);
    }
  }
}
