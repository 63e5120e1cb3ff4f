/** `groupby(name).mean()` followed by `sort_values(ascending = False)` and
    `reset_index()`: the mean salary of every unit that has kept rows, the
    units in descending order of mean, each with its position in that order.
    The order among equal means is left open, as pandas' default sort does
    not fix it. */
module Aggregator {
  import opened Tables
  import opened Records

  /** The sum of the salaries observed for `name`. */
  function Total(obs: seq<Observation>, name: string): int
  {
    if obs == [] then 0
    else Total(obs[..|obs| - 1], name) + (if obs[|obs| - 1].name == name then obs[|obs| - 1].salary else 0)
  }

  /** The number of salaries observed for `name`. */
  function Count(obs: seq<Observation>, name: string): nat
  {
    if obs == [] then 0
    else Count(obs[..|obs| - 1], name) + (if obs[|obs| - 1].name == name then 1 else 0)
  }

  /** The units that have at least one observation: the groups. */
  function Names(obs: seq<Observation>): set<string>
  {
    if obs == [] then {} else Names(obs[..|obs| - 1]) + {obs[|obs| - 1].name}
  }

  /** The mean salary of a unit with observations. */
  function Mean(obs: seq<Observation>, name: string): real
    requires Count(obs, name) > 0
  {
    Total(obs, name) as real / Count(obs, name) as real
  }

  /** A unit has observations exactly when it is one of the groups; a unit
      without any has nothing to add up. */
  lemma {:induction false} CountPositive(obs: seq<Observation>, name: string)
    ensures Count(obs, name) > 0 <==> name in Names(obs)
    ensures Count(obs, name) == 0 ==> Total(obs, name) == 0
  {
    if obs != [] {
      var init := obs[..|obs| - 1];
      CountPositive(init, name);
    }
  }

  /** Salaries between `lo` and `hi` add up to between `lo` and `hi` times
      their number. */
  lemma {:induction false} TotalBounds(obs: seq<Observation>, name: string, lo: int, hi: int)
    requires forall o :: o in obs && o.name == name ==> lo <= o.salary <= hi
    ensures lo * Count(obs, name) <= Total(obs, name) <= hi * Count(obs, name)
  {
    if obs != [] {
      var init, last := obs[..|obs| - 1], obs[|obs| - 1];
      assert forall o :: o in init ==> o in obs;
      TotalBounds(init, name, lo, hi);
      var c, t := Count(init, name), Total(init, name);
      if last.name == name {
        assert last in obs;
        assert Count(obs, name) == c + 1 && Total(obs, name) == t + last.salary;
        assert lo * (c + 1) == lo * c + lo;
        assert hi * (c + 1) == hi * c + hi;
      }
    }
  }

  /** A mean lies between the smallest and the largest salary it averages. */
  lemma MeanBounds(obs: seq<Observation>, name: string, lo: int, hi: int)
    requires Count(obs, name) > 0
    requires forall o :: o in obs && o.name == name ==> lo <= o.salary <= hi
    ensures lo as real <= Mean(obs, name) <= hi as real
  {
    TotalBounds(obs, name, lo, hi);
    var t, c := Total(obs, name) as real, Count(obs, name) as real;
    assert lo as real * c <= t <= hi as real * c;
    QuotientBounds(t, c, lo as real, hi as real);
  }

  lemma QuotientBounds(t: real, c: real, lo: real, hi: real)
    requires c > 0.0 && lo * c <= t <= hi * c
    ensures lo <= t / c <= hi
  {
    var q := t / c;
    assert q * c == t;
    assert (q - lo) * c == t - lo * c;
    assert (hi - q) * c == hi * c - t;
  }

  /** One unit's mean salary. */
  datatype Group = Group(name: string, mean: real)

  /** The running sums and counts of `groupby`, one entry per unit, and
      the units in order of first appearance. */
  method Tally(obs: seq<Observation>) returns (sums: map<string, int>, counts: map<string, nat>, order: seq<string>)
    ensures sums.Keys == counts.Keys == Names(obs)
    ensures forall n :: n in sums ==> sums[n] == Total(obs, n) && counts[n] == Count(obs, n) && counts[n] > 0
    ensures forall j, k :: 0 <= j < k < |order| ==> order[j] != order[k]
    ensures forall n :: n in order <==> n in sums
  {
    sums, counts, order := map[], map[], [];
    var i := 0;
    while i < |obs|
      invariant 0 <= i <= |obs|
      invariant sums.Keys == counts.Keys == Names(obs[..i])
      invariant forall n :: n in sums ==> sums[n] == Total(obs[..i], n) && counts[n] == Count(obs[..i], n)
      invariant forall n :: n in counts ==> counts[n] > 0
      invariant forall j, k :: 0 <= j < k < |order| ==> order[j] != order[k]
      invariant forall n :: n in order <==> n in sums
    {
      var o := obs[i];
      ObserveOne(obs, i);
      if o.name in sums {
        sums := sums[o.name := sums[o.name] + o.salary];
        counts := counts[o.name := counts[o.name] + 1];
      } else {
        CountPositive(obs[..i], o.name);
        sums := sums[o.name := o.salary];
        counts := counts[o.name := 1];
        order := order + [o.name];
      }
      i := i + 1;
    }
    assert obs[..i] == obs;
  }

  /** `groupby(name).mean()`: one group per unit with observations, carrying
      the sum of the unit's salaries divided by their number. The groups come
      in order of first appearance; the ranking below does not depend on it. */
  method GroupMeans(obs: seq<Observation>) returns (groups: seq<Group>)
    ensures forall i, j :: 0 <= i < j < |groups| ==> groups[i].name != groups[j].name
    ensures forall n :: n in Names(obs) <==> exists g :: g in groups && g.name == n
    ensures forall g :: g in groups ==> Count(obs, g.name) > 0 && g.mean == Mean(obs, g.name)
  {
    var sums, counts, order := Tally(obs);
    groups := seq(|order|, k requires 0 <= k < |order| => Group(order[k], sums[order[k]] as real / counts[order[k]] as real));
    forall n | n in Names(obs)
      ensures exists g :: g in groups && g.name == n
    {
      var k :| 0 <= k < |order| && order[k] == n;
      assert groups[k] in groups;
    }
  }

  /** One more observation adds to its own unit's sum and count only. */
  lemma ObserveOne(obs: seq<Observation>, i: nat)
    requires i < |obs|
    ensures Names(obs[..i + 1]) == Names(obs[..i]) + {obs[i].name}
    ensures forall n :: Total(obs[..i + 1], n) == Total(obs[..i], n) + (if obs[i].name == n then obs[i].salary else 0)
    ensures forall n :: Count(obs[..i + 1], n) == Count(obs[..i], n) + (if obs[i].name == n then 1 else 0)
  {
    assert obs[..i + 1][..i] == obs[..i];
    assert obs[..i + 1] == obs[..i] + [obs[i]];
  }

  /** The groups in descending order of mean. */
  predicate Descending(gs: seq<Group>)
  {
    forall i, j :: 0 <= i < j < |gs| ==> gs[i].mean >= gs[j].mean
  }

  /** `g` placed into a descending sequence, after every group whose mean
      is at least its own. */
  function Insert(s: seq<Group>, g: Group): (r: seq<Group>)
    requires Descending(s)
    ensures Descending(r)
    ensures multiset(r) == multiset(s) + multiset{g}
  {
    if s == [] then [g]
    else if s[0].mean >= g.mean then
      var t := Insert(s[1..], g);
      InsertBelowHead(s, g, t);
      [s[0]] + t
    else
      PrependDescending(g, s);
      [g] + s
  }

  lemma InsertBelowHead(s: seq<Group>, g: Group, t: seq<Group>)
    requires Descending(s) && s != [] && s[0].mean >= g.mean
    requires Descending(t) && multiset(t) == multiset(s[1..]) + multiset{g}
    ensures Descending([s[0]] + t)
    ensures multiset([s[0]] + t) == multiset(s) + multiset{g}
  {
    assert s == [s[0]] + s[1..];
    forall x | x in t
      ensures s[0].mean >= x.mean
    {
      assert x in multiset(t);
    }
    PrependDescending(s[0], t);
  }

  lemma PrependDescending(x: Group, t: seq<Group>)
    requires Descending(t)
    requires (forall y :: y in t ==> x.mean >= y.mean) || (t != [] && x.mean >= t[0].mean)
    ensures Descending([x] + t)
  {
    if t != [] && x.mean >= t[0].mean {
      forall y | y in t
        ensures x.mean >= y.mean
      {
        var k :| 0 <= k < |t| && t[k] == y;
      }
    }
    forall i, j | 0 <= i < j < |t| + 1
      ensures ([x] + t)[i].mean >= ([x] + t)[j].mean
    {
      assert ([x] + t)[j] == t[j - 1];
      if i > 0 {
        assert ([x] + t)[i] == t[i - 1];
      }
    }
  }

  /** A group with its `salary_rank` column: its position, from 0, in the
      descending order. */
  datatype Ranked = Ranked(name: string, mean: real, index: nat)

  function Unranked(r: Ranked): Group
  {
    Group(r.name, r.mean)
  }

  /** `sort_values(by = "salary", ascending = False).reset_index()
      .reset_index()`: the same groups, in descending order of mean, each
      numbered by its position. */
  method RankDescending(groups: seq<Group>) returns (ranked: seq<Ranked>)
    ensures |ranked| == |groups|
    ensures multiset(Map(ranked, Unranked)) == multiset(groups)
    ensures forall i :: 0 <= i < |ranked| ==> ranked[i].index == i
    ensures forall i, j :: 0 <= i < j < |ranked| ==> ranked[i].mean >= ranked[j].mean
  {
    var sorted: seq<Group> := [];
    var i := 0;
    while i < |groups|
      invariant 0 <= i <= |groups|
      invariant Descending(sorted)
      invariant multiset(sorted) == multiset(groups[..i])
    {
      assert groups[..i + 1] == groups[..i] + [groups[i]];
      sorted := Insert(sorted, groups[i]);
      i := i + 1;
    }
    assert groups[..i] == groups;
    assert |sorted| == |multiset(sorted)| == |multiset(groups)| == |groups|;
    ranked := seq(|sorted|, k requires 0 <= k < |sorted| => Ranked(sorted[k].name, sorted[k].mean, k));
    assert Map(ranked, Unranked) == sorted;
  }

  /** In a sequence of distinct elements each element occurs at most once. */
  lemma {:induction false} DistinctOnce<T>(s: seq<T>, x: T)
    requires forall i, j :: 0 <= i < j < |s| ==> s[i] != s[j]
    ensures multiset(s)[x] <= 1
  {
    if s != [] {
      var init, last := s[..|s| - 1], s[|s| - 1];
      DistinctOnce(init, x);
      assert s == init + [last];
      assert multiset(s) == multiset(init) + multiset{last};
      if x == last {
        assert x !in init;
      }
    }
  }

  /** An element found at two positions occurs at least twice. */
  lemma TwiceFound<T>(s: seq<T>, i: nat, j: nat)
    requires i < j < |s| && s[i] == s[j]
    ensures multiset(s)[s[i]] >= 2
  {
    assert s == s[..j] + [s[j]] + s[j + 1..];
    assert s[..j][i] == s[i];
    assert multiset(s) == multiset(s[..j]) + multiset{s[j]} + multiset(s[j + 1..]);
  }

  /** A ranking of groups with distinct names holds the same groups, and
      their names are still distinct. */
  lemma RankingKeepsGroups(groups: seq<Group>, ranked: seq<Ranked>)
    requires forall i, j :: 0 <= i < j < |groups| ==> groups[i].name != groups[j].name
    requires multiset(Map(ranked, Unranked)) == multiset(groups)
    ensures forall r :: r in ranked ==> Unranked(r) in groups
    ensures forall g :: g in groups ==> exists r :: r in ranked && Unranked(r) == g
    ensures forall i, j :: 0 <= i < j < |ranked| ==> ranked[i].name != ranked[j].name
  {
    var us := Map(ranked, Unranked);
    MapMembers(ranked, Unranked);
    forall r | r in ranked
      ensures Unranked(r) in groups
    {
      assert Unranked(r) in multiset(us);
    }
    forall g | g in groups
      ensures exists r :: r in ranked && Unranked(r) == g
    {
      assert g in multiset(us);
    }
    forall i, j | 0 <= i < j < |ranked|
      ensures ranked[i].name != ranked[j].name
    {
      if ranked[i].name == ranked[j].name {
        assert ranked[i] in ranked && ranked[j] in ranked;
        var a :| 0 <= a < |groups| && groups[a] == us[i];
        var b :| 0 <= b < |groups| && groups[b] == us[j];
        assert a == b;
        TwiceFound(us, i, j);
        DistinctOnce(groups, us[i]);
      }
    }
  }

  /** Two descending orders of the same non-empty groups start with the
      same mean: the largest. */
  lemma HeadMeans(a: seq<Group>, b: seq<Group>)
    requires Descending(a) && Descending(b) && multiset(a) == multiset(b) && a != []
    ensures b != [] && a[0].mean == b[0].mean
  {
    assert a[0] in multiset(b);
    var j :| 0 <= j < |b| && b[j] == a[0];
    assert b[0] in multiset(a);
    var k :| 0 <= k < |a| && a[k] == b[0];
    assert a[0].mean >= a[k].mean;
    assert b[0].mean >= b[j].mean;
  }

  /** Removing one group keeps a descending order descending. */
  lemma DescendingRemove(b: seq<Group>, j: nat)
    requires Descending(b) && j < |b|
    ensures Descending(b[..j] + b[j + 1..])
  {
    var b' := b[..j] + b[j + 1..];
    forall x, y | 0 <= x < y < |b'|
      ensures b'[x].mean >= b'[y].mean
    {
      var x' := if x < j then x else x + 1;
      var y' := if y < j then y else y + 1;
      assert b'[x] == b[x'] && b'[y] == b[y'];
    }
  }

  /** Removing from a descending order a group whose mean is the first
      one's shifts every later mean one place forward unchanged. */
  lemma RemovedHeadMean(b: seq<Group>, j: nat, i: nat)
    requires Descending(b) && j < |b| && b[j].mean == b[0].mean && 0 < i < |b|
    ensures (b[..j] + b[j + 1..])[i - 1].mean == b[i].mean
  {
    var b' := b[..j] + b[j + 1..];
    if i - 1 < j {
      assert b'[i - 1] == b[i - 1];
      assert b[0].mean >= b[i - 1].mean >= b[i].mean >= b[j].mean;
    } else {
      assert b'[i - 1] == b[i];
    }
  }

  /** Taking the same group out of two orders of the same groups leaves two
      orders of the same groups. */
  lemma RemoveSame(a: seq<Group>, b: seq<Group>, j: nat)
    requires multiset(a) == multiset(b) && a != [] && j < |b| && b[j] == a[0]
    ensures multiset(a[1..]) == multiset(b[..j] + b[j + 1..])
  {
    assert b == b[..j] + [b[j]] + b[j + 1..];
    assert multiset(b) == multiset(b[..j]) + multiset{b[j]} + multiset(b[j + 1..]);
    assert multiset(b[..j] + b[j + 1..]) == multiset(b[..j]) + multiset(b[j + 1..]);
    assert a == [a[0]] + a[1..];
    assert multiset(a) == multiset{a[0]} + multiset(a[1..]);
    assert multiset(a[1..]) == multiset(a) - multiset{a[0]};
    assert multiset(b[..j] + b[j + 1..]) == multiset(b) - multiset{b[j]};
  }

  /** Two descending orders of the same groups put equal means at every
      position: however pandas breaks ties, the k-th rank carries the same
      mean. */
  lemma {:induction false} RankedMeansDetermined(a: seq<Group>, b: seq<Group>)
    requires Descending(a) && Descending(b) && multiset(a) == multiset(b)
    ensures |a| == |b|
    ensures forall i :: 0 <= i < |a| ==> a[i].mean == b[i].mean
  {
    assert |a| == |multiset(a)| == |multiset(b)| == |b|;
    if a != [] {
      HeadMeans(a, b);
      assert a[0] in multiset(b);
      var j :| 0 <= j < |b| && b[j] == a[0];
      var b' := b[..j] + b[j + 1..];
      RemoveSame(a, b, j);
      DescendingRemove(b, j);
      RankedMeansDetermined(a[1..], b');
      forall i | 0 < i < |a|
        ensures a[i].mean == b[i].mean
      {
        assert a[i] == a[1..][i - 1];
        RemovedHeadMean(b, j, i);
      }
    }
  }
}
