/** The row-table operations the notebook takes from pandas: a boolean-mask
    row selection (`df[mask]`), a column computed row by row, and
    `merge(how = "left")`. Tables are sequences of rows in row order.
    Every recursive definition here peels the LAST row, so that a property of
    `s[..i + 1]` unfolds to one of `s[..i]`. */
module Tables {

  datatype Option<T> = None | Some(value: T)

  /** `df[mask]`: the rows satisfying `p`, in their original order. */
  function Filter<T(!new)>(s: seq<T>, p: T -> bool): (r: seq<T>)
    ensures |r| <= |s|
    ensures forall x :: x in r <==> x in s && p(x)
  {
    if s == [] then []
    else
      var init := Filter(s[..|s| - 1], p);
      assert s == s[..|s| - 1] + [s[|s| - 1]];
      if p(s[|s| - 1]) then init + [s[|s| - 1]] else init
  }

  /** Filtering a concatenation filters each part and keeps them in order:
      a row selection removes rows and never reorders the ones it keeps. */
  lemma {:induction false} FilterConcat<T(!new)>(a: seq<T>, b: seq<T>, p: T -> bool)
    ensures Filter(a + b, p) == Filter(a, p) + Filter(b, p)
  {
    if b == [] {
      assert a + b == a;
    } else {
      var b0, x := b[..|b| - 1], b[|b| - 1];
      FilterConcat(a, b0, p);
      assert (a + b)[..|a + b| - 1] == a + b0;
      assert (a + b)[|a + b| - 1] == x;
      if p(x) {
        assert Filter(a + b, p) == Filter(a + b0, p) + [x];
        assert Filter(b, p) == Filter(b0, p) + [x];
      } else {
        assert Filter(a + b, p) == Filter(a + b0, p);
        assert Filter(b, p) == Filter(b0, p);
      }
    }
  }

  /** A selection whose mask holds on every row keeps the table as it is. */
  lemma {:induction false} FilterKeepsAll<T(!new)>(s: seq<T>, p: T -> bool)
    requires forall x :: x in s ==> p(x)
    ensures Filter(s, p) == s
  {
    if s != [] {
      FilterKeepsAll(s[..|s| - 1], p);
      assert s == s[..|s| - 1] + [s[|s| - 1]];
    }
  }

  /** A selection whose mask holds on no row keeps nothing. */
  lemma FilterNoneKept<T(!new)>(s: seq<T>, p: T -> bool)
    requires forall x :: x in s ==> !p(x)
    ensures Filter(s, p) == []
  {
  }

  /** A computed column: `f` applied to every row, in row order. */
  function Map<A, B>(s: seq<A>, f: A -> B): (r: seq<B>)
    ensures |r| == |s|
    ensures forall i :: 0 <= i < |s| ==> r[i] == f(s[i])
  {
    seq(|s|, i requires 0 <= i < |s| => f(s[i]))
  }

  /** The rows of a computed column are the images of the input rows. */
  lemma MapMembers<A, B>(s: seq<A>, f: A -> B)
    ensures forall x :: x in s ==> f(x) in Map(s, f)
    ensures forall y :: y in Map(s, f) ==> exists x :: x in s && y == f(x)
  {
    forall x | x in s
      ensures f(x) in Map(s, f)
    {
      var i :| 0 <= i < |s| && s[i] == x;
      assert Map(s, f)[i] == f(x);
    }
  }

  /** An input row's image is a row of the computed column. */
  lemma MapHas<A, B>(s: seq<A>, f: A -> B, x: A)
    requires x in s
    ensures f(x) in Map(s, f)
  {
    var i :| 0 <= i < |s| && s[i] == x;
    assert Map(s, f)[i] == f(x);
  }

  /** The input row a row of a computed column comes from. */
  lemma MapOrigin<A, B>(s: seq<A>, f: A -> B, y: B) returns (x: A)
    requires y in Map(s, f)
    ensures x in s && y == f(x)
  {
    var i :| 0 <= i < |Map(s, f)| && Map(s, f)[i] == y;
    x := s[i];
  }

  /** A row-wise conversion that may drop rows: the rows where `f` gives a
      value, converted, in order. */
  function Choose<A(!new), B(!new)>(s: seq<A>, f: A -> Option<B>): (r: seq<B>)
    ensures |r| <= |s|
    ensures forall y :: y in r <==> exists x :: x in s && f(x) == Some(y)
  {
    if s == [] then []
    else
      var init := Choose(s[..|s| - 1], f);
      assert s == s[..|s| - 1] + [s[|s| - 1]];
      match f(s[|s| - 1])
      case Some(y) => init + [y]
      case None => init
  }

  /** When `f` gives a value on every row, nothing is dropped and the rows
      keep their positions. */
  lemma {:induction false} ChooseKeepsAll<A(!new), B(!new)>(s: seq<A>, f: A -> Option<B>)
    requires forall x :: x in s ==> f(x).Some?
    ensures |Choose(s, f)| == |s|
    ensures forall i :: 0 <= i < |s| ==> Choose(s, f)[i] == f(s[i]).value
  {
    if s != [] {
      var init, last := s[..|s| - 1], s[|s| - 1];
      assert forall x :: x in init ==> x in s;
      ChooseKeepsAll(init, f);
      assert last in s;
      var r := Choose(s, f);
      assert r == Choose(init, f) + [f(last).value];
      forall i | 0 <= i < |s|
        ensures r[i] == f(s[i]).value
      {
        if i < |init| {
          assert r[i] == Choose(init, f)[i] && s[i] == init[i];
        }
      }
    }
  }

  /** A row on which `f` gives a value contributes that value. */
  lemma ChooseHas<A(!new), B(!new)>(s: seq<A>, f: A -> Option<B>, x: A)
    requires x in s && f(x).Some?
    ensures f(x).value in Choose(s, f)
  {
  }

  /** The join condition with its left row fixed. */
  function MatchesOf<L, R>(l: L, on: (L, R) -> bool): R -> bool
  {
    r => on(l, r)
  }

  /** The rows `merge(how = "left")` emits for one left row: one per
      matching right row, in right-table order, or a single row with no
      right part when nothing matches. */
  function JoinRow<L(!new), R(!new)>(l: L, rs: seq<R>, on: (L, R) -> bool): seq<(L, Option<R>)>
  {
    var ms := Filter(rs, MatchesOf(l, on));
    if ms == [] then [(l, None)] else Map(ms, r => (l, Some(r)))
  }

  /** `left.merge(right, how = "left")` with the join condition `on`: the
      rows of every left row, in left-table order. */
  function LeftJoin<L(!new), R(!new)>(ls: seq<L>, rs: seq<R>, on: (L, R) -> bool): seq<(L, Option<R>)>
  {
    if ls == [] then [] else LeftJoin(ls[..|ls| - 1], rs, on) + JoinRow(ls[|ls| - 1], rs, on)
  }

  /** Every row of a left join carries a left row, and either a right row
      that matches it or, only when no right row matches it, none. */
  lemma {:induction false} LeftJoinSound<L(!new), R(!new)>(ls: seq<L>, rs: seq<R>, on: (L, R) -> bool)
    ensures forall p :: p in LeftJoin(ls, rs, on) ==> p.0 in ls
    ensures forall p :: p in LeftJoin(ls, rs, on) && p.1.Some? ==> p.1.value in rs && on(p.0, p.1.value)
    ensures forall p, r :: p in LeftJoin(ls, rs, on) && p.1.None? && r in rs ==> !on(p.0, r)
  {
    if ls != [] {
      var init, l := ls[..|ls| - 1], ls[|ls| - 1];
      LeftJoinSound(init, rs, on);
      var ms := Filter(rs, MatchesOf(l, on));
      assert forall r :: r in rs && on(l, r) ==> r in ms;
      assert forall p :: p in JoinRow(l, rs, on) ==> p.0 == l && (p.1.Some? ==> p.1.value in ms) && (p.1.None? ==> ms == []);
      assert ls == init + [l];
      var rows := LeftJoin(ls, rs, on);
      assert rows == LeftJoin(init, rs, on) + JoinRow(l, rs, on);
      forall p | p in rows
        ensures p.0 in ls
        ensures p.1.Some? ==> p.1.value in rs && on(p.0, p.1.value)
        ensures p.1.None? ==> forall r :: r in rs ==> !on(p.0, r)
      {
        if p !in LeftJoin(init, rs, on) {
          assert p in JoinRow(l, rs, on);
        }
      }
    }
  }

  /** A left join drops no left row, and it pairs every left row with every
      right row that matches it. */
  lemma {:induction false} LeftJoinComplete<L(!new), R(!new)>(ls: seq<L>, rs: seq<R>, on: (L, R) -> bool)
    ensures forall l :: l in ls ==> exists p :: p in LeftJoin(ls, rs, on) && p.0 == l
    ensures forall l, r :: l in ls && r in rs && on(l, r) ==> (l, Some(r)) in LeftJoin(ls, rs, on)
  {
    if ls != [] {
      var init, l := ls[..|ls| - 1], ls[|ls| - 1];
      LeftJoinComplete(init, rs, on);
      var ms := Filter(rs, MatchesOf(l, on));
      var last := JoinRow(l, rs, on);
      assert last[0].0 == l;
      assert forall r :: r in rs && on(l, r) ==> r in ms && (l, Some(r)) in last;
      assert ls == init + [l];
    }
  }

  /** `LeftJoinSound` for one row of the join. */
  lemma LeftJoinRow<L(!new), R(!new)>(ls: seq<L>, rs: seq<R>, on: (L, R) -> bool, p: (L, Option<R>))
    requires p in LeftJoin(ls, rs, on)
    ensures p.0 in ls
    ensures p.1.Some? ==> p.1.value in rs && on(p.0, p.1.value)
    ensures p.1.None? ==> forall r :: r in rs ==> !on(p.0, r)
  {
    LeftJoinSound(ls, rs, on);
  }

  /** `LeftJoinComplete` for one left row. */
  lemma LeftJoinKeeps<L(!new), R(!new)>(ls: seq<L>, rs: seq<R>, on: (L, R) -> bool, l: L) returns (p: (L, Option<R>))
    requires l in ls
    ensures p in LeftJoin(ls, rs, on) && p.0 == l
  {
    LeftJoinComplete(ls, rs, on);
    p :| p in LeftJoin(ls, rs, on) && p.0 == l;
  }

  /** `LeftJoinComplete` for one matching pair. */
  lemma LeftJoinPairs<L(!new), R(!new)>(ls: seq<L>, rs: seq<R>, on: (L, R) -> bool, l: L, r: R)
    requires l in ls && r in rs && on(l, r)
    ensures (l, Some(r)) in LeftJoin(ls, rs, on)
  {
    LeftJoinComplete(ls, rs, on);
  }

  /** A right table whose rows match at most one row each. */
  predicate AtMostOneMatch<L(!new), R(!new)>(l: L, rs: seq<R>, on: (L, R) -> bool)
  {
    forall i, j :: 0 <= i < j < |rs| && on(l, rs[i]) ==> !on(l, rs[j])
  }

  lemma {:induction false} FilterAtMostOne<L(!new), R(!new)>(l: L, rs: seq<R>, on: (L, R) -> bool)
    requires AtMostOneMatch(l, rs, on)
    ensures |Filter(rs, MatchesOf(l, on))| <= 1
  {
    if rs != [] {
      var init, last := rs[..|rs| - 1], rs[|rs| - 1];
      assert AtMostOneMatch(l, init, on);
      FilterAtMostOne(l, init, on);
      var q := MatchesOf(l, on);
      var fi := Filter(init, q);
      if q(last) {
        forall x | x in init
          ensures !q(x)
        {
          var i :| 0 <= i < |init| && init[i] == x;
          assert rs[i] == x;
        }
        FilterNoneKept(init, q);
      }
    }
  }

  lemma JoinRowOne<L(!new), R(!new)>(l: L, rs: seq<R>, on: (L, R) -> bool)
    requires AtMostOneMatch(l, rs, on)
    ensures |JoinRow(l, rs, on)| == 1 && JoinRow(l, rs, on)[0].0 == l
  {
    FilterAtMostOne(l, rs, on);
  }

  /** Left-join semantics: when every left row has at most one match, the
      join has exactly one row per left row, at the same position. */
  lemma {:induction false} LeftJoinOneToOne<L(!new), R(!new)>(ls: seq<L>, rs: seq<R>, on: (L, R) -> bool)
    requires forall l :: l in ls ==> AtMostOneMatch(l, rs, on)
    ensures |LeftJoin(ls, rs, on)| == |ls|
    ensures forall i :: 0 <= i < |ls| ==> LeftJoin(ls, rs, on)[i].0 == ls[i]
  {
    if ls != [] {
      var init := ls[..|ls| - 1];
      var l := ls[|ls| - 1];
      assert forall x :: x in init ==> x in ls;
      LeftJoinOneToOne(init, rs, on);
      JoinRowOne(l, rs, on);
      var a: seq<(L, Option<R>)>, b: seq<(L, Option<R>)> := LeftJoin(init, rs, on), JoinRow(l, rs, on);
      forall i | 0 <= i < |ls|
        ensures (a + b)[i].0 == ls[i]
      {
        if i < |init| {
          assert (a + b)[i] == a[i];
        }
      }
    }
  }
}
