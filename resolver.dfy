/** The salary-schedule resolver: the exclusion of one district, the left
    join of schedule rows to their column descriptions, the description
    text, and the two cohort masks (first step, bachelor's or master's
    column). */
module Resolver {
  import opened Tables
  import opened Text
  import opened Records

  /** The district whose schedule repeats (step, column) pairs; its rows
      are dropped from both salary tables before the join. */
  const ExcludedCds: string := "5171365"

  predicate KeptRow(r: ScheduleRow)
  {
    r.cds != ExcludedCds
  }

  predicate KeptDescriptor(d: ColumnDescriptor)
  {
    d.cds != ExcludedCds
  }

  /** The join condition `left_on = ["cds", "ts3_col"], right_on = ["cds",
      "ts2_col"]`. */
  predicate SameColumn(r: ScheduleRow, d: ColumnDescriptor)
  {
    r.cds == d.cds && r.column == d.column
  }

  /** The columns kept from one joined row, under their new names. */
  function Project(p: (ScheduleRow, Option<ColumnDescriptor>)): TeacherSalary
  {
    var r := p.0;
    match p.1
    case Some(d) =>
      TeacherSalary(r.county, r.district, r.cds, r.column,
                    Some(d.desc1), Some(d.desc1a), Some(d.desc2), r.step, r.salary)
    case None =>
      TeacherSalary(r.county, r.district, r.cds, r.column, None, None, None, r.step, r.salary)
  }

  /** The schedule row a `teacher_salary` row was built from. */
  function Origin(t: TeacherSalary): ScheduleRow
  {
    ScheduleRow(t.county, t.district, t.cds, t.column, t.step, t.salary)
  }

  /** `teacher_salary`: the schedule rows outside the excluded district,
      left-joined on (cds, column) to the descriptors outside it, with the
      kept columns renamed. */
  function TeacherSalaries(schedule: seq<ScheduleRow>, descriptors: seq<ColumnDescriptor>): seq<TeacherSalary>
  {
    Map(LeftJoin(Filter(schedule, KeptRow), Filter(descriptors, KeptDescriptor), SameColumn), Project)
  }

  /** No row of `teacher_salary` belongs to the excluded district. */
  lemma TeacherSalariesExclude(schedule: seq<ScheduleRow>, descriptors: seq<ColumnDescriptor>)
    ensures forall t :: t in TeacherSalaries(schedule, descriptors) ==> t.cds != ExcludedCds
  {
    var kept, ds := Filter(schedule, KeptRow), Filter(descriptors, KeptDescriptor);
    var joined := LeftJoin(kept, ds, SameColumn);
    LeftJoinSound(kept, ds, SameColumn);
    forall t | t in TeacherSalaries(schedule, descriptors)
      ensures t.cds != ExcludedCds
    {
      var k :| 0 <= k < |joined| && Project(joined[k]) == t;
      assert joined[k] in joined;
    }
  }

  /** Every row of `teacher_salary` comes from a schedule row outside the
      excluded district: the left join invents none. */
  lemma TeacherSalariesOrigin(schedule: seq<ScheduleRow>, descriptors: seq<ColumnDescriptor>)
    ensures forall t :: t in TeacherSalaries(schedule, descriptors) ==> Origin(t) in schedule && KeptRow(Origin(t))
  {
    var kept, ds := Filter(schedule, KeptRow), Filter(descriptors, KeptDescriptor);
    var joined := LeftJoin(kept, ds, SameColumn);
    LeftJoinSound(kept, ds, SameColumn);
    forall t | t in TeacherSalaries(schedule, descriptors)
      ensures Origin(t) in schedule && KeptRow(Origin(t))
    {
      var k :| 0 <= k < |joined| && Project(joined[k]) == t;
      assert joined[k] in joined;
      assert Origin(t) == joined[k].0;
    }
  }

  /** Every schedule row outside the excluded district reaches
      `teacher_salary`: the left join drops none. */
  lemma TeacherSalariesKeepRows(schedule: seq<ScheduleRow>, descriptors: seq<ColumnDescriptor>)
    ensures forall r :: r in schedule && KeptRow(r) ==>
              exists t :: t in TeacherSalaries(schedule, descriptors) && Origin(t) == r
  {
    var kept, ds := Filter(schedule, KeptRow), Filter(descriptors, KeptDescriptor);
    var joined := LeftJoin(kept, ds, SameColumn);
    var out := TeacherSalaries(schedule, descriptors);
    LeftJoinComplete(kept, ds, SameColumn);
    forall r | r in schedule && KeptRow(r)
      ensures exists t :: t in out && Origin(t) == r
    {
      var p :| p in joined && p.0 == r;
      var k :| 0 <= k < |joined| && joined[k] == p;
      assert out[k] in out && Origin(out[k]) == r;
    }
  }

  /** The fragments of a `teacher_salary` row are those of a descriptor of
      its own (cds, column) outside the excluded district, or, only when no
      such descriptor exists, all three are missing. */
  lemma TeacherSalariesDescriptions(schedule: seq<ScheduleRow>, descriptors: seq<ColumnDescriptor>)
    ensures forall t :: t in TeacherSalaries(schedule, descriptors) && t.desc1.Some? ==>
              t.desc2.Some? && t.desc3.Some? &&
              exists d :: d in descriptors && KeptDescriptor(d) && d.cds == t.cds && d.column == t.column &&
                          t.desc1.value == d.desc1 && t.desc2.value == d.desc1a && t.desc3.value == d.desc2
    ensures forall t :: t in TeacherSalaries(schedule, descriptors) && t.desc1.None? ==>
              t.desc2.None? && t.desc3.None?
    ensures forall t, d ::
              t in TeacherSalaries(schedule, descriptors) && t.desc1.None? && d in descriptors && KeptDescriptor(d)
              ==> !(d.cds == t.cds && d.column == t.column)
  {
    var kept, ds := Filter(schedule, KeptRow), Filter(descriptors, KeptDescriptor);
    var joined := LeftJoin(kept, ds, SameColumn);
    var out := TeacherSalaries(schedule, descriptors);
    LeftJoinSound(kept, ds, SameColumn);
    forall t | t in out
      ensures t.desc1.Some? ==>
              t.desc2.Some? && t.desc3.Some? &&
              exists d :: d in descriptors && KeptDescriptor(d) && d.cds == t.cds && d.column == t.column &&
                          t.desc1.value == d.desc1 && t.desc2.value == d.desc1a && t.desc3.value == d.desc2
      ensures t.desc1.None? ==> t.desc2.None? && t.desc3.None?
      ensures t.desc1.None? ==> forall d :: d in descriptors && KeptDescriptor(d) ==> !(d.cds == t.cds && d.column == t.column)
    {
      var k :| 0 <= k < |joined| && Project(joined[k]) == t;
      assert joined[k] in joined;
      if joined[k].1.Some? {
        assert joined[k].1.value in ds;
      }
    }
  }

  /** No two descriptors outside the excluded district describe the same
      (cds, column). */
  predicate UniqueColumns(descriptors: seq<ColumnDescriptor>)
  {
    forall i, j :: 0 <= i < j < |descriptors| && KeptDescriptor(descriptors[i]) && KeptDescriptor(descriptors[j]) ==>
      !(descriptors[i].cds == descriptors[j].cds && descriptors[i].column == descriptors[j].column)
  }

  /** With unique (cds, column) descriptors, the join is one-to-one: every
      kept schedule row appears exactly once, in its original order. */
  lemma TeacherSalariesOnePerRow(schedule: seq<ScheduleRow>, descriptors: seq<ColumnDescriptor>)
    requires UniqueColumns(descriptors)
    ensures |TeacherSalaries(schedule, descriptors)| == |Filter(schedule, KeptRow)|
    ensures forall k :: 0 <= k < |Filter(schedule, KeptRow)| ==>
              Origin(TeacherSalaries(schedule, descriptors)[k]) == Filter(schedule, KeptRow)[k]
  {
    var kept, ds := Filter(schedule, KeptRow), Filter(descriptors, KeptDescriptor);
    forall r | r in kept
      ensures AtMostOneMatch(r, ds, SameColumn)
    {
      forall i, j | 0 <= i < j < |ds| && SameColumn(r, ds[i])
        ensures !SameColumn(r, ds[j])
      {
        KeptSubsequence(descriptors, i, j);
      }
    }
    LeftJoinOneToOne(kept, ds, SameColumn);
  }

  /** Two positions of the kept descriptors are two positions of the
      descriptor table, in the same order. */
  lemma {:induction false} KeptSubsequence(descriptors: seq<ColumnDescriptor>, i: nat, j: nat)
    requires UniqueColumns(descriptors)
    requires i < j < |Filter(descriptors, KeptDescriptor)|
    ensures var ds := Filter(descriptors, KeptDescriptor);
            !(ds[i].cds == ds[j].cds && ds[i].column == ds[j].column)
  {
    var ds := Filter(descriptors, KeptDescriptor);
    var init := descriptors[..|descriptors| - 1];
    var last := descriptors[|descriptors| - 1];
    var di := Filter(init, KeptDescriptor);
    assert UniqueColumns(init);
    if j < |di| {
      KeptSubsequence(init, i, j);
    } else {
      assert ds == di + [last] && ds[j] == last && KeptDescriptor(last);
      assert ds[i] in init;
      var m :| 0 <= m < |init| && init[m] == ds[i];
      assert descriptors[m] == ds[i];
    }
  }

  /** `astype(str)` of one fragment cell: its text, or "nan" for the value
      a left join leaves missing. */
  function CellText(x: Option<string>): string
  {
    match x
    case Some(s) => s
    case None => "nan"
  }

  /** Lines 101 and 363: the three fragment cells, as text, joined by single
      spaces. */
  function Describe(d1: Option<string>, d2: Option<string>, d3: Option<string>): string
  {
    CellText(d1) + " " + CellText(d2) + " " + CellText(d3)
  }

  function Occurrences(s: string, c: char): nat
  {
    if s == [] then 0 else Occurrences(s[..|s| - 1], c) + (if s[|s| - 1] == c then 1 else 0)
  }

  lemma {:induction false} OccurrencesConcat(a: string, b: string, c: char)
    ensures Occurrences(a + b, c) == Occurrences(a, c) + Occurrences(b, c)
  {
    if b != [] {
      OccurrencesConcat(a, b[..|b| - 1], c);
      assert (a + b)[..|a + b| - 1] == a + b[..|b| - 1];
    } else {
      assert a + b == a;
    }
  }

  /** Joining two texts with a space adds one space to theirs. */
  lemma OccurrencesJoined(a: string, b: string)
    ensures Occurrences(a + " " + b, ' ') == Occurrences(a, ' ') + 1 + Occurrences(b, ' ')
  {
    OccurrencesConcat(a + " ", b, ' ');
    OccurrencesConcat(a, " ", ' ');
    assert Occurrences(" ", ' ') == 1 by {
      assert " "[..0] == "";
    }
  }

  /** The description has the spaces of its three fragments plus the two
      separators, so it always has at least two; a missing fragment is
      written "nan", not skipped. */
  lemma DescribeSpaces(d1: Option<string>, d2: Option<string>, d3: Option<string>)
    ensures Occurrences(Describe(d1, d2, d3), ' ') ==
            Occurrences(CellText(d1), ' ') + Occurrences(CellText(d2), ' ') + Occurrences(CellText(d3), ' ') + 2
    ensures Describe(None, d2, d3) == "nan " + CellText(d2) + " " + CellText(d3)
  {
    var a, b, c := CellText(d1), CellText(d2), CellText(d3);
    OccurrencesJoined(a, b);
    OccurrencesJoined(a + " " + b, c);
  }

  /** One row of `county_salary` or `district_salary` as the masks read it:
      the unit `name` with the schedule row the join gave it, if any. Step
      and salary are present together. */
  function Widen(name: string, t: Option<TeacherSalary>): (w: WideRow)
    ensures w.name == name
    ensures w.step.Some? <==> t.Some?
    ensures w.salary.Some? <==> t.Some?
  {
    match t
    case Some(t) => WideRow(name, Some(t.step), Describe(t.desc1, t.desc2, t.desc3), Some(t.salary))
    case None => WideRow(name, None, Describe(None, None, None), None)
  }

  /** `years_experience == '1'`; a missing step is never equal. */
  predicate FirstStep(w: WideRow)
  {
    w.step == Some("1")
  }

  /** `str.contains('ba|ma', case = False)` on one description. */
  predicate CountyMask(desc: string)
  {
    Contains(Lower(desc), Lit("ba")) || Contains(Lower(desc), Lit("ma"))
  }

  /** Line 112: the county cohort. */
  predicate CountyCohort(w: WideRow)
  {
    FirstStep(w) && CountyMask(w.desc)
  }

  /** `ba\+\d`: a bachelor's column with a number of extra units. */
  const BaPlusUnits: seq<Atom> := Lit("ba+") + [Digit]

  /** The mask of line 389, on a description already lower-cased (the
      `case = False` of both searches): one of `ba\+\d+`, `^ma`, `\+ma`,
      ` *ma` is found, and neither `ma\+` nor ` *ma\+` is. Finding `\d+`
      is finding one digit. */
  predicate DegreeMatch(l: string)
  {
    && (Contains(l, BaPlusUnits) || StartsWith(l, Lit("ma")) || Contains(l, Lit("+ma")) || SpacesThen(l, Lit("ma")))
    && !(Contains(l, Lit("ma+")) || SpacesThen(l, Lit("ma+")))
  }

  /** Line 383: the description with surrounding whitespace stripped. */
  function StripDescription(w: WideRow): WideRow
  {
    w.(desc := Strip(w.desc))
  }

  /** Line 389 on a row whose description is already stripped. */
  predicate DistrictCohort(w: WideRow)
  {
    DegreeMatch(Lower(w.desc))
  }

  /** Lines 383 and 389 together, on one raw description. */
  predicate DistrictMask(desc: string)
  {
    DegreeMatch(Lower(Strip(desc)))
  }

  /** The regular expressions of line 389 reduce to substring tests: since
      ` *` also matches no space, the mask keeps a description that has
      `ba+<digit>` or `ma` and lacks `ma+`. */
  lemma DegreeMatchReduces(l: string)
    ensures DegreeMatch(l) <==>
            (Contains(l, BaPlusUnits) || Contains(l, Lit("ma"))) && !Contains(l, Lit("ma+"))
  {
    SpacesThenIsContains(l, Lit("ma"));
    SpacesThenIsContains(l, Lit("ma+"));
    if StartsWith(l, Lit("ma")) {
      assert MatchesAt(l, Lit("ma"), 0);
    }
    if Contains(l, Lit("+ma")) {
      assert Lit("+ma") == Lit("+") + Lit("ma");
      ContainsTail(l, Lit("+"), Lit("ma"));
    }
  }

  /** The district mask on a raw description: stripping changes nothing,
      and the mask keeps exactly the descriptions that, in any letter case,
      have `ba+<digit>` or `ma` and lack `ma+`. */
  lemma DistrictMaskIff(desc: string)
    ensures DistrictMask(desc) <==>
            (Contains(Lower(desc), BaPlusUnits) || Contains(Lower(desc), Lit("ma")))
            && !Contains(Lower(desc), Lit("ma+"))
  {
    DegreeMatchReduces(Lower(Strip(desc)));
    StripKeepsSearch(desc, BaPlusUnits);
    StripKeepsSearch(desc, Lit("ma"));
    StripKeepsSearch(desc, Lit("ma+"));
  }

  /** Both masks ignore letter case: two descriptions that differ only in
      the case of their letters are kept or dropped together. */
  lemma MasksIgnoreCase(s: string, t: string)
    requires Lower(s) == Lower(t)
    ensures CountyMask(s) == CountyMask(t)
    ensures DistrictMask(s) == DistrictMask(t)
  {
    DistrictMaskIff(s);
    DistrictMaskIff(t);
  }

  /** `ma+` in any letter case rejects a description, even one that also
      has `ba+<digit>`. */
  lemma MaPlusRejected(desc: string)
    requires Contains(Lower(desc), Lit("ma+"))
    ensures !DistrictMask(desc)
  {
    DistrictMaskIff(desc);
  }

  /** `ma` without `ma+` is kept by both masks. */
  lemma MaAccepted(desc: string)
    requires Contains(Lower(desc), Lit("ma")) && !Contains(Lower(desc), Lit("ma+"))
    ensures DistrictMask(desc) && CountyMask(desc)
  {
    DistrictMaskIff(desc);
  }

  /** A `ba` with neither `ma` nor `ba+<digit>` passes the county mask but
      not the district mask. */
  lemma BareBaOnlyInCounties(desc: string)
    requires Contains(Lower(desc), Lit("ba"))
    requires !Contains(Lower(desc), Lit("ma")) && !Contains(Lower(desc), BaPlusUnits)
    ensures CountyMask(desc) && !DistrictMask(desc)
  {
    DistrictMaskIff(desc);
  }

  /** A bare "BA" passes the county mask and not the district mask. */
  lemma BareBaExample()
    ensures CountyMask("BA") && !DistrictMask("BA")
  {
    assert Lower("BA") == "ba";
    assert MatchesAt("ba", Lit("ba"), 0);
    FirstCharAbsent("ba", Lit("ma"));
    TooLongAbsent("ba", BaPlusUnits);
    BareBaOnlyInCounties("BA");
  }

  /** "MA" and "BA+60" pass the district mask. */
  lemma DegreeExamples()
    ensures DistrictMask("MA") && DistrictMask("BA+60")
  {
    assert Lower("MA") == "ma";
    assert MatchesAt("ma", Lit("ma"), 0);
    TooLongAbsent("ma", Lit("ma+"));
    DistrictMaskIff("MA");
    assert Lower("BA+60") == "ba+60";
    assert MatchesAt("ba+60", BaPlusUnits, 0);
    FirstCharAbsent("ba+60", Lit("ma+"));
    DistrictMaskIff("BA+60");
  }

  /** "MA+30 UNITS" fails the district mask. */
  lemma MaPlusUnitsExample()
    ensures !DistrictMask("MA+30 UNITS")
  {
    assert Lower("MA+30 UNITS") == "ma+30 units";
    assert MatchesAt("ma+30 units", Lit("ma+"), 0);
    MaPlusRejected("MA+30 UNITS");
  }

  /** "BA+30 MA+15" fails the district mask although it has `ba+3`. */
  lemma BaPlusMaPlusExample()
    ensures !DistrictMask("BA+30 MA+15")
  {
    assert Lower("BA+30 MA+15") == "ba+30 ma+15";
    assert MatchesAt("ba+30 ma+15", Lit("ma+"), 6);
    MaPlusRejected("BA+30 MA+15");
  }

  /** The description "nan nan nan" of a schedule row that found no
      descriptor passes neither mask, so such a row is in no cohort. */
  lemma UndescribedNeverKept(w: WideRow)
    requires w.desc == Describe(None, None, None)
    ensures !CountyCohort(w) && !DistrictCohort(w) && !DistrictMask(w.desc)
  {
    var l := "nan nan nan";
    assert Lower(w.desc) == l;
    FirstCharAbsent(l, Lit("ba"));
    FirstCharAbsent(l, Lit("ma"));
    FirstCharAbsent(l, BaPlusUnits);
    DistrictMaskIff(w.desc);
    DegreeMatchReduces(l);
  }
}
