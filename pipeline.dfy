/** The two flows of the notebook, from the input tables to the features of
    a map: the county map (lines 85-143) and the district map (lines
    323-410). Each is a method that rebinds its tables step by step, as the
    notebook does, and states what the cohort, the ranking and the features
    are in terms of the input tables. */
module Pipeline {
  import opened Tables
  import opened Identifiers
  import opened Records
  import opened Resolver
  import opened Aggregator

  /** One feature of a rendered map: its title, its mean salary and its
      1-based `salary_rank`, missing for a unit without cohort rows. */
  datatype Feature = Feature(title: string, salary: real, rank: Option<nat>)

  /** The salary a cohort row contributes to its unit's mean. */
  function Observe(w: WideRow): Option<Observation>
  {
    match w.salary
    case Some(s) => Some(Observation(w.name, s))
    case None => None
  }

  /** The ranking table of a cohort: positions 0, 1, ... in order, means
      descending, one row per unit of the cohort carrying the unit's mean. */
  predicate RankedTable(cohort: seq<Observation>, ranked: seq<Ranked>)
  {
    && (forall i :: 0 <= i < |ranked| ==> ranked[i].index == i)
    && (forall i, j :: 0 <= i < j < |ranked| ==> ranked[i].mean >= ranked[j].mean && ranked[i].name != ranked[j].name)
    && (forall r :: r in ranked ==> Count(cohort, r.name) > 0 && r.mean == Mean(cohort, r.name))
    && (forall n :: n in Names(cohort) ==> exists r :: r in ranked && r.name == n)
  }

  /** Lines 121-122 and 399-400 on a cohort: the group means, ranked. */
  method RankCohort(cohort: seq<Observation>) returns (ranked: seq<Ranked>)
    ensures RankedTable(cohort, ranked)
  {
    var groups := GroupMeans(cohort);
    ranked := RankDescending(groups);
    RankingKeepsGroups(groups, ranked);
    forall n | n in Names(cohort)
      ensures exists r :: r in ranked && r.name == n
    {
      var g :| g in groups && g.name == n;
      var r :| r in ranked && Unranked(r) == g;
    }
  }

  // County map

  /** `COUNTY_NUM == county`, the condition of the join of line 96. */
  predicate SameCountyNum(c: County, t: TeacherSalary)
  {
    c.num == t.county
  }

  /** Line 86 on one county. */
  function PadCounty(c: County): County
  {
    c.(num := CountyKey(c.num))
  }

  /** Lines 101-102 on one row of `county_salary`. */
  function CountyRow(p: (County, Option<TeacherSalary>)): WideRow
  {
    Widen(p.0.name, p.1)
  }

  /** `COUNTY_NAM` on both sides, the condition of the join of line 128. */
  predicate SameCountyName(c: County, r: Ranked)
  {
    c.name == r.name
  }

  /** Lines 129-130 and 143 on one row of `county_df`: a county without a
      mean is dropped; the others are labelled and ranked from 1. */
  function CountyFeature(p: (County, Option<Ranked>)): Option<Feature>
  {
    match p.1
    case Some(r) => Some(Feature(p.0.name + " County", r.mean, Some(r.index + 1)))
    case None => None
  }

  /** A county cohort row: a first-step schedule row of the county, whose
      description has `ba` or `ma` in any letter case. */
  predicate CountyEvidence(o: Observation, counties: seq<County>, teacher: seq<TeacherSalary>)
  {
    exists c, t :: c in counties && t in teacher && CountyKey(c.num) == t.county &&
      t.step == "1" && CountyMask(Describe(t.desc1, t.desc2, t.desc3)) && o == Observation(c.name, t.salary)
  }

  /** Lines 85-143: the county map. `cohort` holds the salaries of line 112
      (one per first-step bachelor's or master's schedule row of a mainland
      county), `ranked` is `county_avg_salary`, and `features` are the rows
      of `county_df` left after the null salaries are removed. */
  method CountyMap(counties: seq<County>, schedule: seq<ScheduleRow>, descriptors: seq<ColumnDescriptor>)
    returns (cohort: seq<Observation>, ranked: seq<Ranked>, features: seq<Feature>)
    ensures forall o :: o in cohort <==> CountyEvidence(o, counties, TeacherSalaries(schedule, descriptors))
    ensures RankedTable(cohort, ranked)
    ensures forall f :: f in features ==>
              exists c, r :: c in counties && r in ranked && c.name == r.name &&
                             f == Feature(c.name + " County", r.mean, Some(r.index + 1))
    ensures forall c, r :: c in counties && r in ranked && c.name == r.name ==>
              Feature(c.name + " County", r.mean, Some(r.index + 1)) in features
    ensures forall f :: f in features && f.rank.Some? ==> 1 <= f.rank.value <= |ranked|
    ensures forall f, g ::
              f in features && g in features && f.rank.Some? && g.rank.Some? && f.rank.value < g.rank.value
              ==> f.salary >= g.salary
  {
    var padded := Map(counties, PadCounty);
    var teacher := TeacherSalaries(schedule, descriptors);
    var countySalary := LeftJoin(padded, teacher, SameCountyNum);
    var wide := Map(countySalary, CountyRow);
    var df := Filter(wide, CountyCohort);
    cohort := Choose(df, Observe);
    CountyCohortExact(counties, teacher, padded, countySalary, wide, df, cohort);
    ranked := RankCohort(cohort);
    var countyDf := LeftJoin(padded, ranked, SameCountyName);
    features := Choose(countyDf, CountyFeature);
    CountyFeaturesExact(counties, ranked, padded, countyDf, features);
    forall f | f in features && f.rank.Some?
      ensures exists r :: r in ranked && f.salary == r.mean && f.rank == Some(r.index + 1)
    {
      var c, r :| c in counties && r in ranked && c.name == r.name &&
                  f == Feature(c.name + " County", r.mean, Some(r.index + 1));
    }
    RanksOrdered(cohort, ranked, features);
  }

  /** The cohort of the county map is exactly the salaries of the county
      cohort rows. */
  lemma CountyCohortExact(counties: seq<County>, teacher: seq<TeacherSalary>, padded: seq<County>,
                          countySalary: seq<(County, Option<TeacherSalary>)>, wide: seq<WideRow>,
                          df: seq<WideRow>, cohort: seq<Observation>)
    requires padded == Map(counties, PadCounty)
    requires countySalary == LeftJoin(padded, teacher, SameCountyNum)
    requires wide == Map(countySalary, CountyRow)
    requires df == Filter(wide, CountyCohort)
    requires cohort == Choose(df, Observe)
    ensures forall o :: o in cohort <==> CountyEvidence(o, counties, teacher)
  {
    forall o | o in cohort
      ensures CountyEvidence(o, counties, teacher)
    {
      CountyCohortSound(counties, teacher, padded, countySalary, wide, df, cohort, o);
    }
    forall o | CountyEvidence(o, counties, teacher)
      ensures o in cohort
    {
      var c, t :| c in counties && t in teacher && CountyKey(c.num) == t.county &&
        t.step == "1" && CountyMask(Describe(t.desc1, t.desc2, t.desc3)) && o == Observation(c.name, t.salary);
      CountyCohortComplete(counties, teacher, padded, countySalary, wide, df, cohort, c, t);
    }
  }

  lemma CountyCohortSound(counties: seq<County>, teacher: seq<TeacherSalary>, padded: seq<County>,
                          countySalary: seq<(County, Option<TeacherSalary>)>, wide: seq<WideRow>,
                          df: seq<WideRow>, cohort: seq<Observation>, o: Observation)
    requires padded == Map(counties, PadCounty)
    requires countySalary == LeftJoin(padded, teacher, SameCountyNum)
    requires wide == Map(countySalary, CountyRow)
    requires df == Filter(wide, CountyCohort)
    requires cohort == Choose(df, Observe)
    requires o in cohort
    ensures CountyEvidence(o, counties, teacher)
  {
    var w :| w in df && Observe(w) == Some(o);
    var p := MapOrigin(countySalary, CountyRow, w);
    LeftJoinRow(padded, teacher, SameCountyNum, p);
    var c := MapOrigin(counties, PadCounty, p.0);
    var t := p.1.value;
    assert c in counties && t in teacher && CountyKey(c.num) == t.county;
  }

  lemma CountyCohortComplete(counties: seq<County>, teacher: seq<TeacherSalary>, padded: seq<County>,
                          countySalary: seq<(County, Option<TeacherSalary>)>, wide: seq<WideRow>,
                          df: seq<WideRow>, cohort: seq<Observation>, c: County, t: TeacherSalary)
    requires padded == Map(counties, PadCounty)
    requires countySalary == LeftJoin(padded, teacher, SameCountyNum)
    requires wide == Map(countySalary, CountyRow)
    requires df == Filter(wide, CountyCohort)
    requires cohort == Choose(df, Observe)
    requires c in counties && t in teacher && CountyKey(c.num) == t.county
    requires t.step == "1" && CountyMask(Describe(t.desc1, t.desc2, t.desc3))
    ensures Observation(c.name, t.salary) in cohort
  {
    MapHas(counties, PadCounty, c);
    LeftJoinPairs(padded, teacher, SameCountyNum, PadCounty(c), t);
    MapHas(countySalary, CountyRow, (PadCounty(c), Some(t)));
    assert CountyRow((PadCounty(c), Some(t))) in df;
  }

  /** The features of the county map are exactly the counties with a mean,
      each with its own mean and rank. */
  lemma CountyFeaturesExact(counties: seq<County>, ranked: seq<Ranked>, padded: seq<County>,
                            countyDf: seq<(County, Option<Ranked>)>, features: seq<Feature>)
    requires padded == Map(counties, PadCounty)
    requires countyDf == LeftJoin(padded, ranked, SameCountyName)
    requires features == Choose(countyDf, CountyFeature)
    ensures forall f :: f in features ==>
              exists c, r :: c in counties && r in ranked && c.name == r.name &&
                             f == Feature(c.name + " County", r.mean, Some(r.index + 1))
    ensures forall c, r :: c in counties && r in ranked && c.name == r.name ==>
              Feature(c.name + " County", r.mean, Some(r.index + 1)) in features
  {
    forall f | f in features
      ensures exists c, r :: c in counties && r in ranked && c.name == r.name &&
                             f == Feature(c.name + " County", r.mean, Some(r.index + 1))
    {
      CountyFeatureSound(counties, ranked, padded, countyDf, features, f);
    }
    forall c, r | c in counties && r in ranked && c.name == r.name
      ensures Feature(c.name + " County", r.mean, Some(r.index + 1)) in features
    {
      CountyFeatureComplete(counties, ranked, padded, countyDf, features, c, r);
    }
  }

  lemma CountyFeatureSound(counties: seq<County>, ranked: seq<Ranked>, padded: seq<County>,
                            countyDf: seq<(County, Option<Ranked>)>, features: seq<Feature>, f: Feature)
    requires padded == Map(counties, PadCounty)
    requires countyDf == LeftJoin(padded, ranked, SameCountyName)
    requires features == Choose(countyDf, CountyFeature)
    requires f in features
    ensures exists c, r :: c in counties && r in ranked && c.name == r.name &&
                           f == Feature(c.name + " County", r.mean, Some(r.index + 1))
  {
    var p :| p in countyDf && CountyFeature(p) == Some(f);
    LeftJoinRow(padded, ranked, SameCountyName, p);
    var c := MapOrigin(counties, PadCounty, p.0);
    assert c in counties && p.1.value in ranked;
  }

  lemma CountyFeatureComplete(counties: seq<County>, ranked: seq<Ranked>, padded: seq<County>,
                            countyDf: seq<(County, Option<Ranked>)>, features: seq<Feature>, c: County, r: Ranked)
    requires padded == Map(counties, PadCounty)
    requires countyDf == LeftJoin(padded, ranked, SameCountyName)
    requires features == Choose(countyDf, CountyFeature)
    requires c in counties && r in ranked && c.name == r.name
    ensures Feature(c.name + " County", r.mean, Some(r.index + 1)) in features
  {
    MapHas(counties, PadCounty, c);
    LeftJoinPairs(padded, ranked, SameCountyName, PadCounty(c), r);
    CountyFeatureOf(countyDf, features, PadCounty(c), r);
  }

  lemma CountyFeatureOf(countyDf: seq<(County, Option<Ranked>)>, features: seq<Feature>, c: County, r: Ranked)
    requires features == Choose(countyDf, CountyFeature)
    requires (c, Some(r)) in countyDf
    ensures Feature(c.name + " County", r.mean, Some(r.index + 1)) in features
  {
    ChooseHas(countyDf, CountyFeature, (c, Some(r)));
  }

  // District map

  /** Line 331 and 345 on one row of `tsal121`. */
  function NormalizeInfo(r: DistrictInfoRow): DistrictInfo
  {
    DistrictInfo(CdsKey(r.cds), DistrictType(r.kind))
  }

  /** `cds` on both sides, the condition of the first join of line 359. */
  predicate SameCds(a: DistrictArea, i: DistrictInfo)
  {
    a.cds == i.cds
  }

  /** `cds` on both sides, the condition of the second join of line 359. */
  predicate SameDistrict(p: (DistrictArea, Option<DistrictInfo>), t: TeacherSalary)
  {
    p.0.cds == t.cds
  }

  /** Lines 363-364 on one row of `district_salary`. */
  function DistrictRow(q: ((DistrictArea, Option<DistrictInfo>), Option<TeacherSalary>)): WideRow
  {
    Widen(q.0.0.name, q.1)
  }

  /** `DistrictNa` on both sides, the condition of the join of line 407. */
  predicate SameDistrictName(a: DistrictArea, r: Ranked)
  {
    a.name == r.name
  }

  /** Lines 408-410 on one row of `district_df`: labelled, ranked from 1,
      and a missing mean filled with 0. */
  function DistrictFeature(p: (DistrictArea, Option<Ranked>)): Feature
  {
    match p.1
    case Some(r) => Feature(p.0.name + " School District", r.mean, Some(r.index + 1))
    case None => Feature(p.0.name + " School District", 0.0, None)
  }

  /** A district cohort row: a first-step schedule row of the district,
      whose description passes the degree mask of lines 383-389. */
  predicate DistrictEvidence(o: Observation, areas: seq<DistrictArea>, teacher: seq<TeacherSalary>)
  {
    exists a, t :: a in areas && t in teacher && a.cds == t.cds &&
      t.step == "1" && DistrictMask(Describe(t.desc1, t.desc2, t.desc3)) && o == Observation(a.name, t.salary)
  }

  /** Lines 323-410: the district map. `cohort` holds the salaries of line
      391, `ranked` is `district_avg_salary`, and `features` is
      `district_df`: one feature per district area, in order, whose rank is
      missing and salary 0 exactly when the district has no cohort row. */
  method DistrictMap(areas: seq<DistrictArea>, infoRows: seq<DistrictInfoRow>,
                     schedule: seq<ScheduleRow>, descriptors: seq<ColumnDescriptor>)
    returns (cohort: seq<Observation>, ranked: seq<Ranked>, features: seq<Feature>)
    ensures forall o :: o in cohort <==> DistrictEvidence(o, areas, TeacherSalaries(schedule, descriptors))
    ensures RankedTable(cohort, ranked)
    ensures |features| == |areas|
    ensures forall i :: 0 <= i < |areas| ==> features[i].title == areas[i].name + " School District"
    ensures forall i :: 0 <= i < |areas| ==> (features[i].rank.Some? <==> areas[i].name in Names(cohort))
    ensures forall i :: 0 <= i < |areas| && features[i].rank.None? ==> features[i].salary == 0.0
    ensures forall i :: 0 <= i < |areas| && features[i].rank.Some? ==>
              var k := features[i].rank.value - 1;
              0 <= k < |ranked| && ranked[k].name == areas[i].name && features[i].salary == ranked[k].mean
    ensures forall f :: f in features && f.rank.Some? ==> 1 <= f.rank.value <= |ranked|
    ensures forall f, g ::
              f in features && g in features && f.rank.Some? && g.rank.Some? && f.rank.value < g.rank.value
              ==> f.salary >= g.salary
  {
    var infos := Map(infoRows, NormalizeInfo);
    var teacher := TeacherSalaries(schedule, descriptors);
    var withInfo := LeftJoin(areas, infos, SameCds);
    var districtSalary := LeftJoin(withInfo, teacher, SameDistrict);
    var wide := Map(districtSalary, DistrictRow);
    var firstYear := Filter(wide, FirstStep);
    firstYear := Map(firstYear, StripDescription);
    var df := Filter(firstYear, DistrictCohort);
    cohort := Choose(df, Observe);
    DistrictCohortExact(areas, infos, teacher, withInfo, districtSalary, wide, firstYear, df, cohort);
    ranked := RankCohort(cohort);
    var districtDf := LeftJoin(areas, ranked, SameDistrictName);
    features := Map(districtDf, DistrictFeature);
    DistrictJoinRows(areas, cohort, ranked);
    DistrictFeaturesExact(areas, cohort, ranked, districtDf, features);
    DistrictRanksOrdered(cohort, ranked, features);
  }

  /** The cohort of the district map is exactly the salaries of the
      district cohort rows; the join with the district table on the way
      neither adds nor removes any. */
  lemma DistrictCohortExact(areas: seq<DistrictArea>, infos: seq<DistrictInfo>, teacher: seq<TeacherSalary>,
                            withInfo: seq<(DistrictArea, Option<DistrictInfo>)>,
                            districtSalary: seq<((DistrictArea, Option<DistrictInfo>), Option<TeacherSalary>)>,
                            wide: seq<WideRow>, firstYear: seq<WideRow>, df: seq<WideRow>, cohort: seq<Observation>)
    requires withInfo == LeftJoin(areas, infos, SameCds)
    requires districtSalary == LeftJoin(withInfo, teacher, SameDistrict)
    requires wide == Map(districtSalary, DistrictRow)
    requires firstYear == Map(Filter(wide, FirstStep), StripDescription)
    requires df == Filter(firstYear, DistrictCohort)
    requires cohort == Choose(df, Observe)
    ensures forall o :: o in cohort <==> DistrictEvidence(o, areas, teacher)
  {
    forall o | o in cohort
      ensures DistrictEvidence(o, areas, teacher)
    {
      DistrictCohortSound(areas, infos, teacher, withInfo, districtSalary, wide, firstYear, df, cohort, o);
    }
    forall o | DistrictEvidence(o, areas, teacher)
      ensures o in cohort
    {
      var a, t :| a in areas && t in teacher && a.cds == t.cds &&
        t.step == "1" && DistrictMask(Describe(t.desc1, t.desc2, t.desc3)) && o == Observation(a.name, t.salary);
      DistrictCohortComplete(areas, infos, teacher, withInfo, districtSalary, wide, firstYear, df, cohort, a, t);
    }
  }

  lemma DistrictCohortSound(areas: seq<DistrictArea>, infos: seq<DistrictInfo>, teacher: seq<TeacherSalary>,
                            withInfo: seq<(DistrictArea, Option<DistrictInfo>)>,
                            districtSalary: seq<((DistrictArea, Option<DistrictInfo>), Option<TeacherSalary>)>,
                            wide: seq<WideRow>, firstYear: seq<WideRow>, df: seq<WideRow>, cohort: seq<Observation>, o: Observation)
    requires withInfo == LeftJoin(areas, infos, SameCds)
    requires districtSalary == LeftJoin(withInfo, teacher, SameDistrict)
    requires wide == Map(districtSalary, DistrictRow)
    requires firstYear == Map(Filter(wide, FirstStep), StripDescription)
    requires df == Filter(firstYear, DistrictCohort)
    requires cohort == Choose(df, Observe)
    requires o in cohort
    ensures DistrictEvidence(o, areas, teacher)
  {
    var w :| w in df && Observe(w) == Some(o);
    var w0 := MapOrigin(Filter(wide, FirstStep), StripDescription, w);
    var q := MapOrigin(districtSalary, DistrictRow, w0);
    LeftJoinRow(withInfo, teacher, SameDistrict, q);
    LeftJoinRow(areas, infos, SameCds, q.0);
    var t := q.1.value;
    assert q.0.0 in areas && t in teacher && q.0.0.cds == t.cds;
  }

  lemma DistrictCohortComplete(areas: seq<DistrictArea>, infos: seq<DistrictInfo>, teacher: seq<TeacherSalary>,
                            withInfo: seq<(DistrictArea, Option<DistrictInfo>)>,
                            districtSalary: seq<((DistrictArea, Option<DistrictInfo>), Option<TeacherSalary>)>,
                            wide: seq<WideRow>, firstYear: seq<WideRow>, df: seq<WideRow>, cohort: seq<Observation>, a: DistrictArea, t: TeacherSalary)
    requires withInfo == LeftJoin(areas, infos, SameCds)
    requires districtSalary == LeftJoin(withInfo, teacher, SameDistrict)
    requires wide == Map(districtSalary, DistrictRow)
    requires firstYear == Map(Filter(wide, FirstStep), StripDescription)
    requires df == Filter(firstYear, DistrictCohort)
    requires cohort == Choose(df, Observe)
    requires a in areas && t in teacher && a.cds == t.cds
    requires t.step == "1" && DistrictMask(Describe(t.desc1, t.desc2, t.desc3))
    ensures Observation(a.name, t.salary) in cohort
  {
    var p := LeftJoinKeeps(areas, infos, SameCds, a);
    LeftJoinPairs(withInfo, teacher, SameDistrict, p, t);
    var w := DistrictRow((p, Some(t)));
    MapHas(districtSalary, DistrictRow, (p, Some(t)));
    MapHas(Filter(wide, FirstStep), StripDescription, w);
    assert StripDescription(w) in df;
  }

  /** A row of the join of line 407: a ranking row of the district's own
      name, or none when no ranking row has that name. */
  predicate JoinedRank(p: (DistrictArea, Option<Ranked>), ranked: seq<Ranked>)
  {
    && (p.1.Some? ==> p.1.value in ranked && p.1.value.name == p.0.name)
    && (p.1.None? ==> forall r :: r in ranked ==> r.name != p.0.name)
  }

  /** Ranked names are distinct, so the join of line 407 gives every
      district area one row, in place, holding its own ranking row if any. */
  lemma DistrictJoinRows(areas: seq<DistrictArea>, cohort: seq<Observation>, ranked: seq<Ranked>)
    requires RankedTable(cohort, ranked)
    ensures |LeftJoin(areas, ranked, SameDistrictName)| == |areas|
    ensures forall i :: 0 <= i < |areas| ==> LeftJoin(areas, ranked, SameDistrictName)[i].0 == areas[i]
    ensures forall p :: p in LeftJoin(areas, ranked, SameDistrictName) ==> JoinedRank(p, ranked)
  {
    forall a | a in areas
      ensures AtMostOneMatch(a, ranked, SameDistrictName)
    {
    }
    LeftJoinOneToOne(areas, ranked, SameDistrictName);
    LeftJoinSound(areas, ranked, SameDistrictName);
  }

  lemma DistrictFeaturesExact(areas: seq<DistrictArea>, cohort: seq<Observation>, ranked: seq<Ranked>,
                              districtDf: seq<(DistrictArea, Option<Ranked>)>, features: seq<Feature>)
    requires RankedTable(cohort, ranked)
    requires |districtDf| == |areas|
    requires forall i :: 0 <= i < |areas| ==> districtDf[i].0 == areas[i]
    requires forall p :: p in districtDf ==> JoinedRank(p, ranked)
    requires features == Map(districtDf, DistrictFeature)
    ensures |features| == |areas|
    ensures forall i :: 0 <= i < |areas| ==> features[i].title == areas[i].name + " School District"
    ensures forall i :: 0 <= i < |areas| ==> (features[i].rank.Some? <==> areas[i].name in Names(cohort))
    ensures forall i :: 0 <= i < |areas| && features[i].rank.None? ==> features[i].salary == 0.0
    ensures forall i :: 0 <= i < |areas| && features[i].rank.Some? ==>
              var k := features[i].rank.value - 1;
              0 <= k < |ranked| && ranked[k].name == areas[i].name && features[i].salary == ranked[k].mean
  {
    forall i | 0 <= i < |areas|
      ensures features[i].title == areas[i].name + " School District"
      ensures features[i].rank.Some? <==> areas[i].name in Names(cohort)
      ensures features[i].rank.None? ==> features[i].salary == 0.0
      ensures features[i].rank.Some? ==>
              var k := features[i].rank.value - 1;
              0 <= k < |ranked| && ranked[k].name == areas[i].name && features[i].salary == ranked[k].mean
    {
      assert districtDf[i] in districtDf;
      DistrictFeatureAt(cohort, ranked, districtDf[i]);
      assert features[i] == DistrictFeature(districtDf[i]);
    }
  }

  /** One district's row of the join of line 407. */
  lemma DistrictFeatureAt(cohort: seq<Observation>, ranked: seq<Ranked>, p: (DistrictArea, Option<Ranked>))
    requires RankedTable(cohort, ranked)
    requires JoinedRank(p, ranked)
    ensures p.1.Some? <==> p.0.name in Names(cohort)
    ensures p.1.Some? ==> 0 <= p.1.value.index < |ranked| && ranked[p.1.value.index] == p.1.value
  {
    match p.1
    case Some(r) =>
      CountPositive(cohort, r.name);
      var k :| 0 <= k < |ranked| && ranked[k] == r;
    case None =>
  }

  /** The district features, ranked by position in the ranking table, keep
      the order of the ranks. */
  lemma DistrictRanksOrdered(cohort: seq<Observation>, ranked: seq<Ranked>, features: seq<Feature>)
    requires RankedTable(cohort, ranked)
    requires forall i :: 0 <= i < |features| && features[i].rank.Some? ==>
               var k := features[i].rank.value - 1;
               0 <= k < |ranked| && features[i].salary == ranked[k].mean
    ensures forall f :: f in features && f.rank.Some? ==> 1 <= f.rank.value <= |ranked|
    ensures forall f, g ::
              f in features && g in features && f.rank.Some? && g.rank.Some? && f.rank.value < g.rank.value
              ==> f.salary >= g.salary
  {
    forall f | f in features && f.rank.Some?
      ensures exists r :: r in ranked && f.salary == r.mean && f.rank == Some(r.index + 1)
    {
      var i :| 0 <= i < |features| && features[i] == f;
      var k := f.rank.value - 1;
      assert ranked[k].index == k;
    }
    RanksOrdered(cohort, ranked, features);
  }

  /** In either map, the ranks are 1 to the number of units with cohort
      rows, and a feature ranked before another has a mean at least as
      high. */
  lemma RanksOrdered(cohort: seq<Observation>, ranked: seq<Ranked>, features: seq<Feature>)
    requires RankedTable(cohort, ranked)
    requires forall f :: f in features && f.rank.Some? ==>
               exists r :: r in ranked && f.salary == r.mean && f.rank == Some(r.index + 1)
    ensures forall f :: f in features && f.rank.Some? ==> 1 <= f.rank.value <= |ranked|
    ensures forall f, g ::
              f in features && g in features && f.rank.Some? && g.rank.Some? && f.rank.value < g.rank.value
              ==> f.salary >= g.salary
  {
    forall f | f in features && f.rank.Some?
      ensures 1 <= f.rank.value <= |ranked| && f.salary == ranked[f.rank.value - 1].mean
    {
      var r :| r in ranked && f.salary == r.mean && f.rank == Some(r.index + 1);
      var k :| 0 <= k < |ranked| && ranked[k] == r;
    }
  }
}
