# California teacher salaries: the reconciliation core

This project models the record-reconciliation pipeline at the heart of the notebook
`code/ca_teacher_salaries.py`. The notebook reads a county boundary file, a district
boundary file and three tables from the Form J-90 salary survey: `tsal121` (the
districts), `tsal221` (descriptions of each salary-schedule column) and `tsal321`
(the salary schedule itself). From them it draws two maps:

1. The county map (lines 85-143):
   - County numbers are padded to two digits.
   - Schedule rows outside district 5171365 are left-joined to their column
     descriptions.
   - The rows are joined to the counties.
   - First-step rows whose description mentions `ba` or `ma` are kept.
   - Salaries are averaged per county, ranked in descending order, and joined back
     to the counties.
2. The district map (lines 323-410):
   - District codes are padded to seven digits and district types decoded.
   - The schedule rows are joined to the district areas.
   - First-step rows are kept. Their descriptions are stripped and passed through
     the bachelor's/master's regular-expression mask of line 389.
   - Salaries are averaged and ranked.
   - Every area gets a feature, with salary 0 where the district had no cohort row.
3. Both maps colour each feature by the interval its salary falls in among eight
   bin edges (`style_function`).

The modules follow those steps:

| module | file | what it holds |
|---|---|---|
| `Tables` | `tables.dfy` | row filter, column map, `Option`-dropping map, and pandas' `merge(how = "left")` as `LeftJoin` |
| `Identifiers` | `identifiers.dfy` | `str.rjust`, `str(int)`, the padded county and district keys, the district-type decoder `f` |
| `Text` | `text.dfy` | ASCII lower-casing, `str.strip`, and substring search for literal patterns with a digit class |
| `Records` | `records.dfy` | the rows of the tables read and derived |
| `Resolver` | `resolver.dfy` | the exclusion, the description join and text, and the two cohort masks |
| `Aggregator` | `aggregator.dfy` | per-unit mean (`groupby().mean()`) and descending ranking (`sort_values`) |
| `Choropleth` | `choropleth.dfy` | the fill colour of `style_function` |
| `Pipeline` | `pipeline.dfy` | the two map flows as methods that rebind their tables step by step |

Tables are sequences of rows. Identifiers are strings, salaries are whole numbers,
means are reals and the bin edges are a sequence of eight reals. A cell left
missing by a left join is `None`. Converted to text (`astype(str)`), such a cell is
`"nan"`.

Choices made where the code is the authority:

- **Missing fragment.** A description fragment missing after the join contributes
  the text `"nan"` to the description, because that is what `astype(str)` makes of a
  missing cell. It is not an empty string.
- **Over-wide identifiers.** `rjust` pads and never truncates or fails. An
  identifier already as wide as its key, or wider, is kept as it is.
- **The line-388 comment.** The comment says an `ma+` column is dropped "unless
  there is a ba as well". The mask on line 389 drops every description containing
  `ma+`, whatever else it holds. The model follows the code:
  `Resolver.MaPlusRejected` and `Resolver.BaPlusMaPlusExample`.

## Model

| member | source | states |
|---|---|---|
| Identifiers.RJust | code/ca_teacher_salaries.py:86 | `str.rjust(w, fill)`: result length is max(w, \|s\|); `s` is its suffix; every added character is `fill`; a string at least `w` wide comes back unchanged (no truncation) |
| Identifiers.CountyKey | code/ca_teacher_salaries.py:86 | the county key is two characters for a one-character number, and as long as the number otherwise |
| Identifiers.CountyKeyExamples | code/ca_teacher_salaries.py:86 | county "5" becomes "05"; "37" is unchanged |
| Identifiers.NatToString | code/ca_teacher_salaries.py:331 | `astype(str)` of a non-negative integer: at least one digit, all digits, no leading zero unless the number is 0; characterised by `NatToStringRoundTrip` |
| Identifiers.IntToString | code/ca_teacher_salaries.py:331 | `astype(str)` of any integer, a minus sign before a negative one; no contract; characterised through `NatToString` |
| Identifiers.CdsKey | code/ca_teacher_salaries.py:331 | `astype(str).str.rjust(7, '0')` of the integer code; no contract; characterised by `CdsKeyRestoresCode` and `CdsKeyInjective` |
| Identifiers.NatToStringRoundTrip | code/ca_teacher_salaries.py:331 | reading back the decimal text of a number gives the number |
| Identifiers.NatToStringLength | code/ca_teacher_salaries.py:331 | a number below 10^k has at most k digits |
| Identifiers.DigitsValueBound | code/ca_teacher_salaries.py:331 | a k-digit string denotes a number below 10^k |
| Identifiers.LeadingZerosValue | code/ca_teacher_salaries.py:331 | leading zeros do not change the number a digit string denotes |
| Identifiers.DigitsValueInjective | code/ca_teacher_salaries.py:331 | equal-length digit strings that denote the same number are equal |
| Identifiers.PaddedValue | code/ca_teacher_salaries.py:331 | the zero-padded text of a number is all digits and denotes the number |
| Identifiers.PadRestoresCode | code/ca_teacher_salaries.py:331 | a w-digit code read as an integer and padded back to width w is the original code |
| Identifiers.CdsKeyRestoresCode | code/ca_teacher_salaries.py:331 | a seven-digit CDS code that `read_csv` turned into an integer is restored exactly by line 331, leading zero included |
| Identifiers.CdsKeyInjective | code/ca_teacher_salaries.py:331 | distinct non-negative district numbers never share a padded key |
| Identifiers.CdsKeyExample | code/ca_teacher_salaries.py:331 | 171365 becomes "0171365" |
| Identifiers.DistrictType | code/ca_teacher_salaries.py:333-343 | `f` names a code exactly when it is 0 to 4, and gives `None` for every other code |
| Identifiers.DistrictTypeInjective | code/ca_teacher_salaries.py:333-343 | two codes that `f` names alike are the same code |
| Tables.Filter | code/ca_teacher_salaries.py:112 | a boolean mask keeps exactly the rows that satisfy it and adds none |
| Tables.FilterConcat | code/ca_teacher_salaries.py:382 | a mask distributes over concatenation, so it removes rows without reordering them |
| Tables.FilterKeepsAll | code/ca_teacher_salaries.py:382 | a mask every row passes returns the table unchanged |
| Tables.FilterNoneKept | code/ca_teacher_salaries.py:92 | a mask no row passes returns the empty table (used to show that a right row matching a left row has no earlier match, when the join has one row per left row) |
| Tables.Map | code/ca_teacher_salaries.py:383 | a column rewrite keeps the row count and rewrites row i from row i |
| Tables.MapMembers | code/ca_teacher_salaries.py:383 | each rewritten row comes from an input row, and each input row's image is present |
| Tables.Choose | code/ca_teacher_salaries.py:143 | dropping the rows without a value keeps exactly the present values |
| Tables.ChooseKeepsAll | code/ca_teacher_salaries.py:143 | when no row lacks its value, nothing is dropped and the order is kept |
| Tables.LeftJoin | code/ca_teacher_salaries.py:92 | `merge(how = "left")`, used for the merges of lines 92, 96, 128, 359 and 407; no contract; characterised by `LeftJoinSound`, `LeftJoinComplete` and `LeftJoinOneToOne` |
| Tables.LeftJoinSound | code/ca_teacher_salaries.py:92 | every joined row pairs a left row with a matching right row, or with nothing when no right row matches |
| Tables.LeftJoinComplete | code/ca_teacher_salaries.py:92 | every left row appears, and every matching (left, right) pair appears |
| Tables.LeftJoinOneToOne | code/ca_teacher_salaries.py:92 | when each left row has at most one match, the join has exactly one row per left row, in order |
| Resolver.TeacherSalaries | code/ca_teacher_salaries.py:92-95 | `teacher_salary`; no contract; characterised by `TeacherSalariesExclude`, `TeacherSalariesOrigin`, `TeacherSalariesKeepRows`, `TeacherSalariesDescriptions` and `TeacherSalariesOnePerRow` |
| Resolver.TeacherSalariesExclude | code/ca_teacher_salaries.py:92 | no row of `teacher_salary` has cds "5171365" |
| Resolver.TeacherSalariesOrigin | code/ca_teacher_salaries.py:92-95 | every row of `teacher_salary` carries the fields of a schedule row outside the excluded district: the join invents no row |
| Resolver.TeacherSalariesKeepRows | code/ca_teacher_salaries.py:92-95 | every schedule row outside the excluded district appears in `teacher_salary` at least once |
| Resolver.TeacherSalariesDescriptions | code/ca_teacher_salaries.py:92-95 | a row's description fragments come from a kept descriptor with its (cds, column); all three are missing together, and exactly when no such descriptor exists |
| Resolver.TeacherSalariesOnePerRow | code/ca_teacher_salaries.py:92 | with (cds, column) unique among descriptors, `teacher_salary` has exactly one row per kept schedule row, in order |
| Resolver.CellText | code/ca_teacher_salaries.py:101 | `astype(str)` of one fragment cell, "nan" when missing; no contract; characterised by `DescribeSpaces` |
| Resolver.Describe | code/ca_teacher_salaries.py:101 | the fragments joined by single spaces (also line 363); no contract; characterised by `DescribeSpaces` and `UndescribedNeverKept` |
| Resolver.OccurrencesConcat | code/ca_teacher_salaries.py:101 | counting a character distributes over concatenation |
| Resolver.DescribeSpaces | code/ca_teacher_salaries.py:101 | the description has the spaces of its fragments plus two, so always at least two; a missing fragment is written "nan", not skipped |
| Resolver.FirstStep | code/ca_teacher_salaries.py:112 | `years_experience == '1'` (also line 382); a missing step never equals; no contract; characterised by `Pipeline.CountyCohortExact` and `Pipeline.DistrictCohortExact`, whose cohort rows all have step "1" |
| Resolver.Widen | code/ca_teacher_salaries.py:96-102 | a joined row keeps the unit's name, and has a step and a salary exactly when the join found a schedule row |
| Resolver.CountyMask | code/ca_teacher_salaries.py:112 | `str.contains('ba\|ma', case = False)`; no contract; characterised by `MasksIgnoreCase`, `MaAccepted` and `BareBaOnlyInCounties` |
| Resolver.CountyCohort | code/ca_teacher_salaries.py:112 | step "1" and the county mask; no contract; characterised by `Pipeline.CountyCohortExact` |
| Text.Strip | code/ca_teacher_salaries.py:383 | `str.strip()`; no contract; characterised by `Text.StripBounds` and `Text.StripKeepsSearch` |
| Resolver.DegreeMatch | code/ca_teacher_salaries.py:389 | the regular-expression alternatives of line 389 on lower-cased text; no contract; characterised by `DegreeMatchReduces` |
| Resolver.DistrictMask | code/ca_teacher_salaries.py:383-389 | strip, then the mask of line 389; no contract; characterised by `DistrictMaskIff` and `MaPlusRejected` |
| Resolver.DistrictCohort | code/ca_teacher_salaries.py:389 | the mask of line 389 on a row already stripped at line 383; no contract; characterised by `Pipeline.DistrictCohortExact` |
| Resolver.DegreeMatchReduces | code/ca_teacher_salaries.py:389 | the regular-expression mask equals: (has `ba+<digit>` or `ma`) and lacks `ma+` |
| Resolver.DistrictMaskIff | code/ca_teacher_salaries.py:383-389 | after stripping and in any letter case, the district mask keeps exactly the descriptions with `ba+<digit>` or `ma` that lack `ma+` |
| Resolver.MasksIgnoreCase | code/ca_teacher_salaries.py:112 | both masks keep or drop two descriptions that differ only in letter case together |
| Resolver.MaPlusRejected | code/ca_teacher_salaries.py:389 | any description containing `ma+` in any case is rejected, with or without `ba+<digits>` |
| Resolver.MaAccepted | code/ca_teacher_salaries.py:389 | a description with `ma` and no `ma+` passes both masks |
| Resolver.BareBaOnlyInCounties | code/ca_teacher_salaries.py:112 | a bare `ba` description with no `ma` and no `ba+<digit>` is kept by the county mask and rejected by the district mask |
| Resolver.BareBaExample | code/ca_teacher_salaries.py:389 | "BA" passes the county mask and fails the district mask |
| Resolver.DegreeExamples | code/ca_teacher_salaries.py:389 | "MA" and "BA+60" pass the district mask |
| Resolver.MaPlusUnitsExample | code/ca_teacher_salaries.py:389 | "MA+30 UNITS" fails the district mask |
| Resolver.BaPlusMaPlusExample | code/ca_teacher_salaries.py:388-389 | "BA+30 MA+15" fails the district mask although it has a bachelor's part |
| Resolver.UndescribedNeverKept | code/ca_teacher_salaries.py:101 | a row whose description is "nan nan nan" (a unit or column with no description) is dropped by both cohort filters |
| Text.Lower | code/ca_teacher_salaries.py:112 | lower-casing maps each character and keeps the length |
| Text.StripBounds | code/ca_teacher_salaries.py:383 | `str.strip` returns the slice between the first and the last non-whitespace character; everything removed is whitespace |
| Text.Contains | code/ca_teacher_salaries.py:389 | a regular-expression search for a literal pattern with digit classes (also the searches of line 112); no contract; characterised by `SpacesThenIsContains`, `ContainsTail`, `TooLongAbsent`, `FirstCharAbsent` and `StripKeepsSearch` |
| Text.StartsWith | code/ca_teacher_salaries.py:389 | the search for `^ma`: the pattern at position 0; no contract; characterised by `Resolver.DegreeMatchReduces` |
| Text.SpacesThen | code/ca_teacher_salaries.py:389 | the searches for ` *ma` and ` *ma\+`: zero or more spaces, then the pattern; no contract; characterised by `SpacesThenIsContains` |
| Text.SpacesThenIsContains | code/ca_teacher_salaries.py:389 | ` *p` finds a match exactly when `p` does, since ` *` matches no space |
| Text.StripKeepsSearch | code/ca_teacher_salaries.py:383 | stripping never changes whether a pattern without spaces is found |
| Aggregator.CountPositive | code/ca_teacher_salaries.py:121 | a unit has rows exactly when it is one of the grouped names; with no rows its total is 0 |
| Aggregator.TotalBounds | code/ca_teacher_salaries.py:121 | the total of a unit's salaries lies between count × lowest and count × highest |
| Aggregator.MeanBounds | code/ca_teacher_salaries.py:121 | a unit's mean lies between its lowest and highest salary |
| Aggregator.Tally | code/ca_teacher_salaries.py:121 | one pass over the rows gives, for each name present, the total and count of its salaries, with each name listed once |
| Aggregator.GroupMeans | code/ca_teacher_salaries.py:121 | one group per distinct name; each group's mean is the sum of its salaries divided by its row count |
| Aggregator.Insert | code/ca_teacher_salaries.py:122 | inserting into a descending list keeps it descending and adds exactly the new group |
| Aggregator.RankDescending | code/ca_teacher_salaries.py:122 | the ranking is a permutation of the groups, in descending order of mean, positions 0..n-1 each used once |
| Aggregator.RankingKeepsGroups | code/ca_teacher_salaries.py:122 | the ranking holds each group once and nothing else |
| Aggregator.RankedMeansDetermined | code/ca_teacher_salaries.py:122 | any two descending orderings of the same groups have the same mean at every position, so only tie order is left open |
| Pipeline.RankCohort | code/ca_teacher_salaries.py:121-122 | the ranking table of a cohort: one row per unit with its mean, positions in order, means descending |
| Pipeline.CountyMap | code/ca_teacher_salaries.py:85-143 | the cohort is exactly the first-step `ba`/`ma` salaries of the mainland counties; the features are exactly the counties with a mean, titled "<name> County" and ranked from 1; ranks lie in 1..n and a lower rank never carries a lower mean |
| Pipeline.CountyCohortExact | code/ca_teacher_salaries.py:96-112 | the county cohort is sound and complete with respect to the county, schedule and mask conditions |
| Pipeline.CountyFeaturesExact | code/ca_teacher_salaries.py:128-143 | the county features are exactly the joined counties with a mean, titled and ranked from 1 |
| Pipeline.CountyFeature | code/ca_teacher_salaries.py:129-130 | one row of `county_df`: titled and ranked from 1, dropped when it has no mean (line 143); no contract; characterised by `CountyFeaturesExact` |
| Pipeline.DistrictMap | code/ca_teacher_salaries.py:323-410 | the cohort is exactly the first-step salaries passing the district mask; one feature per area, in order, titled "<name> School District"; ranked exactly when the district has cohort rows, with the mean at that rank, and salary 0 otherwise; ranks lie in 1..n and a lower rank never carries a lower mean |
| Pipeline.DistrictCohortExact | code/ca_teacher_salaries.py:359-391 | the district cohort is sound and complete; the join with the district table neither adds nor removes a salary |
| Pipeline.DistrictFeaturesExact | code/ca_teacher_salaries.py:407-410 | each area's feature is its title, its rank and mean when it has cohort rows, and salary 0 otherwise |
| Pipeline.DistrictFeature | code/ca_teacher_salaries.py:408-410 | one row of `district_df`: titled, ranked from 1, salary 0 when it has no mean; no contract; characterised by `DistrictFeaturesExact` |
| Pipeline.DistrictRanksOrdered | code/ca_teacher_salaries.py:409 | district features ranked by position keep ranks in 1..n with means descending by rank |
| Pipeline.RanksOrdered | code/ca_teacher_salaries.py:130 | ranks lie in 1..n, and a lower rank never carries a lower mean |
| Choropleth.Shade | code/ca_teacher_salaries.py:166-174 | the interval chain always gives a palette colour or "black" |
| Choropleth.CountyFill | code/ca_teacher_salaries.py:158-174 | the county fill is never the grey of line 164, since the NaN test of line 165 never holds: always a palette colour or "black" |
| Choropleth.DistrictFill | code/ca_teacher_salaries.py:437-447 | a district is grey exactly when its salary is 0 |
| Choropleth.ShadeInterval | code/ca_teacher_salaries.py:166-172 | with sorted edges, b[k] ≤ s < b[k+1] gives colour k, for k in 0..6 |
| Choropleth.ShadeTop | code/ca_teacher_salaries.py:173 | with sorted edges, s ≥ b[7] gives colour 7 |
| Choropleth.ShadeBelow | code/ca_teacher_salaries.py:174 | with sorted edges, s < b[0] gives "black" |
| Choropleth.ShadeIsBucket | code/ca_teacher_salaries.py:439-447 | with sorted edges the chain agrees with a reference bucket, the count c of edges at or below s: "black" when c = 0, otherwise colour c-1 |
| Choropleth.ShadeInPalette | code/ca_teacher_salaries.py:153-174 | with sorted edges starting at or below s, s always gets a palette colour, never "black" |

## Left out

- File loading and saving (`read_file`, `read_csv`, `m.save`), `display` and `print`, including the count of missing codes at line 358: input and output only. The tables are given as sequences of rows.
- The `ISLAND` filter of line 85 and all geometry: the county boundary file is given as its mainland rows. The district boundary file (line 322) is used whole, with no such filter. Both are given without polygons.
- Folium maps, tooltips, highlight styles, the HTML legends and titles, `MeasureControl` and `Geocoder`: presentation in a foreign library.
- `np.linspace` bin edges, `.round(2)` and `'${:,.2f}'` formatting: floating-point numerics. The eight bin edges are a parameter.
- The `sal == np.nan` test of line 165 is not modelled as a comparison: it never holds under IEEE comparison, so `Choropleth.CountyFill` is the interval chain and never grey.
- The conversions of `salary` and `education_level_column` to numbers (lines 114-115, 367-368, 392): salaries are whole numbers from the start, and the column number is not used afterwards. The model therefore does not capture that `astype(int)` at lines 114 and 367 raises on column text that is not an integer.
- The broad district filter of line 365: its result is only converted at lines 367-368 (see the conversions line above), then replaced at line 391.
- `\d` matches ASCII digits only, and letter case is folded for ASCII letters only: no Unicode digit classes or case folding.
- Aggregator.RankDescending: the order among equal means is left open, since the ranking states only that means descend. `RankedMeansDetermined` shows that only the tie order is unspecified.
- Aggregator.GroupMeans: groups are produced in order of first appearance, whereas pandas sorts the group keys. This changes only the tie order after ranking.
- Pipeline.CountyMap: states which salaries are in the cohort, not how many times each one appears. The means are those of the cohort sequence itself (`Pipeline.RankCohort`).
- Pipeline.DistrictMap: states which salaries are in the cohort, not how many times each one appears, as for the county map.
- The district type decoded at line 345 is carried through the join of line 359 but never read afterwards.
