/** The rows of the tables the pipeline reads and derives. Every field the
    pipeline does not read (geometry, the other columns of the files) is
    left out; identifiers and the salary-schedule coordinates are text, as
    the files give them, and salaries are whole dollars. */
module Records {
  import opened Tables

  /** A mainland row of the county boundary file: `COUNTY_NUM` (text, as
      yet unpadded) and `COUNTY_NAM`. */
  datatype County = County(num: string, name: string)

  /** A row of the salary-schedule table (`tsal321`): `county`, `district`,
      `cds`, the column `ts3_col`, the step `ts3_step` and `ts3_salary`. */
  datatype ScheduleRow = ScheduleRow(
    county: string, district: string, cds: string, column: string, step: string, salary: int)

  /** A row of the column-description table (`tsal221`): `cds`, the column
      `ts2_col` and the three description fragments `ts2_col1`,
      `ts2_col1a` and `ts2_col2`. */
  datatype ColumnDescriptor = ColumnDescriptor(
    cds: string, column: string, desc1: string, desc1a: string, desc2: string)

  /** A row of `teacher_salary`: a schedule row with the fragments of its
      column's description, each missing when no descriptor matched. */
  datatype TeacherSalary = TeacherSalary(
    county: string, district: string, cds: string, column: string,
    desc1: Option<string>, desc2: Option<string>, desc3: Option<string>,
    step: string, salary: int)

  /** A row of the district boundary file: `CDCode` (renamed `cds`) and
      `DistrictNa`. */
  datatype DistrictArea = DistrictArea(cds: string, name: string)

  /** A row of the district table (`tsal121`) as `pd.read_csv` infers it:
      the code `cds` and the type code `ts1_type` as integers. */
  datatype DistrictInfoRow = DistrictInfoRow(cds: int, kind: int)

  /** The same row once its code is padded and its type decoded. */
  datatype DistrictInfo = DistrictInfo(cds: string, kind: Option<string>)

  /** A row of `county_salary` or `district_salary` as the cohort filters
      see it: the unit's name, the step (missing when the unit has no
      schedule row), the joined description text, and the salary. */
  datatype WideRow = WideRow(name: string, step: Option<string>, desc: string, salary: Option<int>)

  /** One kept salary of one unit, the input of the group mean. */
  datatype Observation = Observation(name: string, salary: int)
}
