/** Option, for nullable columns and absent request keys. */
module Wrappers {
  datatype Option<+T> = None | Some(value: T) {
    function GetOr(default: T): T
    {
      match this
      case Some(v) => v
      case None => default
    }
  }
}

/**
 * The `contributions` table as the migration declares it: the shape of a row,
 * the column defaults and ranges, and the unique key over
 * (user_id, contribution_year, contribution_month).
 */
module Schema {
  import opened Wrappers

  /** A calendar date. `contributed_at` is a DATE column; of the `created_at`
   *  timestamp only the date part is kept. */
  datatype Date = Date(year: int, month: int, day: int)

  predicate IsLeapYear(y: int)
  {
    (y % 4 == 0 && y % 100 != 0) || y % 400 == 0
  }

  function DaysInMonth(y: int, m: int): int
    requires 1 <= m <= 12
  {
    if m == 2 then (if IsLeapYear(y) then 29 else 28)
    else if m == 4 || m == 6 || m == 9 || m == 11 then 30
    else 31
  }

  /** What the `date` validation rule accepts: a Gregorian date that PHP's
   *  `checkdate` admits (years 1 to 32767). */
  predicate ValidDate(d: Date)
  {
    && 1 <= d.year <= 32767
    && 1 <= d.month <= 12
    && 1 <= d.day <= DaysInMonth(d.year, d.month)
  }

  /** Chronological order on dates (`ORDER BY contributed_at`). */
  predicate DateLe(a: Date, b: Date)
  {
    || a.year < b.year
    || (a.year == b.year && a.month < b.month)
    || (a.year == b.year && a.month == b.month && a.day <= b.day)
  }

  /** Amounts are held in cents: `decimal(10, 2)` and the model's `decimal:2` cast. */
  const MaxAmount: int := 99_999_999_99
  /** The column default, 4000.00. */
  const DefaultAmount: int := 4000_00

  predicate FitsAmountColumn(a: int)
  {
    -MaxAmount <= a <= MaxAmount
  }

  /** One row of `contributions`. Every column but `notes` is NOT NULL. */
  datatype Row = Row(
    id: nat,
    userId: nat,
    amount: int,
    contributedAt: Date,
    createdBy: nat,
    notes: Option<string>,
    contributionYear: int,
    contributionMonth: int,
    createdAt: Date)

  /** The columns of the unique index. */
  function Period(r: Row): (nat, int, int)
  {
    (r.userId, r.contributionYear, r.contributionMonth)
  }

  /** The derived period columns agree with `contributed_at`. */
  predicate PeriodMatchesDate(r: Row)
  {
    r.contributionYear == r.contributedAt.year && r.contributionMonth == r.contributedAt.month
  }

  /** The table in primary-key order: auto-increment ids, so strictly increasing. */
  predicate IdsIncreasing(rows: seq<Row>)
  {
    forall i, j :: 0 <= i < j < |rows| ==> rows[i].id < rows[j].id
  }

  /** `unique(['user_id', 'contribution_year', 'contribution_month'])`. */
  predicate UniquePeriods(rows: seq<Row>)
  {
    forall i, j :: 0 <= i < j < |rows| ==> Period(rows[i]) != Period(rows[j])
  }

  /** The two key constraints of the table. */
  predicate KeyConstraints(rows: seq<Row>)
  {
    IdsIncreasing(rows) && UniquePeriods(rows)
  }
}
