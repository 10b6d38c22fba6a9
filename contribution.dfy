/**
 * The `Contribution` model instance: the attributes of one record while it is
 * being saved, mass assignment restricted to the fillable attributes, and the
 * `creating` / `updating` hooks that derive `contribution_year` and
 * `contribution_month` from `contributed_at`.
 */
module Model {
  import opened Wrappers
  import opened Schema

  /** A mass-assignment array. Its fields are exactly the `$fillable`
   *  attributes, so `contribution_year` and `contribution_month` cannot be
   *  assigned this way. `user_id`, `contributed_at` and `notes` are present in
   *  both arrays the controller passes; `None` in `amount` or `createdBy`
   *  means that key is absent. */
  datatype Fillable = Fillable(
    userId: nat,
    contributedAt: Date,
    notes: Option<string>,
    amount: Option<int>,
    createdBy: Option<nat>)

  class Contribution {
    var userId: Option<nat>
    var amount: Option<int>
    var contributedAt: Option<Date>
    var createdBy: Option<nat>
    var notes: Option<string>
    var contributionYear: Option<int>
    var contributionMonth: Option<int>
    /** `contributed_at` as last read from the table; what `isDirty` compares against. */
    var originalContributedAt: Option<Date>

    /** `new Contribution`: no attribute set yet. */
    constructor ()
      ensures userId == None && amount == None && contributedAt == None && createdBy == None
      ensures notes == None && contributionYear == None && contributionMonth == None
      ensures originalContributedAt == None
    {
      userId, amount, contributedAt, createdBy := None, None, None, None;
      notes, contributionYear, contributionMonth := None, None, None;
      originalContributedAt := None;
    }

    /** The instance route-model binding reads from a stored row. */
    constructor Load(r: Row)
      ensures userId == Some(r.userId) && amount == Some(r.amount)
      ensures contributedAt == Some(r.contributedAt) && createdBy == Some(r.createdBy)
      ensures notes == r.notes
      ensures contributionYear == Some(r.contributionYear) && contributionMonth == Some(r.contributionMonth)
      ensures originalContributedAt == Some(r.contributedAt)
    {
      userId, amount := Some(r.userId), Some(r.amount);
      contributedAt, createdBy := Some(r.contributedAt), Some(r.createdBy);
      notes := r.notes;
      contributionYear, contributionMonth := Some(r.contributionYear), Some(r.contributionMonth);
      originalContributedAt := Some(r.contributedAt);
    }

    /** `fill`: sets the keys present in `attrs`; the derived period attributes
     *  and the original value are left as they were. */
    method Fill(attrs: Fillable)
      modifies this
      ensures userId == Some(attrs.userId)
      ensures contributedAt == Some(attrs.contributedAt)
      ensures notes == attrs.notes
      ensures amount == (if attrs.amount.Some? then attrs.amount else old(amount))
      ensures createdBy == (if attrs.createdBy.Some? then attrs.createdBy else old(createdBy))
      ensures contributionYear == old(contributionYear) && contributionMonth == old(contributionMonth)
      ensures originalContributedAt == old(originalContributedAt)
    {
      userId := Some(attrs.userId);
      contributedAt := Some(attrs.contributedAt);
      notes := attrs.notes;
      if attrs.amount.Some? {
        amount := attrs.amount;
      }
      if attrs.createdBy.Some? {
        createdBy := attrs.createdBy;
      }
    }

    /** `isDirty('contributed_at')`. */
    predicate IsDirtyContributedAt()
      reads this
    {
      contributedAt != originalContributedAt
    }

    /** The `creating` hook: when `contributed_at` is set, copy its year and
     *  month into the period attributes; otherwise leave them unset. */
    method Creating()
      modifies this
      ensures contributedAt.Some? ==>
        contributionYear == Some(contributedAt.value.year) && contributionMonth == Some(contributedAt.value.month)
      ensures contributedAt.None? ==>
        contributionYear == old(contributionYear) && contributionMonth == old(contributionMonth)
      ensures userId == old(userId) && amount == old(amount) && contributedAt == old(contributedAt)
      ensures createdBy == old(createdBy) && notes == old(notes)
      ensures originalContributedAt == old(originalContributedAt)
    {
      if contributedAt.Some? {
        contributionYear := Some(contributedAt.value.year);
        contributionMonth := Some(contributedAt.value.month);
      }
    }

    /** The `updating` hook: the period attributes are recomputed only when
     *  `contributed_at` changed. Parsing an absent date yields `now`. */
    method Updating(now: Date)
      modifies this
      ensures IsDirtyContributedAt() ==>
        contributionYear == Some(contributedAt.GetOr(now).year)
        && contributionMonth == Some(contributedAt.GetOr(now).month)
      ensures !IsDirtyContributedAt() ==>
        contributionYear == old(contributionYear) && contributionMonth == old(contributionMonth)
      ensures userId == old(userId) && amount == old(amount) && contributedAt == old(contributedAt)
      ensures createdBy == old(createdBy) && notes == old(notes)
      ensures originalContributedAt == old(originalContributedAt)
    {
      if IsDirtyContributedAt() {
        var d := contributedAt.GetOr(now);
        contributionYear := Some(d.year);
        contributionMonth := Some(d.month);
      }
    }

    /** The table accepts the instance: every NOT NULL column without a
     *  default has a value, and the amount (or its default) fits `decimal(10, 2)`. */
    predicate Persistable()
      reads this
    {
      && userId.Some? && contributedAt.Some? && createdBy.Some?
      && contributionYear.Some? && contributionMonth.Some?
      && FitsAmountColumn(amount.GetOr(DefaultAmount))
    }

    /** The row written for this instance; an unset amount takes the column default. */
    function ToRow(id: nat, createdAt: Date): (r: Row)
      reads this
      requires Persistable()
      ensures r.id == id && r.createdAt == createdAt && FitsAmountColumn(r.amount)
      ensures amount.None? ==> r.amount == DefaultAmount
      ensures Some(r.userId) == userId && Some(r.contributedAt) == contributedAt && Some(r.createdBy) == createdBy
      ensures r.notes == notes
      ensures Some(r.contributionYear) == contributionYear && Some(r.contributionMonth) == contributionMonth
    {
      Row(id, userId.value, amount.GetOr(DefaultAmount), contributedAt.value, createdBy.value,
          notes, contributionYear.value, contributionMonth.value, createdAt)
    }
  }
}
