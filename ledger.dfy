/**
 * The contributions controller: listing, store, update and destroy on the
 * `contributions` table, with the duplicate-period check that runs before
 * every write, and the cascade the table carries when a user is deleted.
 */
module Ledger {
  import opened Wrappers
  import opened Schema
  import opened Query
  import Model
  import Listing

  /** The amount `store` writes, whatever the request says: 4000.00. */
  const FixedAmount: int := 4000_00
  /** The `max:255` rule on `notes`. */
  const MaxNotesLength: nat := 255

  /** The authenticated user: an id and the names of the roles held. */
  datatype Actor = Actor(id: nat, roles: set<string>)

  datatype Action = ViewAny | Create | Update | Delete

  predicate IsMember(a: Actor)
  {
    "member" in a.roles
  }

  /** The `role:admin|treasurer` middleware in front of the write routes. */
  predicate MayManage(a: Actor)
  {
    "admin" in a.roles || "treasurer" in a.roles
  }

  /** Requests that pass the middleware and the `authorize` call. */
  predicate Authorized(a: Actor, action: Action)
  {
    action == ViewAny || MayManage(a)
  }

  /** The submitted form as `validate` sees it, after the global middleware
   *  has trimmed every string and turned empty strings into null:
   *  `user_id`, `contributed_at` (already read as a calendar date) and
   *  `notes`; `None` for a missing or null value. */
  datatype Request = Request(userId: Option<nat>, contributedAt: Option<Date>, notes: Option<string>)

  datatype Field = UserIdField | ContributedAtField | NotesField

  /** Why a field was refused. */
  datatype Reason = Missing | UnknownUser | NotADate | TooLong | AlreadyContributed

  /** What the request got back: success, field errors, or no such record. */
  datatype Outcome = Done | Invalid(errors: map<Field, Reason>) | NotFound

  /** The error `store` and `update` return on a duplicate period. */
  const DuplicateError: Outcome := Invalid(map[ContributedAtField := AlreadyContributed])

  /** The request passes `validate`: an existing user, a real date, notes of
   *  at most 255 characters or none. */
  predicate WellFormed(req: Request, users: set<nat>)
  {
    && req.userId.Some? && req.userId.value in users
    && req.contributedAt.Some? && ValidDate(req.contributedAt.value)
    && (req.notes.Some? ==> |req.notes.value| <= MaxNotesLength)
  }

  /** The errors `validate` reports, one per failing field. */
  function ValidationErrors(req: Request, users: set<nat>): (errs: map<Field, Reason>)
    ensures errs == map[] <==> WellFormed(req, users)
    ensures UserIdField in errs <==> !(req.userId.Some? && req.userId.value in users)
    ensures ContributedAtField in errs <==> !(req.contributedAt.Some? && ValidDate(req.contributedAt.value))
    ensures NotesField in errs <==> (req.notes.Some? && |req.notes.value| > MaxNotesLength)
  {
    var user :=
      if req.userId.None? then map[UserIdField := Missing]
      else if req.userId.value !in users then map[UserIdField := UnknownUser]
      else map[];
    var date :=
      if req.contributedAt.None? then map[ContributedAtField := Missing]
      else if !ValidDate(req.contributedAt.value) then map[ContributedAtField := NotADate]
      else map[];
    var notes :=
      if req.notes.Some? && |req.notes.value| > MaxNotesLength then map[NotesField := TooLong]
      else map[];
    var errs := user + date + notes;
    assert errs.Keys == user.Keys + date.Keys + notes.Keys;
    assert errs.Keys == {} ==> errs == map[];
    assert errs == map[] ==> errs.Keys == {};
    assert UserIdField in user.Keys <==> !(req.userId.Some? && req.userId.value in users);
    assert ContributedAtField in date.Keys <==> !(req.contributedAt.Some? && ValidDate(req.contributedAt.value));
    assert NotesField in notes.Keys <==> (req.notes.Some? && |req.notes.value| > MaxNotesLength);
    assert user.Keys <= {UserIdField} && date.Keys <= {ContributedAtField} && notes.Keys <= {NotesField};
    errs
  }

  /** The duplicate query: rows of `userId` in the period (year, month), other
   *  than the row `except` names. */
  function Duplicates(userId: nat, year: int, month: int, except: Option<nat>): Filter
  {
    var period := And(And(UserIs(userId), PeriodYearIs(year)), PeriodMonthIs(month));
    if except.Some? then And(period, Not(IdIs(except.value))) else period
  }

  predicate HasConflict(rows: seq<Row>, userId: nat, year: int, month: int, except: Option<nat>)
  {
    Exists(rows, Duplicates(userId, year, month, except))
  }

  /** A row is a duplicate exactly when it holds the period and is not the excepted row. */
  lemma MatchesDuplicates(userId: nat, year: int, month: int, except: Option<nat>, r: Row)
    ensures Matches(Duplicates(userId, year, month, except), r)
        <==> Period(r) == (userId, year, month) && except != Some(r.id)
  {
    var period := And(And(UserIs(userId), PeriodYearIs(year)), PeriodMonthIs(month));
    assert Matches(And(UserIs(userId), PeriodYearIs(year)), r) <==> r.userId == userId && r.contributionYear == year;
    assert Matches(period, r) <==> Period(r) == (userId, year, month);
    if except.Some? {
      assert Matches(Not(IdIs(except.value)), r) <==> r.id != except.value;
      assert Matches(And(period, Not(IdIs(except.value))), r) <==> Matches(period, r) && r.id != except.value;
    }
  }

  /** The duplicate check finds a row exactly when some other row holds the period. */
  lemma ConflictIff(rows: seq<Row>, userId: nat, year: int, month: int, except: Option<nat>)
    ensures HasConflict(rows, userId, year, month, except)
        <==> exists i :: 0 <= i < |rows| && Period(rows[i]) == (userId, year, month) && except != Some(rows[i].id)
  {
    forall i | 0 <= i < |rows| {
      MatchesDuplicates(userId, year, month, except, rows[i]);
    }
  }

  /** The duplicate query for the user and the month of `contributed_at` in a request. */
  predicate RequestConflicts(rows: seq<Row>, req: Request, except: Option<nat>)
    requires req.userId.Some? && req.contributedAt.Some?
  {
    HasConflict(rows, req.userId.value, req.contributedAt.value.year, req.contributedAt.value.month, except)
  }

  /** The row with id `id`, the row route-model binding resolves. */
  function Find(rows: seq<Row>, id: nat): (k: Option<nat>)
    ensures k.Some? ==> k.value < |rows| && rows[k.value].id == id
    ensures k.None? ==> forall i :: 0 <= i < |rows| ==> rows[i].id != id
  {
    if rows == [] then None
    else if rows[|rows| - 1].id == id then Some(|rows| - 1)
    else Find(rows[..|rows| - 1], id)
  }

  /** What every stored row satisfies: the derived period agrees with the
   *  date, the amount is the fixed one, and the validated fields are valid. */
  predicate StoredRowOk(r: Row)
  {
    && PeriodMatchesDate(r)
    && r.amount == FixedAmount
    && ValidDate(r.contributedAt)
    && ValidDate(r.createdAt)
    && (r.notes.Some? ==> |r.notes.value| <= MaxNotesLength)
  }

  /** The ledger invariant: the key constraints, ids below the next
   *  auto-increment value, and every row as `StoredRowOk` says. */
  predicate LedgerInvariant(rows: seq<Row>, nextId: nat)
  {
    && KeyConstraints(rows)
    && forall r :: r in rows ==> r.id < nextId && StoredRowOk(r)
  }

  /** The row `update` leaves behind: new user, date and notes and the period
   *  of the new date; id, amount, creator and creation time are kept. */
  function Edited(r: Row, userId: nat, d: Date, notes: Option<string>): (e: Row)
    ensures e.id == r.id && e.amount == r.amount && e.createdBy == r.createdBy && e.createdAt == r.createdAt
    ensures e.userId == userId && e.contributedAt == d && e.notes == notes
    ensures PeriodMatchesDate(e)
  {
    r.(userId := userId, contributedAt := d, notes := notes, contributionYear := d.year, contributionMonth := d.month)
  }

  /** The rows a caller may list: only their own when they hold the `member`
   *  role, whatever else they hold; all rows otherwise. */
  function VisibleTo(a: Actor): Filter
  {
    if IsMember(a) then UserIs(a.id) else All
  }

  /** The rows the cascade removes when user `u` is deleted: `user_id` or `created_by` is `u`. */
  function Involving(u: nat): Filter
  {
    Or(UserIs(u), CreatorIs(u))
  }

  /** A new row for a period nobody holds keeps the periods unique. */
  lemma AppendKeepsKeys(rows: seq<Row>, r: Row)
    requires KeyConstraints(rows)
    requires forall x :: x in rows ==> x.id < r.id
    requires !HasConflict(rows, r.userId, r.contributionYear, r.contributionMonth, None)
    ensures KeyConstraints(rows + [r])
  {
    var s := rows + [r];
    ConflictIff(rows, r.userId, r.contributionYear, r.contributionMonth, None);
    forall i, j | 0 <= i < j < |s| ensures s[i].id < s[j].id && Period(s[i]) != Period(s[j]) {
      if j == |rows| {
        assert s[i] == rows[i] && rows[i] in rows;
      }
    }
  }

  /** Rewriting a row, when no other row holds its new period, keeps the keys. */
  lemma ReplaceKeepsKeys(rows: seq<Row>, k: nat, r: Row)
    requires KeyConstraints(rows)
    requires k < |rows| && r.id == rows[k].id
    requires !HasConflict(rows, r.userId, r.contributionYear, r.contributionMonth, Some(r.id))
    ensures KeyConstraints(rows[k := r])
  {
    var s := rows[k := r];
    ConflictIff(rows, r.userId, r.contributionYear, r.contributionMonth, Some(r.id));
    forall i, j | 0 <= i < j < |s| ensures s[i].id < s[j].id && Period(s[i]) != Period(s[j]) {
      if i == k {
        assert rows[k].id < rows[j].id;
      } else if j == k {
        assert rows[i].id < rows[k].id;
      }
    }
  }

  /** Self-exclusion: an edit that keeps the user and the month of a stored
   *  row (changing only notes or the day, say) never meets a duplicate. */
  lemma SamePeriodEditNeverConflicts(rows: seq<Row>, nextId: nat, k: nat, d: Date)
    requires LedgerInvariant(rows, nextId)
    requires k < |rows|
    requires d.year == rows[k].contributedAt.year && d.month == rows[k].contributedAt.month
    ensures !HasConflict(rows, rows[k].userId, d.year, d.month, Some(rows[k].id))
  {
    assert rows[k] in rows;
    ConflictIff(rows, rows[k].userId, d.year, d.month, Some(rows[k].id));
    forall i | 0 <= i < |rows| && rows[i].id != rows[k].id
      ensures Period(rows[i]) != (rows[k].userId, d.year, d.month)
    {
      if i < k {
        assert Period(rows[i]) != Period(rows[k]);
      } else if k < i {
        assert Period(rows[k]) != Period(rows[i]);
      }
    }
  }

  /** Deleting by id removes exactly one row of the table when that id is present. */
  lemma {:induction false} DeleteRemovesOne(rows: seq<Row>, id: nat)
    requires IdsIncreasing(rows)
    requires Find(rows, id).Some?
    ensures |Where(rows, Not(IdIs(id)))| == |rows| - 1
  {
    var f := Not(IdIs(id));
    var init, last := rows[..|rows| - 1], rows[|rows| - 1];
    assert forall i :: 0 <= i < |init| ==> init[i] == rows[i];
    if last.id == id {
      assert !Matches(f, last);
      assert Where(rows, f) == Where(init, f);
      assert forall i :: 0 <= i < |init| ==> rows[i].id < last.id;
      WhereAllMatch(init, f);
    } else {
      assert Matches(f, last);
      assert Where(rows, f) == Where(init, f) + [last];
      assert Find(init, id).Some?;
      DeleteRemovesOne(init, id);
    }
  }

  /** A condition every row meets selects the whole table. */
  lemma {:induction false} WhereAllMatch(table: seq<Row>, f: Filter)
    requires forall i :: 0 <= i < |table| ==> Matches(f, table[i])
    ensures Where(table, f) == table
  {
    if table != [] {
      WhereAllMatch(table[..|table| - 1], f);
    }
  }

  class Ledger {
    /** The `contributions` table, in id order. */
    var rows: seq<Row>
    /** The next value of the auto-increment id. */
    var nextId: nat

    ghost predicate Valid()
      reads this
    {
      LedgerInvariant(rows, nextId)
    }

    constructor ()
      ensures Valid() && rows == [] && nextId == 1
    {
      rows, nextId := [], 1;
    }

    /** `index` before pagination: the rows the caller may see, newest `contributed_at` first. */
    function Listed(actor: Actor): (l: seq<Row>)
      reads this
      ensures Listing.NewestFirst(l)
      ensures forall x :: x in l <==> x in rows && (IsMember(actor) ==> x.userId == actor.id)
      ensures multiset(l) == multiset(Where(rows, VisibleTo(actor)))
    {
      var w := Where(rows, VisibleTo(actor));
      var l := Listing.SortByDateDesc(w);
      assert forall x :: x in l <==> x in multiset(l);
      assert forall x :: x in w <==> x in multiset(w);
      assert forall x :: Matches(VisibleTo(actor), x) <==> (IsMember(actor) ==> x.userId == actor.id);
      l
    }

    /** `index`: one page of ten rows of the listing, and the listing's size. */
    function Index(actor: Actor, page: int): (p: Listing.Page)
      reads this
      ensures |p.items| <= Listing.PerPage
      ensures Listing.NewestFirst(p.items)
      ensures forall x :: x in p.items ==> x in rows && (IsMember(actor) ==> x.userId == actor.id)
      ensures p.total == |Where(rows, VisibleTo(actor))|
      ensures p.currentPage == Listing.CurrentPage(page)
      ensures p.items == Listing.PageOf(Listed(actor), page)
    {
      var l := Listed(actor);
      assert |l| == |multiset(l)|;
      Listing.PageKeepsOrder(l, page);
      var items := Listing.PageOf(l, page);
      assert forall x :: x in items ==> x in l;
      Listing.Page(items, |l|, Listing.CurrentPage(page))
    }

    /** `store`: validate, refuse a second contribution of the user in the
     *  month of `contributed_at`, then insert a row with the fixed amount
     *  recorded by the acting user. */
    method Store(actor: Actor, req: Request, users: set<nat>, now: Date) returns (outcome: Outcome)
      requires Valid() && Authorized(actor, Action.Create) && ValidDate(now)
      modifies this
      ensures Valid()
      ensures !WellFormed(req, users) ==>
        outcome == Invalid(ValidationErrors(req, users)) && rows == old(rows) && nextId == old(nextId)
      ensures WellFormed(req, users) && RequestConflicts(old(rows), req, None) ==>
        outcome == DuplicateError && rows == old(rows) && nextId == old(nextId)
      ensures WellFormed(req, users) && !RequestConflicts(old(rows), req, None) ==>
        && outcome == Done
        && nextId == old(nextId) + 1
        && rows == old(rows) + [Row(old(nextId), req.userId.value, FixedAmount, req.contributedAt.value, actor.id,
                                    req.notes, req.contributedAt.value.year, req.contributedAt.value.month, now)]
    {
      var errs := ValidationErrors(req, users);
      if errs != map[] {
        return Invalid(errs);
      }
      var userId, d := req.userId.value, req.contributedAt.value;
      if HasConflict(rows, userId, d.year, d.month, None) {
        return DuplicateError;
      }
      var c := new Model.Contribution();
      c.Fill(Model.Fillable(userId, d, req.notes, Some(FixedAmount), Some(actor.id)));
      c.Creating();
      var row := c.ToRow(nextId, now);
      AppendKeepsKeys(rows, row);
      rows := rows + [row];
      nextId := nextId + 1;
      outcome := Done;
    }

    /** `update`: the bound record must exist; validate; refuse a period held
     *  by another row; then rewrite user, date and notes in place, with the
     *  period following the date. `now` is what the `updating` hook would
     *  parse for an unset `contributed_at`; here `fill` always sets it, so
     *  `now` never reaches the row. */
    method Update(actor: Actor, id: nat, req: Request, users: set<nat>, now: Date) returns (outcome: Outcome)
      requires Valid() && Authorized(actor, Action.Update)
      modifies this
      ensures Valid() && nextId == old(nextId)
      ensures Find(old(rows), id).None? ==> outcome == NotFound && rows == old(rows)
      ensures Find(old(rows), id).Some? && !WellFormed(req, users) ==>
        outcome == Invalid(ValidationErrors(req, users)) && rows == old(rows)
      ensures Find(old(rows), id).Some? && WellFormed(req, users) && RequestConflicts(old(rows), req, Some(id)) ==>
        outcome == DuplicateError && rows == old(rows)
      ensures Find(old(rows), id).Some? && WellFormed(req, users) && !RequestConflicts(old(rows), req, Some(id)) ==>
        var k := Find(old(rows), id).value;
        && outcome == Done
        && rows == old(rows)[k := Edited(old(rows)[k], req.userId.value, req.contributedAt.value, req.notes)]
    {
      var found := Find(rows, id);
      if found.None? {
        return NotFound;
      }
      var k := found.value;
      var errs := ValidationErrors(req, users);
      if errs != map[] {
        return Invalid(errs);
      }
      var userId, d := req.userId.value, req.contributedAt.value;
      if HasConflict(rows, userId, d.year, d.month, Some(id)) {
        return DuplicateError;
      }
      var oldRow := rows[k];
      assert oldRow in rows;
      var c := new Model.Contribution.Load(oldRow);
      c.Fill(Model.Fillable(userId, d, req.notes, None, None));
      c.Updating(now);
      var row := c.ToRow(id, oldRow.createdAt);
      assert row == Edited(oldRow, userId, d, req.notes);
      ReplaceKeepsKeys(rows, k, row);
      rows := rows[k := row];
      outcome := Done;
    }

    /** `destroy`: delete the bound record. */
    method Destroy(actor: Actor, id: nat) returns (outcome: Outcome)
      requires Valid() && Authorized(actor, Action.Delete)
      modifies this
      ensures Valid() && nextId == old(nextId)
      ensures Find(old(rows), id).None? ==> outcome == NotFound && rows == old(rows)
      ensures Find(old(rows), id).Some? ==>
        && outcome == Done
        && rows == Where(old(rows), Not(IdIs(id)))
        && |rows| == |old(rows)| - 1
        && (forall x :: x in rows <==> x in old(rows) && x.id != id)
    {
      if Find(rows, id).None? {
        return NotFound;
      }
      DeleteRemovesOne(rows, id);
      WhereKeepsKeyConstraints(rows, Not(IdIs(id)));
      assert forall x :: Matches(Not(IdIs(id)), x) <==> x.id != id;
      rows := Where(rows, Not(IdIs(id)));
      outcome := Done;
    }

    /** The `onDelete('cascade')` of both foreign keys: deleting user `u`
     *  deletes every row the user owns or recorded. */
    method UserDeleted(u: nat)
      requires Valid()
      modifies this
      ensures Valid() && nextId == old(nextId)
      ensures rows == Where(old(rows), Not(Involving(u)))
      ensures forall x :: x in rows <==> x in old(rows) && x.userId != u && x.createdBy != u
    {
      WhereKeepsKeyConstraints(rows, Not(Involving(u)));
      forall x ensures Matches(Not(Involving(u)), x) <==> x.userId != u && x.createdBy != u {
        assert Matches(Involving(u), x) <==> x.userId == u || x.createdBy == u;
      }
      rows := Where(rows, Not(Involving(u)));
    }
  }
}
