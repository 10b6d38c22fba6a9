/**
 * The query-builder conditions the controllers put on `contributions`, and
 * what they ask of a query: its rows (`get`), whether it has any (`exists`)
 * and `sum('amount')`.
 */
module Query {
  import opened Schema

  /** A WHERE clause, built from the conditions the controllers use. */
  datatype Filter =
    | All
    | IdIs(id: nat)                       // where('id', ...)
    | UserIs(user: nat)                   // where('user_id', ...)
    | CreatorIs(user: nat)                // created_by (cascade on users)
    | PeriodYearIs(year: int)             // where('contribution_year', ...)
    | PeriodMonthIs(month: int)           // where('contribution_month', ...)
    | CreatedInYear(year: int)            // whereYear('created_at', ...)
    | CreatedInMonth(month: int)          // whereMonth('created_at', ...)
    | And(left: Filter, right: Filter)
    | Or(left: Filter, right: Filter)
    | Not(inner: Filter)

  predicate Matches(f: Filter, r: Row)
  {
    match f
    case All => true
    case IdIs(id) => r.id == id
    case UserIs(u) => r.userId == u
    case CreatorIs(u) => r.createdBy == u
    case PeriodYearIs(y) => r.contributionYear == y
    case PeriodMonthIs(m) => r.contributionMonth == m
    case CreatedInYear(y) => r.createdAt.year == y
    case CreatedInMonth(m) => r.createdAt.month == m
    case And(a, b) => Matches(a, r) && Matches(b, r)
    case Or(a, b) => Matches(a, r) || Matches(b, r)
    case Not(a) => !Matches(a, r)
  }

  /** The rows of `table` that satisfy `f`, in table order. */
  function Where(table: seq<Row>, f: Filter): (r: seq<Row>)
    ensures |r| <= |table|
    ensures forall x :: x in r <==> x in table && Matches(f, x)
  {
    if table == [] then []
    else
      var init, last := table[..|table| - 1], table[|table| - 1];
      assert table == init + [last];
      var rest := Where(init, f);
      if Matches(f, last) then rest + [last] else rest
  }

  /** `->exists()`: some row of `table` satisfies `f`. */
  function Exists(table: seq<Row>, f: Filter): (b: bool)
    ensures b <==> exists i :: 0 <= i < |table| && Matches(f, table[i])
  {
    var w := Where(table, f);
    assert w != [] ==> w[0] in w;
    w != []
  }

  /** `->sum('amount')`; the sum over no rows is 0. */
  function Total(rows: seq<Row>): (t: int)
    ensures rows == [] ==> t == 0
    ensures (forall i :: 0 <= i < |rows| ==> rows[i].amount >= 0) ==> t >= 0
  {
    if rows == [] then 0 else Total(rows[..|rows| - 1]) + rows[|rows| - 1].amount
  }

  lemma TotalSnoc(rows: seq<Row>, x: Row)
    ensures Total(rows + [x]) == Total(rows) + x.amount
  {
    assert (rows + [x])[..|rows|] == rows;
  }

  /** One more row of the table adds its amount to a sum exactly when it matches. */
  lemma TotalWhereStep(table: seq<Row>, f: Filter)
    requires table != []
    ensures Total(Where(table, f)) == Total(Where(table[..|table| - 1], f))
      + (if Matches(f, table[|table| - 1]) then table[|table| - 1].amount else 0)
  {
    var w := Where(table[..|table| - 1], f);
    if Matches(f, table[|table| - 1]) {
      TotalSnoc(w, table[|table| - 1]);
    }
  }

  /** No row matches: the query is empty. */
  lemma {:induction false} WhereNoneMatch(table: seq<Row>, f: Filter)
    requires forall i :: 0 <= i < |table| ==> !Matches(f, table[i])
    ensures Where(table, f) == []
  {
    if table != [] {
      WhereNoneMatch(table[..|table| - 1], f);
    }
  }

  /** Filtering keeps the table's key constraints: a filtered table is a
   *  subsequence of the original. */
  lemma {:induction false} WhereKeepsKeyConstraints(table: seq<Row>, f: Filter)
    requires KeyConstraints(table)
    ensures KeyConstraints(Where(table, f))
  {
    if table != [] {
      var init, last := table[..|table| - 1], table[|table| - 1];
      WhereKeepsKeyConstraints(init, f);
      var w := Where(init, f);
      if Matches(f, last) {
        forall k | 0 <= k < |w|
          ensures w[k].id < last.id && Period(w[k]) != Period(last)
        {
          assert w[k] in init;
          var j :| 0 <= j < |init| && init[j] == w[k];
          assert table[j] == w[k];
        }
      }
    }
  }

  /** Two conditions that agree on every row of the table give the same sum. */
  lemma {:induction false} TotalCongruent(table: seq<Row>, p: Filter, q: Filter)
    requires forall i :: 0 <= i < |table| ==> (Matches(p, table[i]) <==> Matches(q, table[i]))
    ensures Total(Where(table, p)) == Total(Where(table, q))
  {
    if table != [] {
      TotalCongruent(table[..|table| - 1], p, q);
      TotalWhereStep(table, p);
      TotalWhereStep(table, q);
    }
  }

  /** A condition that is the disjoint union of two others sums to their sums. */
  lemma {:induction false} TotalSplit(table: seq<Row>, p: Filter, q1: Filter, q2: Filter)
    requires forall i :: 0 <= i < |table| ==>
      (Matches(p, table[i]) <==> Matches(q1, table[i]) || Matches(q2, table[i]))
    requires forall i :: 0 <= i < |table| ==> !(Matches(q1, table[i]) && Matches(q2, table[i]))
    ensures Total(Where(table, p)) == Total(Where(table, q1)) + Total(Where(table, q2))
  {
    if table != [] {
      TotalSplit(table[..|table| - 1], p, q1, q2);
      TotalWhereStep(table, p);
      TotalWhereStep(table, q1);
      TotalWhereStep(table, q2);
    }
  }

  /** With no negative amounts, a narrower condition never sums to more. */
  lemma {:induction false} TotalMonotone(table: seq<Row>, p: Filter, q: Filter)
    requires forall i :: 0 <= i < |table| ==> table[i].amount >= 0
    requires forall x :: Matches(p, x) ==> Matches(q, x)
    ensures Total(Where(table, p)) <= Total(Where(table, q))
  {
    if table != [] {
      TotalMonotone(table[..|table| - 1], p, q);
      TotalWhereStep(table, p);
      TotalWhereStep(table, q);
    }
  }

  lemma MulSucc(a: int, n: int)
    ensures a * (n + 1) == a * n + a
  {
  }

  /** When every row carries the same amount, a sum is that amount times the
   *  number of rows selected. */
  lemma {:induction false} TotalOfUniformRows(table: seq<Row>, f: Filter, amount: int)
    requires forall i :: 0 <= i < |table| ==> table[i].amount == amount
    ensures Total(Where(table, f)) == amount * |Where(table, f)|
  {
    if table != [] {
      var init := table[..|table| - 1];
      TotalOfUniformRows(init, f, amount);
      TotalWhereStep(table, f);
      var n := |Where(init, f)|;
      if Matches(f, table[|table| - 1]) {
        assert |Where(table, f)| == n + 1;
        MulSucc(amount, n);
      } else {
        assert |Where(table, f)| == n;
      }
    }
  }
}
