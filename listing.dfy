/**
 * The contributions listing: `latest('contributed_at')` (newest date first)
 * and `paginate(10)`.
 */
module Listing {
  import opened Schema

  const PerPage: nat := 10

  /** Newest `contributed_at` first; rows with the same date may come in any order. */
  predicate NewestFirst(s: seq<Row>)
  {
    forall i, j :: 0 <= i < j < |s| ==> DateLe(s[j].contributedAt, s[i].contributedAt)
  }

  lemma DateLeTransitive(a: Date, b: Date, c: Date)
    requires DateLe(a, b) && DateLe(b, c)
    ensures DateLe(a, c)
  {
  }

  /** A row no older than every row of a newest-first listing can head it. */
  lemma PrependKeepsOrder(h: Row, t: seq<Row>)
    requires NewestFirst(t)
    requires forall y :: y in t ==> DateLe(y.contributedAt, h.contributedAt)
    ensures NewestFirst([h] + t)
  {
    var r := [h] + t;
    forall i, j | 0 <= i < j < |r|
      ensures DateLe(r[j].contributedAt, r[i].contributedAt)
    {
      if i == 0 {
        assert r[j] == t[j - 1];
        assert r[j] in t;
      } else {
        assert r[i] == t[i - 1] && r[j] == t[j - 1];
      }
    }
  }

  /** Puts `x` into a listing in front of the first row that is not newer than it. */
  function InsertByDate(s: seq<Row>, x: Row): seq<Row>
  {
    if s == [] then [x]
    else if DateLe(s[0].contributedAt, x.contributedAt) then [x] + s
    else [s[0]] + InsertByDate(s[1..], x)
  }

  lemma NewestFirstTail(s: seq<Row>)
    requires s != [] && NewestFirst(s)
    ensures NewestFirst(s[1..])
    ensures forall y :: y in s[1..] ==> DateLe(y.contributedAt, s[0].contributedAt)
  {
    forall i, j | 0 <= i < j < |s[1..]|
      ensures DateLe(s[1..][j].contributedAt, s[1..][i].contributedAt)
    {
      assert s[1..][i] == s[i + 1] && s[1..][j] == s[j + 1];
    }
    forall y | y in s[1..] ensures DateLe(y.contributedAt, s[0].contributedAt) {
      var k :| 0 <= k < |s[1..]| && s[1..][k] == y;
      assert s[k + 1] == y;
    }
  }

  /** Inserting keeps a listing newest first and adds exactly `x`. */
  lemma {:induction false} InsertByDateCorrect(s: seq<Row>, x: Row)
    requires NewestFirst(s)
    ensures NewestFirst(InsertByDate(s, x))
    ensures multiset(InsertByDate(s, x)) == multiset(s) + multiset{x}
  {
    if s != [] {
      assert s == [s[0]] + s[1..];
      NewestFirstTail(s);
      if DateLe(s[0].contributedAt, x.contributedAt) {
        forall y | y in s ensures DateLe(y.contributedAt, x.contributedAt) {
          if y != s[0] {
            assert y in s[1..];
            DateLeTransitive(y.contributedAt, s[0].contributedAt, x.contributedAt);
          }
        }
        PrependKeepsOrder(x, s);
      } else {
        var tail := InsertByDate(s[1..], x);
        InsertByDateCorrect(s[1..], x);
        forall y | y in tail ensures DateLe(y.contributedAt, s[0].contributedAt) {
          assert y in multiset(tail);
        }
        PrependKeepsOrder(s[0], tail);
      }
    }
  }

  /** ORDER BY contributed_at DESC over the selected rows. */
  function SortByDateDesc(s: seq<Row>): (r: seq<Row>)
    ensures NewestFirst(r)
    ensures multiset(r) == multiset(s)
  {
    if s == [] then []
    else
      assert s == s[..|s| - 1] + [s[|s| - 1]];
      var sorted := SortByDateDesc(s[..|s| - 1]);
      InsertByDateCorrect(sorted, s[|s| - 1]);
      InsertByDate(sorted, s[|s| - 1])
  }

  /** The page the paginator serves: a page number below 1 means page 1. */
  function CurrentPage(page: int): nat
  {
    if page >= 1 then page else 1
  }

  /** Index in the listing of the first row of `page`. */
  function FirstIndex(page: int): nat
  {
    (CurrentPage(page) - 1) * PerPage
  }

  /** The rows of `page`: up to ten consecutive rows of the listing; past the
   *  last page, none. */
  function PageOf(s: seq<Row>, page: int): (r: seq<Row>)
    ensures |r| <= PerPage
    ensures FirstIndex(page) >= |s| ==> r == []
    ensures FirstIndex(page) < |s| ==> FirstIndex(page) + |r| <= |s|
    ensures FirstIndex(page) < |s| ==> |r| == if |s| - FirstIndex(page) < PerPage then |s| - FirstIndex(page) else PerPage
    ensures forall k :: 0 <= k < |r| ==> r[k] == s[FirstIndex(page) + k]
  {
    var lo := FirstIndex(page);
    if lo >= |s| then []
    else if lo + PerPage <= |s| then s[lo..lo + PerPage]
    else s[lo..]
  }

  /** What `paginate` hands to the page: the rows of the current page and the
   *  size of the whole listing. */
  datatype Page = Page(items: seq<Row>, total: nat, currentPage: nat)

  /** Every row of the listing is on exactly the page its position says. */
  lemma EveryRowOnItsPage(s: seq<Row>, j: nat)
    requires j < |s|
    ensures j % PerPage < |PageOf(s, j / PerPage + 1)|
    ensures PageOf(s, j / PerPage + 1)[j % PerPage] == s[j]
  {
    assert FirstIndex(j / PerPage + 1) == j / PerPage * PerPage;
    assert j == j / PerPage * PerPage + j % PerPage;
  }

  /** A page of a listing that is newest first is newest first. */
  lemma PageKeepsOrder(s: seq<Row>, page: int)
    requires NewestFirst(s)
    ensures NewestFirst(PageOf(s, page))
  {
    var r := PageOf(s, page);
    forall i, j | 0 <= i < j < |r|
      ensures DateLe(r[j].contributedAt, r[i].contributedAt)
    {
      assert r[i] == s[FirstIndex(page) + i] && r[j] == s[FirstIndex(page) + j];
    }
  }
}
