/** The `query_history` table: one row per recorded lookup, appended by the INSERT of
    main.go:138 and read by the SELECT of main.go:163. */
module AuditStore {
  import opened AddressJson

  /** A stored row. `addresses` is the JSON text of the address list, as the column holds
      it; `createdAt` is the Unix second the row was built (main.go:135), which
      `to_timestamp` stores and `t.Unix()` reads back unchanged. */
  datatype Row = Row(domain: string, clientIp: string, addresses: string, createdAt: int)

  /** The number of rows the history SELECT returns at most (`LIMIT 20`). */
  const HistoryLimit := 20

  function Min(a: nat, b: nat): nat { if a <= b then a else b }

  /** Rows in non-increasing `created_at` order. */
  predicate NewestFirst(s: seq<Row>)
  {
    forall i, j :: 0 <= i < j < |s| ==> s[i].createdAt >= s[j].createdAt
  }

  /** No row of the table that `window` leaves out is newer than a row it holds. */
  predicate NoNewerLeftOut(rows: seq<Row>, window: seq<Row>)
  {
    forall x, y :: x in multiset(rows) - multiset(window) && y in window ==> x.createdAt <= y.createdAt
  }

  /** `window` is the front of some newest-first arrangement of all the table's rows,
      so no row it leaves out is newer than a row it holds. */
  ghost predicate HeadOfNewestFirst(rows: seq<Row>, window: seq<Row>)
  {
    exists rest :: NewestFirst(window + rest) && multiset(window + rest) == multiset(rows)
  }

  /** Places `r` into a newest-first sequence ahead of every row not newer than it. */
  function InsertByTime(r: Row, s: seq<Row>): (t: seq<Row>)
    ensures |t| == |s| + 1
  {
    if |s| == 0 then [r]
    else if r.createdAt >= s[0].createdAt then [r] + s
    else [s[0]] + InsertByTime(r, s[1..])
  }

  /** `ORDER BY created_at DESC`. Rows with equal `created_at` have no order in SQL;
      this picks one, and nothing proved below depends on which. */
  function SortByTime(s: seq<Row>): (t: seq<Row>)
    ensures |t| == |s|
  {
    if |s| == 0 then [] else InsertByTime(s[0], SortByTime(s[1..]))
  }

  /** `ORDER BY created_at DESC LIMIT limit` over the table. */
  function Recent(rows: seq<Row>, limit: nat): seq<Row>
  {
    SortByTime(rows)[..Min(limit, |rows|)]
  }

  lemma {:induction false} InsertByTimeKeepsOrder(r: Row, s: seq<Row>)
    requires NewestFirst(s)
    ensures NewestFirst(InsertByTime(r, s))
    ensures multiset(InsertByTime(r, s)) == multiset(s) + multiset{r}
    decreases |s|
  {
    if |s| > 0 && r.createdAt < s[0].createdAt {
      var tail := InsertByTime(r, s[1..]);
      InsertByTimeKeepsOrder(r, s[1..]);
      assert [s[0]] + s[1..] == s;
      // every row of the tail is r or a row of s[1..], none newer than s[0]
      forall k | 0 <= k < |tail| ensures tail[k].createdAt <= s[0].createdAt {
        assert tail[k] in multiset(tail);
      }
    }
  }

  /** The sort puts rows newest first and neither adds nor drops a row. */
  lemma {:induction false} SortByTimeSpec(s: seq<Row>)
    ensures NewestFirst(SortByTime(s))
    ensures multiset(SortByTime(s)) == multiset(s)
    decreases |s|
  {
    if |s| > 0 {
      SortByTimeSpec(s[1..]);
      InsertByTimeKeepsOrder(s[0], SortByTime(s[1..]));
      assert [s[0]] + s[1..] == s;
    }
  }

  /** In a newest-first sequence no row after position n is newer than one before it. */
  lemma PrefixIsNewer(s: seq<Row>, n: nat)
    requires NewestFirst(s) && n <= |s|
    ensures forall x, y :: x in s[n..] && y in s[..n] ==> x.createdAt <= y.createdAt
  {
  }

  /** The history window: at most `limit` rows (fewer only when the table is smaller),
      newest first, all taken from the table, and no row left out is newer than a row
      returned. */
  lemma RecentIsNewestWindow(rows: seq<Row>, limit: nat)
    ensures |Recent(rows, limit)| == Min(limit, |rows|)
    ensures NewestFirst(Recent(rows, limit))
    ensures multiset(Recent(rows, limit)) <= multiset(rows)
    ensures NoNewerLeftOut(rows, Recent(rows, limit))
  {
    var sorted := SortByTime(rows);
    var n := Min(limit, |rows|);
    var w, rest := sorted[..n], sorted[n..];
    SortByTimeSpec(rows);
    assert sorted == w + rest;
    assert multiset(rows) - multiset(w) == multiset(rest);
    PrefixIsNewer(sorted, n);
  }

  /** The window is the front of the table sorted newest first. */
  lemma RecentIsHead(rows: seq<Row>, limit: nat)
    ensures HeadOfNewestFirst(rows, Recent(rows, limit))
  {
    var sorted := SortByTime(rows);
    var n := Min(limit, |rows|);
    SortByTimeSpec(rows);
    assert sorted[..n] + sorted[n..] == sorted;
  }

  /** Being the front of a newest-first arrangement means that no row left out is newer. */
  lemma HeadLeavesOutNoNewer(rows: seq<Row>, window: seq<Row>)
    requires HeadOfNewestFirst(rows, window)
    ensures NoNewerLeftOut(rows, window)
  {
    var rest :| NewestFirst(window + rest) && multiset(window + rest) == multiset(rows);
    var all := window + rest;
    assert all[..|window|] == window && all[|window|..] == rest;
    assert multiset(rows) - multiset(window) == multiset(rest);
    PrefixIsNewer(all, |window|);
  }

  /** A row newer than every row already in the table heads the next history window. */
  lemma NewestRowHeadsWindow(rows: seq<Row>, row: Row, limit: nat)
    requires limit >= 1
    requires forall i :: 0 <= i < |rows| ==> rows[i].createdAt < row.createdAt
    ensures |Recent(rows + [row], limit)| >= 1 && Recent(rows + [row], limit)[0] == row
  {
    var all := rows + [row];
    var sorted := SortByTime(all);
    SortByTimeSpec(all);
    assert row in multiset(all);
    assert sorted[0] in multiset(all);
  }

  /** The table, updated in place by the INSERT of main.go:138. */
  class Store {
    var rows: seq<Row>

    constructor ()
      ensures rows == []
    {
      rows := [];
    }

    /** Every row's address column is JSON that decodes, as every row this service
        writes is. */
    predicate WellFormed()
      reads this
    {
      forall i :: 0 <= i < |rows| ==> Decode(rows[i].addresses).Some?
    }

    /** The INSERT: on success exactly one row is appended; a failed statement writes
        nothing. `fails` stands for the database's answer. */
    method Insert(row: Row, fails: bool) returns (ok: bool)
      modifies this
      ensures ok == !fails
      ensures rows == if ok then old(rows) + [row] else old(rows)
    {
      ok := !fails;
      if ok {
        rows := rows + [row];
      }
    }

    /** The SELECT of main.go:163, which reads the table and changes nothing. */
    function Query(): (window: seq<Row>)
      reads this
      ensures |window| == Min(HistoryLimit, |rows|)
      ensures NewestFirst(window)
      ensures multiset(window) <= multiset(rows)
      ensures HeadOfNewestFirst(rows, window)
    {
      RecentIsNewestWindow(rows, HistoryLimit);
      RecentIsHead(rows, HistoryLimit);
      Recent(rows, HistoryLimit)
    }
  }
}
