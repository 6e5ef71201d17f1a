/**
 Paging with a vector cursor (fetchVector in storage/sqlite/pull.go).  The events table is the
 sequence of its rows in the order of their sequence numbers; the SQL query is a filter, that
 order, and a limit.
 */
module CursorPaging {
  import opened Basics

  datatype Row = Row(seqNo: nat, id: string, origin: Option<string>, counter: Option<int>)

  type Counters = map<string, nat>

  /** COALESCE(s.counter, 0) of the left join: zero for an unknown or missing origin. */
  function Since(c: Counters, origin: Option<string>): nat {
    if origin.Some? && origin.value in c then c[origin.value] else 0
  }

  /** The WHERE clause; a missing counter fails it. */
  predicate IsAbove(r: Row, c: Counters) {
    r.counter.Some? && Since(c, r.origin) < r.counter.value
  }

  function Above(rows: seq<Row>, c: Counters): seq<Row> {
    if |rows| == 0 then [] else (if IsAbove(rows[0], c) then [rows[0]] else []) + Above(rows[1..], c)
  }

  /** LIMIT: a negative limit is none. */
  function Limited(rows: seq<Row>, limit: int): seq<Row> {
    if 0 <= limit < |rows| then rows[..limit] else rows
  }

  function Page(rows: seq<Row>, c: Counters, limit: int): seq<Row> {
    Limited(Above(rows, c), limit)
  }

  /** The counters after one row has been seen. */
  function Seen(c: Counters, r: Row): Counters {
    if r.origin.Some? && r.counter.Some? && r.counter.value >= 0 &&
       (r.origin.value !in c || r.counter.value > c[r.origin.value])
    then c[r.origin.value := r.counter.value] else c
  }

  function Advance(c: Counters, rows: seq<Row>): Counters {
    if |rows| == 0 then c else Seen(Advance(c, rows[..|rows| - 1]), rows[|rows| - 1])
  }

  datatype FetchError = TableExists

  /** A database connection: whether the temporary table `since` exists on it. */
  class Connection {
    var sinceTable: bool

    constructor ()
      ensures !sinceTable
    {
      sinceTable := false;
    }

    /**
     fetchVector.  It creates the temporary table, which outlives the commit, so that only the
     first call on a connection answers.
     */
    method FetchVector(rows: seq<Row>, c: Counters, limit: int) returns (r: Result<(seq<Row>, Counters), FetchError>)
      modifies this
      ensures sinceTable
      ensures r == if old(sinceTable) then Err(TableExists)
                   else Ok((Page(rows, c, limit), Advance(c, Page(rows, c, limit))))
    {
      if sinceTable {
        return Err(TableExists);
      }
      sinceTable := true;
      var out, next := ReadPage(rows, c, limit);
      return Ok((out, next));
    }
  }

  /** The query of fetchVector and its loop: a page, and the cursor for the next one. */
  method ReadPage(rows: seq<Row>, c: Counters, limit: int) returns (out: seq<Row>, next: Counters)
    ensures out == Page(rows, c, limit) && next == Advance(c, out)
  {
    hide Above, Advance;
    var selected := Limited(Above(rows, c), limit);
    out := [];
    var nextCounters := c;
    AdvanceStep(c, selected, 0);
    for i := 0 to |selected|
      invariant out == selected[..i] && nextCounters == Advance(c, selected[..i])
    {
      AdvanceStep(c, selected, i);
      var r := selected[i];
      out := out + [r];
      PageIsPositive(rows, c, limit, i);
      if r.origin.Some? && r.counter.Some? {
        var node, cnt := r.origin.value, r.counter.value;
        if node !in nextCounters || cnt > nextCounters[node] {
          nextCounters := nextCounters[node := cnt];
        }
      }
    }
    assert selected[..|selected|] == selected;
    next := if |out| > 0 then nextCounters else c;
  }

  lemma AdvanceStep(c: Counters, rows: seq<Row>, i: nat)
    requires i <= |rows|
    ensures Advance(c, rows[..0]) == c
    ensures i < |rows| ==> Advance(c, rows[..i + 1]) == Seen(Advance(c, rows[..i]), rows[i])
  {
    if i < |rows| {
      assert rows[..i + 1][..i] == rows[..i];
    }
  }

  lemma PageIsPositive(rows: seq<Row>, c: Counters, limit: int, i: nat)
    requires i < |Page(rows, c, limit)|
    ensures var r := Page(rows, c, limit)[i]; r.counter.Some? && r.counter.value > 0
  {
    AboveIsAbove(rows, c);
  }

  /** The pages of the first k calls, each with the cursor of the one before. */
  function Collected(rows: seq<Row>, c: Counters, limit: int, k: nat): seq<Row>
    decreases k
  {
    if k == 0 then [] else
      var page := Page(rows, c, limit);
      page + Collected(rows, Advance(c, page), limit, k - 1)
  }

  function CursorAfter(rows: seq<Row>, c: Counters, limit: int, k: nat): Counters
    decreases k
  {
    if k == 0 then c else CursorAfter(rows, Advance(c, Page(rows, c, limit)), limit, k - 1)
  }

  lemma {:induction false} OneMorePage(rows: seq<Row>, c: Counters, limit: int, k: nat)
    ensures var cursor := CursorAfter(rows, c, limit, k);
            && Collected(rows, c, limit, k + 1) == Collected(rows, c, limit, k) + Page(rows, cursor, limit)
            && CursorAfter(rows, c, limit, k + 1) == Advance(cursor, Page(rows, cursor, limit))
    decreases k
  {
    hide Page, Advance;
    var page := Page(rows, c, limit);
    if k > 0 {
      OneMorePage(rows, Advance(c, page), limit, k - 1);
    } else {
      var none: seq<Row> := [];
      assert page + none == none + page;
    }
  }

  /**
   A client that reads one page over each of the listed connections.  It succeeds exactly when the
   connections are new and no two are the same, and then has the pages of as many calls.
   */
  method ReadPages(conns: seq<Connection>, rows: seq<Row>, c: Counters, limit: int)
    returns (r: Result<(seq<Row>, Counters), FetchError>)
    modifies conns
    ensures r.Ok? <==>
            && (forall i :: 0 <= i < |conns| ==> !old(conns[i].sinceTable))
            && (forall i, j :: 0 <= i < j < |conns| ==> conns[i] != conns[j])
    ensures r.Ok? ==>
              r.value == (Collected(rows, c, limit, |conns|), CursorAfter(rows, c, limit, |conns|))
    ensures r.Ok? && limit >= 1 && Orderly(Above(rows, c)) && |conns| >= |Above(rows, c)| ==>
              r.value.0 == Above(rows, c)
  {
    if limit >= 1 && Orderly(Above(rows, c)) && |conns| >= |Above(rows, c)| {
      EnoughCalls(rows, c, limit, |conns|);
    }
    hide Page, Advance, Collected, CursorAfter, Above, Orderly, Usable, Marked;
    NoPages(rows, c, limit);
    ghost var used := set x | x in conns && x.sinceTable;
    UsableAtEnds(conns, used);
    ghost var marked := used;
    var all, cursor := [], c;
    for k := 0 to |conns|
      invariant all == Collected(rows, c, limit, k) && cursor == CursorAfter(rows, c, limit, k)
      invariant Usable(conns, used, k) && marked == Marked(conns, used, k)
      invariant forall x :: x in conns ==> (x.sinceTable <==> x in marked)
    {
      OneMorePage(rows, c, limit, k);
      OneMoreUsable(conns, used, k);
      assert conns[k] in conns;
      var page := conns[k].FetchVector(rows, cursor, limit);
      if page.Err? {
        return Err(page.error);
      }
      marked := marked + {conns[k]};
      all, cursor := all + page.value.0, page.value.1;
    }
    return Ok((all, cursor));
  }

  /** The first k connections were not used before and are distinct. */
  ghost predicate Usable(conns: seq<Connection>, used: set<Connection>, k: nat)
    requires k <= |conns|
  {
    && (forall i :: 0 <= i < k ==> conns[i] !in used)
    && (forall i, j :: 0 <= i < j < k ==> conns[i] != conns[j])
  }

  /** The connections used after the first k calls. */
  ghost function Marked(conns: seq<Connection>, used: set<Connection>, k: nat): set<Connection>
    requires k <= |conns|
  {
    used + set i | 0 <= i < k :: conns[i]
  }

  lemma UsableAtEnds(conns: seq<Connection>, used: set<Connection>)
    ensures Usable(conns, used, 0) && Marked(conns, used, 0) == used
    ensures Usable(conns, used, |conns|) <==>
            (forall i :: 0 <= i < |conns| ==> conns[i] !in used) &&
            (forall i, j :: 0 <= i < j < |conns| ==> conns[i] != conns[j])
  {
  }

  lemma OneMoreUsable(conns: seq<Connection>, used: set<Connection>, k: nat)
    requires k < |conns| && Usable(conns, used, k)
    ensures Usable(conns, used, k + 1) <==> conns[k] !in Marked(conns, used, k)
    ensures Marked(conns, used, k + 1) == Marked(conns, used, k) + {conns[k]}
    ensures !Usable(conns, used, k + 1) ==> !Usable(conns, used, |conns|)
  {
  }

  lemma NoPages(rows: seq<Row>, c: Counters, limit: int)
    ensures Collected(rows, c, limit, 0) == [] && CursorAfter(rows, c, limit, 0) == c
  {
  }

  /** After some number of calls, the pages together are the rows above the cursor, and the next page is empty. */
  ghost predicate PagesExactly(rows: seq<Row>, c: Counters, limit: int) {
    exists k: nat :: CompleteAt(rows, c, limit, k)
  }

  ghost predicate CompleteAt(rows: seq<Row>, c: Counters, limit: int, k: nat) {
    Collected(rows, c, limit, k) == Above(rows, c) && Above(rows, CursorAfter(rows, c, limit, k)) == []
  }

  /** Every row has an origin, and the counters of one origin increase with the sequence number. */
  ghost predicate Orderly(rows: seq<Row>) {
    && (forall i :: 0 <= i < |rows| ==> rows[i].origin.Some? && rows[i].counter.Some?)
    && (forall i, j :: 0 <= i < j < |rows| && rows[i].origin == rows[j].origin ==>
                         rows[i].counter.value < rows[j].counter.value)
  }

  // ---------------------------------------------------------------- cursors and filters

  /** A row is above the cursor iff it has a counter higher than the cursor's for its origin, or than zero. */
  lemma {:induction false} AboveExactly(rows: seq<Row>, c: Counters, r: Row)
    ensures r in Above(rows, c) <==>
            && r in rows && r.counter.Some?
            && (if r.origin.Some? && r.origin.value in c then c[r.origin.value] else 0) < r.counter.value
  {
    if |rows| > 0 {
      AboveExactly(rows[1..], c, r);
      assert rows == [rows[0]] + rows[1..];
    }
  }

  /** The rows above the cursor come in the order of the table, each as often as there. */
  lemma {:induction false} AboveKeepsOrder(a: seq<Row>, b: seq<Row>, c: Counters)
    ensures Above(a + b, c) == Above(a, c) + Above(b, c)
    ensures |Above(a, c)| <= |a|
  {
    if |a| == 0 {
      assert a + b == b && [] + Above(b, c) == Above(b, c);
    } else {
      assert (a + b)[1..] == a[1..] + b;
      AboveKeepsOrder(a[1..], b, c);
      var head := if IsAbove(a[0], c) then [a[0]] else [];
      assert head + (Above(a[1..], c) + Above(b, c)) == (head + Above(a[1..], c)) + Above(b, c);
    }
  }

  /** A page is the beginning of the rows above the cursor: `limit` of them, or all if there are fewer. */
  lemma PageExactly(rows: seq<Row>, c: Counters, limit: int)
    ensures Page(rows, c, limit) == Above(rows, c)[..|Page(rows, c, limit)|]
    ensures |Page(rows, c, limit)| == if 0 <= limit < |Above(rows, c)| then limit else |Above(rows, c)|
  {
    hide Above;
  }

  /** After a page, the cursor of an origin is its highest counter, on the page or before. */
  lemma {:induction false} AdvanceExactly(c: Counters, rows: seq<Row>, o: string)
    ensures var before, after := if o in c then c[o] else 0, if o in Advance(c, rows) then Advance(c, rows)[o] else 0;
            && before <= after
            && (forall k :: 0 <= k < |rows| && rows[k].origin == Some(o) && rows[k].counter.Some? ==>
                              rows[k].counter.value <= after)
            && (after > before ==>
                  exists k :: 0 <= k < |rows| && rows[k].origin == Some(o) && rows[k].counter == Some(after))
    decreases |rows|
  {
    if |rows| > 0 {
      var n := |rows| - 1;
      AdvanceExactly(c, rows[..n], o);
      assert forall k :: 0 <= k < n ==> rows[k] == rows[..n][k];
      var after := if o in Advance(c, rows) then Advance(c, rows)[o] else 0;
      if rows[n].origin == Some(o) && rows[n].counter == Some(after) {
      } else if after > (if o in c then c[o] else 0) {
        var k :| 0 <= k < n && rows[..n][k].origin == Some(o) && rows[..n][k].counter == Some(after);
        assert rows[k].origin == Some(o) && rows[k].counter == Some(after);
      }
    }
  }

  lemma {:induction false} AboveIsAbove(rows: seq<Row>, c: Counters)
    ensures forall i :: 0 <= i < |Above(rows, c)| ==> IsAbove(Above(rows, c)[i], c)
  {
    if |rows| > 0 {
      AboveIsAbove(rows[1..], c);
    }
  }

  ghost predicate NoLower(c: Counters, c': Counters) {
    forall o: Option<string> :: Since(c, o) <= Since(c', o)
  }

  lemma AboveStep(rows: seq<Row>, c: Counters)
    ensures Above(rows, c) ==
            if |rows| == 0 then [] else (if IsAbove(rows[0], c) then [rows[0]] else []) + Above(rows[1..], c)
  {
  }

  /** A higher cursor that has passed the first n rows above c, and no later one, leaves the rest. */
  lemma {:induction false} PassedRows(rows: seq<Row>, c: Counters, c': Counters, n: nat)
    requires NoLower(c, c') && n <= |Above(rows, c)|
    requires forall k :: 0 <= k < n ==> !IsAbove(Above(rows, c)[k], c')
    requires forall k :: n <= k < |Above(rows, c)| ==> IsAbove(Above(rows, c)[k], c')
    ensures Above(rows, c') == Above(rows, c)[n..]
    decreases |rows|
  {
    hide Above, IsAbove, NoLower;
    AboveStep(rows, c);
    AboveStep(rows, c');
    if |rows| > 0 {
      var A, rest := Above(rows, c), Above(rows[1..], c);
      var m := if IsAbove(rows[0], c) then 1 else 0;
      assert |A| == |rest| + m && A[m..] == rest;
      assert forall k :: 0 <= k < |rest| ==> rest[k] == A[k + m];
      if m == 0 {
        StaysBelow(rows[0], c, c');
        PassedRows(rows[1..], c, c', n);
      } else if n == 0 {
        assert IsAbove(A[0], c');
        PassedRows(rows[1..], c, c', 0);
        assert A[0..] == A && rest[0..] == rest;
      } else {
        assert !IsAbove(A[0], c');
        PassedRows(rows[1..], c, c', n - 1);
        assert A[n..] == rest[n - 1..];
      }
    }
  }

  lemma StaysBelow(r: Row, c: Counters, c': Counters)
    requires NoLower(c, c') && !IsAbove(r, c)
    ensures !IsAbove(r, c')
  {
    assert Since(c, r.origin) <= Since(c', r.origin);
  }

  lemma {:induction false} AdvanceGoesUp(c: Counters, rows: seq<Row>)
    ensures NoLower(c, Advance(c, rows))
    ensures forall k :: 0 <= k < |rows| && rows[k].origin.Some? ==> !IsAbove(rows[k], Advance(c, rows))
    decreases |rows|
  {
    if |rows| > 0 {
      var front, r := rows[..|rows| - 1], rows[|rows| - 1];
      AdvanceGoesUp(c, front);
      SeenGoesUp(Advance(c, front), r);
      forall k | 0 <= k < |rows| && rows[k].origin.Some?
        ensures !IsAbove(rows[k], Advance(c, rows))
      {
        if k < |front| {
          assert rows[k] == front[k];
        }
      }
    }
  }

  lemma SeenGoesUp(c: Counters, r: Row)
    ensures NoLower(c, Seen(c, r))
    ensures r.origin.Some? ==> !IsAbove(r, Seen(c, r))
  {
  }

  /** A row stays above the cursor as long as only lower counters of its origin are seen. */
  lemma {:induction false} AdvanceStaysBelow(c: Counters, rows: seq<Row>, r: Row)
    requires IsAbove(r, c)
    requires forall k :: 0 <= k < |rows| && rows[k].origin == r.origin && rows[k].counter.Some? ==>
               rows[k].counter.value < r.counter.value
    ensures IsAbove(r, Advance(c, rows))
    decreases |rows|
  {
    if |rows| > 0 {
      AdvanceStaysBelow(c, rows[..|rows| - 1], r);
    }
  }

  // ---------------------------------------------------------------- paging is exact

  /** After an orderly page, the rows still above the cursor are those that follow it. */
  lemma NextPageStartsAfter(rows: seq<Row>, c: Counters, limit: int)
    requires limit >= 1 && Orderly(Above(rows, c))
    ensures var page := Page(rows, c, limit);
            Above(rows, Advance(c, page)) == Above(rows, c)[|page|..]
  {
    hide Above;
    var A, page := Above(rows, c), Page(rows, c, limit);
    var n := |page|;
    assert page == A[..n];
    AdvanceGoesUp(c, page);
    AboveIsAbove(rows, c);
    forall k | n <= k < |A|
      ensures IsAbove(A[k], Advance(c, page))
    {
      AdvanceStaysBelow(c, page, A[k]);
    }
    PassedRows(rows, c, Advance(c, page), n);
  }

  lemma OrderlyTail(A: seq<Row>, n: nat)
    requires Orderly(A) && n <= |A|
    ensures Orderly(A[n..])
  {
  }

  lemma PageSplits(rows: seq<Row>, c: Counters, limit: int)
    requires limit >= 1
    ensures var A, page := Above(rows, c), Page(rows, c, limit);
            |page| <= |A| && A == page + A[|page|..] && (|A| > 0 ==> |page| > 0)
  {
  }

  /** k calls collect at least k rows, unless there are fewer. */
  lemma {:induction false} EnoughCalls(rows: seq<Row>, c: Counters, limit: int, k: nat)
    requires limit >= 1 && Orderly(Above(rows, c)) && k >= |Above(rows, c)|
    ensures CompleteAt(rows, c, limit, k)
    decreases k
  {
    hide Above, Advance, Orderly, Page;
    var A, page := Above(rows, c), Page(rows, c, limit);
    if k > 0 {
      PageSplits(rows, c, limit);
      NextPageStartsAfter(rows, c, limit);
      OrderlyTail(A, |page|);
      EnoughCalls(rows, Advance(c, page), limit, k - 1);
    }
  }

  lemma {:induction false} CollectedIsAbove(rows: seq<Row>, c: Counters, limit: int, k: nat)
    ensures forall i :: 0 <= i < |Collected(rows, c, limit, k)| ==> IsAbove(Collected(rows, c, limit, k)[i], c)
    decreases k
  {
    if k > 0 {
      var page := Page(rows, c, limit);
      var c' := Advance(c, page);
      AboveIsAbove(rows, c);
      AdvanceGoesUp(c, page);
      CollectedIsAbove(rows, c', limit, k - 1);
      var rest := Collected(rows, c', limit, k - 1);
      forall i | 0 <= i < |rest|
        ensures IsAbove(rest[i], c)
      {
        assert Since(c, rest[i].origin) <= Since(c', rest[i].origin);
      }
    }
  }

  /** A row without origin that is above a cursor stays above every later one. */
  lemma {:induction false} OrphansStay(rows: seq<Row>, c: Counters, limit: int, k: nat, i: nat)
    requires i < |rows| && rows[i].origin.None? && IsAbove(rows[i], c)
    ensures Above(rows, CursorAfter(rows, c, limit, k)) != []
    decreases k
  {
    hide Above, Advance, Page;
    if k == 0 {
      StillListed(rows, c, i);
    } else {
      OrphansStay(rows, Advance(c, Page(rows, c, limit)), limit, k - 1, i);
    }
  }

  lemma {:induction false} StillListed(rows: seq<Row>, c: Counters, i: nat)
    requires i < |rows| && IsAbove(rows[i], c)
    ensures Above(rows, c) != []
  {
    if i > 0 {
      StillListed(rows[1..], c, i - 1);
    }
  }

  lemma {:induction false} AboveAreRows(rows: seq<Row>, c: Counters, k: nat)
    requires k < |Above(rows, c)|
    ensures exists i :: 0 <= i < |rows| && rows[i] == Above(rows, c)[k]
  {
    var rest := Above(rows[1..], c);
    if IsAbove(rows[0], c) {
      if k > 0 {
        AboveAreRows(rows[1..], c, k - 1);
        var i :| 0 <= i < |rows[1..]| && rows[1..][i] == rest[k - 1];
        assert rows[i + 1] == Above(rows, c)[k];
      }
    } else {
      AboveAreRows(rows[1..], c, k);
      var i :| 0 <= i < |rows[1..]| && rows[1..][i] == rest[k];
      assert rows[i + 1] == Above(rows, c)[k];
    }
  }

  /** If paging one row at a time is exact, the rows above the cursor are orderly. */
  lemma {:induction false} ExactNeedsOrder(rows: seq<Row>, c: Counters, k: nat)
    requires CompleteAt(rows, c, 1, k)
    ensures Orderly(Above(rows, c))
    decreases |Above(rows, c)|
  {
    hide Above, Advance, Orderly;
    var A := Above(rows, c);
    if |A| == 0 {
      NothingIsOrderly(A);
    } else {
      assert k > 0;
      var page := Page(rows, c, 1);
      assert page == [A[0]] == A[..1];
      var c' := Advance(c, page);
      AboveIsAbove(rows, c);
      assert A[0].origin.Some? by {
        if A[0].origin.None? {
          AboveAreRows(rows, c, 0);
          var i :| 0 <= i < |rows| && rows[i] == A[0];
          OrphansStay(rows, c, 1, k, i);
        }
      }
      assert Collected(rows, c, 1, k) == page + Collected(rows, c', 1, k - 1);
      assert Collected(rows, c', 1, k - 1) == A[1..];
      CollectedIsAbove(rows, c', 1, k - 1);
      AdvanceGoesUp(c, page);
      assert forall j :: 1 <= j < |A| ==> A[j] == A[1..][j - 1];
      assert !IsAbove(page[0], c');
      PassedRows(rows, c, c', 1);
      assert CompleteAt(rows, c', 1, k - 1);
      ExactNeedsOrder(rows, c', k - 1);
      FirstIsLower(A, c');
    }
  }

  lemma NothingIsOrderly(A: seq<Row>)
    requires |A| == 0
    ensures Orderly(A)
  {
  }

  lemma FirstIsLower(A: seq<Row>, c': Counters)
    requires |A| > 0 && A[0].origin.Some? && A[0].counter.Some? && !IsAbove(A[0], c')
    requires Orderly(A[1..]) && forall j :: 1 <= j < |A| ==> IsAbove(A[j], c')
    ensures Orderly(A)
  {
    assert forall j :: 1 <= j < |A| ==> A[j] == A[1..][j - 1];
  }

  /**
   Paging with every limit of at least one is exact, each row once and in order, exactly when
   the rows above the starting cursor all have an origin and the counters of every origin
   increase with the sequence number.
   */
  lemma PagingIsExactIffOrderly(rows: seq<Row>, c: Counters)
    ensures Orderly(Above(rows, c)) <==> forall limit: int :: limit >= 1 ==> PagesExactly(rows, c, limit)
  {
    if Orderly(Above(rows, c)) {
      forall limit: int | limit >= 1
        ensures PagesExactly(rows, c, limit)
      {
        EnoughCalls(rows, c, limit, |Above(rows, c)|);
      }
    }
    if forall limit: int :: limit >= 1 ==> PagesExactly(rows, c, limit) {
      assert PagesExactly(rows, c, 1);
      var k: nat :| CompleteAt(rows, c, 1, k);
      ExactNeedsOrder(rows, c, k);
    }
  }
}
