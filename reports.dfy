/** What a report generator produces: the CSV rows it wrote, in order,
    whether it ran to the end or was aborted by a failed fetch, and every
    request and back-off the fetches made.

    In the source a failed fetch panics; the writer's deferred Flush still
    runs, so the rows written before the failure stay in the file and no
    later row is written. */
module Reports {
  import opened Common
  import opened Upstream
  import opened Paging

  /** One CSV record. */
  type Row = seq<string>

  datatype Status = Completed | Aborted(error: FetchError)

  datatype Report = Report(rows: seq<Row>, status: Status, trace: seq<Event>)

  /** `a`, then, unless `a` aborted, `b`. */
  function Then(a: Report, b: Report): Report
  {
    if a.status.Aborted? then a else Report(a.rows + b.rows, b.status, a.trace + b.trace)
  }

  /** For each parent in order: fetch its items (aborting on failure) and
      write the rows `rowsOf` makes of them. */
  function EachParent<P, T>(parents: seq<P>, fetch: P -> Fetched<seq<T>>,
                            rowsOf: (P, seq<T>) -> seq<Row>): Report
  {
    if parents == [] then Report([], Completed, [])
    else
      var got := fetch(parents[0]);
      match got.result
      case Failure(e) => Report([], Aborted(e), got.trace)
      case Success(items) =>
        Then(Report(rowsOf(parents[0], items), Completed, got.trace), EachParent(parents[1..], fetch, rowsOf))
  }

  /** The rows a parent contributes when its fetch succeeds. */
  function ParentRows<P, T>(fetch: P -> Fetched<seq<T>>, rowsOf: (P, seq<T>) -> seq<Row>): P -> seq<Row>
  {
    p => if fetch(p).result.Success? then rowsOf(p, fetch(p).result.value) else []
  }

  /** The per-parent loop runs to the end exactly when every parent's fetch
      succeeds, and then holds every parent's rows in parent order. */
  lemma {:induction false} EachParentCompleted<P, T>(parents: seq<P>, fetch: P -> Fetched<seq<T>>,
                                                    rowsOf: (P, seq<T>) -> seq<Row>)
    ensures EachParent(parents, fetch, rowsOf).status == Completed <==>
              forall i :: 0 <= i < |parents| ==> fetch(parents[i]).result.Success?
    ensures EachParent(parents, fetch, rowsOf).status == Completed ==>
              EachParent(parents, fetch, rowsOf).rows == FlatMap(ParentRows(fetch, rowsOf), parents)
  {
    if parents != [] {
      var tail := parents[1..];
      EachParentCompleted(tail, fetch, rowsOf);
      assert forall i :: 0 <= i < |tail| ==> tail[i] == parents[i + 1];
    }
  }

  /** When the per-parent loop aborts, it is on the first parent whose fetch
      failed, with that fetch's error, and the rows are those of the parents
      before it. */
  lemma {:induction false} EachParentAborted<P, T>(parents: seq<P>, fetch: P -> Fetched<seq<T>>,
                                                  rowsOf: (P, seq<T>) -> seq<Row>)
    ensures EachParent(parents, fetch, rowsOf).status.Aborted? ==>
              exists k :: 0 <= k < |parents| &&
                (forall i :: 0 <= i < k ==> fetch(parents[i]).result.Success?) &&
                fetch(parents[k]).result == Failure(EachParent(parents, fetch, rowsOf).status.error) &&
                EachParent(parents, fetch, rowsOf).rows == FlatMap(ParentRows(fetch, rowsOf), parents[..k])
  {
    if parents != [] {
      var tail := parents[1..];
      var got := fetch(parents[0]);
      if got.result.Failure? {
        assert parents[..0] == [];
      } else {
        var rest := EachParent(tail, fetch, rowsOf);
        if rest.status.Aborted? {
          EachParentAborted(tail, fetch, rowsOf);
          var k :| 0 <= k < |tail| &&
            (forall i :: 0 <= i < k ==> fetch(tail[i]).result.Success?) &&
            fetch(tail[k]).result == Failure(rest.status.error) &&
            rest.rows == FlatMap(ParentRows(fetch, rowsOf), tail[..k]);
          assert forall i :: 0 <= i < k ==> tail[i] == parents[i + 1];
          assert parents[..k + 1][0] == parents[0];
          assert parents[..k + 1][1..] == tail[..k];
          assert FlatMap(ParentRows(fetch, rowsOf), parents[..k + 1])
              == rowsOf(parents[0], got.result.value) + rest.rows;
        }
      }
    }
  }

  /** Every row the per-parent loop writes has the width `rowsOf` gives all
      its rows, whether or not it runs to the end. */
  lemma {:induction false} EachParentWidth<P, T>(parents: seq<P>, fetch: P -> Fetched<seq<T>>,
                                                rowsOf: (P, seq<T>) -> seq<Row>, width: nat)
    requires forall p, items, i :: 0 <= i < |rowsOf(p, items)| ==> |rowsOf(p, items)[i]| == width
    ensures forall row :: row in EachParent(parents, fetch, rowsOf).rows ==> |row| == width
  {
    if parents != [] {
      EachParentWidth(parents[1..], fetch, rowsOf, width);
      var got := fetch(parents[0]);
      if got.result.Success? {
        var mine := rowsOf(parents[0], got.result.value);
        var rest := EachParent(parents[1..], fetch, rowsOf).rows;
        assert EachParent(parents, fetch, rowsOf).rows == mine + rest;
        RowsOfWidth(rowsOf, width, parents[0], got.result.value);
        forall row | row in mine + rest ensures |row| == width {
          if row in mine {
            var i :| 0 <= i < |mine| && mine[i] == row;
          } else {
            assert row in rest;
          }
        }
      }
    }
  }

  lemma RowsOfWidth<P, T>(rowsOf: (P, seq<T>) -> seq<Row>, width: nat, parent: P, items: seq<T>)
    requires forall p, items, i :: 0 <= i < |rowsOf(p, items)| ==> |rowsOf(p, items)[i]| == width
    ensures forall i :: 0 <= i < |rowsOf(parent, items)| ==> |rowsOf(parent, items)[i]| == width
  {
  }

  /** A report of a single fetch: `header`, written before the fetch, then
      one row per fetched item; a failed fetch leaves the header alone. */
  function Listed<T>(header: Row, got: Fetched<seq<T>>, rowOf: T -> Row): Report
  {
    match got.result
    case Failure(e) => Report([header], Aborted(e), got.trace)
    case Success(items) => Report([header] + Map(rowOf, items), Completed, got.trace)
  }

  /** Such a report starts with the header and, when every row `rowOf`
      makes has the header's width, so does every row; it runs to the end
      exactly when the fetch succeeds, and then holds one row per item in
      fetched order; otherwise it holds the header alone and ends with the
      fetch's error. */
  lemma ListedOutcome<T>(header: Row, got: Fetched<seq<T>>, rowOf: T -> Row)
    ensures Listed(header, got, rowOf).rows[0] == header
    ensures (forall t :: |rowOf(t)| == |header|) ==>
      forall row :: row in Listed(header, got, rowOf).rows ==> |row| == |header|
    ensures Listed(header, got, rowOf).status == Completed <==> got.result.Success?
    ensures Listed(header, got, rowOf).status.Aborted? ==>
      Listed(header, got, rowOf).rows == [header] && got.result == Failure(Listed(header, got, rowOf).status.error)
    ensures Listed(header, got, rowOf).status == Completed ==>
      |Listed(header, got, rowOf).rows| == |got.result.value| + 1 &&
      forall i :: 0 <= i < |got.result.value| ==>
        Listed(header, got, rowOf).rows[i + 1] == rowOf(got.result.value[i])
  {
    if got.result.Success? {
      var items := got.result.value;
      var rows := [header] + Map(rowOf, items);
      assert Listed(header, got, rowOf).rows == rows;
      forall i | 0 <= i < |items| ensures rows[i + 1] == rowOf(items[i]) {
        assert rows[i + 1] == Map(rowOf, items)[i];
      }
      if forall t :: |rowOf(t)| == |header| {
        forall row | row in rows ensures |row| == |header| {
          var i :| 0 <= i < |rows| && rows[i] == row;
          if i > 0 {
            assert rows[i] == rowOf(items[i - 1]);
          }
        }
      }
    }
  }

  /** A report that writes `header`, fetches the parents (aborting on
      failure) and then goes through them with `EachParent`. */
  function Headed<P, T>(header: Row, parents: Fetched<seq<P>>, fetch: P -> Fetched<seq<T>>,
                        rowsOf: (P, seq<T>) -> seq<Row>): Report
  {
    match parents.result
    case Failure(e) => Report([header], Aborted(e), parents.trace)
    case Success(ps) => Then(Report([header], Completed, parents.trace), EachParent(ps, fetch, rowsOf))
  }

  /** Such a report starts with the header, and every row has the header's
      width when every row `rowsOf` makes does; it runs to the end exactly
      when the parents and every parent's items are fetched, and then holds
      the header followed by every parent's rows in parent order. */
  lemma HeadedOutcome<P, T>(header: Row, parents: Fetched<seq<P>>, fetch: P -> Fetched<seq<T>>,
                            rowsOf: (P, seq<T>) -> seq<Row>)
    requires forall p, items, i :: 0 <= i < |rowsOf(p, items)| ==> |rowsOf(p, items)[i]| == |header|
    ensures Headed(header, parents, fetch, rowsOf).rows[0] == header
    ensures forall row :: row in Headed(header, parents, fetch, rowsOf).rows ==> |row| == |header|
    ensures Headed(header, parents, fetch, rowsOf).status == Completed <==>
      parents.result.Success? &&
      forall i :: 0 <= i < |parents.result.value| ==> fetch(parents.result.value[i]).result.Success?
    ensures Headed(header, parents, fetch, rowsOf).status == Completed ==>
      Headed(header, parents, fetch, rowsOf).rows
        == [header] + FlatMap(ParentRows(fetch, rowsOf), parents.result.value)
  {
    if parents.result.Success? {
      var ps := parents.result.value;
      var each := EachParent(ps, fetch, rowsOf);
      EachParentCompleted(ps, fetch, rowsOf);
      EachParentWidth(ps, fetch, rowsOf, |header|);
      assert Headed(header, parents, fetch, rowsOf).rows == [header] + each.rows;
    }
  }

  /** A report loop whose fetches return the same items mapped by `g`, and
      whose rows of mapped items are the rows of the items, writes the same
      report. */
  lemma {:induction false} EachParentMapped<P, T, U>(parents: seq<P>, fetch: P -> Fetched<seq<T>>,
                                                    rowsOf: (P, seq<T>) -> seq<Row>,
                                                    mapped: P -> Fetched<seq<U>>,
                                                    mappedRows: (P, seq<U>) -> seq<Row>, g: T -> U)
    requires forall p :: mapped(p) == Mapped(g, fetch(p))
    requires forall p, items :: mappedRows(p, Map(g, items)) == rowsOf(p, items)
    ensures EachParent(parents, mapped, mappedRows) == EachParent(parents, fetch, rowsOf)
  {
    if parents != [] {
      EachParentMapped(parents[1..], fetch, rowsOf, mapped, mappedRows, g);
      var got := fetch(parents[0]);
      if got.result.Success? {
        assert mappedRows(parents[0], Map(g, got.result.value)) == rowsOf(parents[0], got.result.value);
      }
    }
  }

  // ---- Steps of the report loops ----

  /** Fetching the items of parent `i` in the report loop: on failure the
      report aborts with the rows so far; on success their rows are added. */
  lemma EachParentTurn<P, T>(rows: seq<Row>, trace: seq<Event>, parents: seq<P>, i: nat,
                             fetch: P -> Fetched<seq<T>>, rowsOf: (P, seq<T>) -> seq<Row>)
    requires i < |parents|
    ensures Then(Report(rows, Completed, trace), EachParent(parents[i..], fetch, rowsOf))
         == (var got := fetch(parents[i]);
             if got.result.Failure? then Report(rows, Aborted(got.result.error), trace + got.trace)
             else Then(Report(rows + rowsOf(parents[i], got.result.value), Completed, trace + got.trace),
                       EachParent(parents[i + 1..], fetch, rowsOf)))
  {
    assert parents[i..][0] == parents[i];
    assert parents[i..][1..] == parents[i + 1..];
    var got := fetch(parents[i]);
    if got.result.Failure? {
      assert rows + [] == rows;
    } else {
      var rest := EachParent(parents[i + 1..], fetch, rowsOf);
      assert rows + (rowsOf(parents[i], got.result.value) + rest.rows)
          == rows + rowsOf(parents[i], got.result.value) + rest.rows;
      assert trace + (got.trace + rest.trace) == trace + got.trace + rest.trace;
    }
  }

  /** Past the last parent of the report loop. */
  lemma EachParentEnd<P, T>(rows: seq<Row>, trace: seq<Event>, parents: seq<P>,
                            fetch: P -> Fetched<seq<T>>, rowsOf: (P, seq<T>) -> seq<Row>)
    ensures Then(Report(rows, Completed, trace), EachParent(parents[|parents|..], fetch, rowsOf))
         == Report(rows, Completed, trace)
  {
    assert parents[|parents|..] == [];
    assert rows + [] == rows;
    assert trace + [] == trace;
  }

  // ---- The admin/member split of the membership reports ----

  /** The text of a run of entries: each entry followed by ", ". */
  function Entries<T>(entry: T -> string, xs: seq<T>): string
  {
    Concat(Map(Separated(entry), xs))
  }

  function Separated<T>(entry: T -> string): T -> string
  {
    x => entry(x) + ", "
  }

  /** The loop that appends each member's entry to `admins` when `isAdmin`
      holds of it and to `members` otherwise. */
  method SplitByRole<T>(xs: seq<T>, isAdmin: T -> bool, entry: T -> string)
    returns (admins: string, members: string)
    ensures admins == Entries(entry, Filter(isAdmin, xs))
    ensures members == Entries(entry, Reject(isAdmin, xs))
  {
    admins, members := "", "";
    for i := 0 to |xs|
      invariant admins == Entries(entry, Filter(isAdmin, xs[..i]))
      invariant members == Entries(entry, Reject(isAdmin, xs[..i]))
    {
      SplitStepAt(xs, i, isAdmin, entry);
      if isAdmin(xs[i]) {
        admins := admins + (entry(xs[i]) + ", ");
      } else {
        members := members + (entry(xs[i]) + ", ");
      }
    }
    assert xs[..|xs|] == xs;
  }

  /** SplitStep at the loop's position `i`. */
  lemma SplitStepAt<T>(xs: seq<T>, i: nat, isAdmin: T -> bool, entry: T -> string)
    requires i < |xs|
    ensures Entries(entry, Filter(isAdmin, xs[..i + 1]))
         == if isAdmin(xs[i]) then Entries(entry, Filter(isAdmin, xs[..i])) + (entry(xs[i]) + ", ")
            else Entries(entry, Filter(isAdmin, xs[..i]))
    ensures Entries(entry, Reject(isAdmin, xs[..i + 1]))
         == if isAdmin(xs[i]) then Entries(entry, Reject(isAdmin, xs[..i]))
            else Entries(entry, Reject(isAdmin, xs[..i])) + (entry(xs[i]) + ", ")
  {
    assert xs[..i + 1] == xs[..i] + [xs[i]];
    SplitStep(xs[..i], xs[i], isAdmin, entry);
  }

  /** One more member: its entry goes to exactly one of the two texts. */
  lemma SplitStep<T>(xs: seq<T>, x: T, isAdmin: T -> bool, entry: T -> string)
    ensures Entries(entry, Filter(isAdmin, xs + [x]))
         == if isAdmin(x) then Entries(entry, Filter(isAdmin, xs)) + (entry(x) + ", ")
            else Entries(entry, Filter(isAdmin, xs))
    ensures Entries(entry, Reject(isAdmin, xs + [x]))
         == if isAdmin(x) then Entries(entry, Reject(isAdmin, xs))
            else Entries(entry, Reject(isAdmin, xs)) + (entry(x) + ", ")
  {
    FilterSnoc(isAdmin, xs, x);
    RejectSnoc(isAdmin, xs, x);
    if isAdmin(x) {
      EntriesSnoc(entry, Filter(isAdmin, xs), x);
      assert Reject(isAdmin, xs + [x]) == Reject(isAdmin, xs);
    } else {
      EntriesSnoc(entry, Reject(isAdmin, xs), x);
      assert Filter(isAdmin, xs + [x]) == Filter(isAdmin, xs);
    }
  }

  lemma EntriesSnoc<T>(entry: T -> string, xs: seq<T>, x: T)
    ensures Entries(entry, xs + [x]) == Entries(entry, xs) + (entry(x) + ", ")
  {
    MapAppend(Separated(entry), xs, [x]);
    ConcatAppend(Map(Separated(entry), xs), Map(Separated(entry), [x]));
    assert Map(Separated(entry), [x]) == [entry(x) + ", "];
    assert Concat([entry(x) + ", "]) == entry(x) + ", " + "";
  }

  /** Every member lands in exactly one of the two columns, as often as it
      occurs, admins exactly those `isAdmin` accepts, in order. */
  lemma SplitByRoleIsPartition<T>(xs: seq<T>, isAdmin: T -> bool)
    ensures |Filter(isAdmin, xs)| + |Reject(isAdmin, xs)| == |xs|
    ensures multiset(Filter(isAdmin, xs)) + multiset(Reject(isAdmin, xs)) == multiset(xs)
    ensures forall x :: x in Filter(isAdmin, xs) ==> isAdmin(x)
    ensures forall x :: x in Reject(isAdmin, xs) ==> !isAdmin(x)
  {
    FilterRejectPartition(isAdmin, xs);
  }
}
