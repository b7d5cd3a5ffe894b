/** The cursor walk every fetcher performs.

    Each fetcher in the source is a `for {}` loop that (1) sends the query
    with the current cursor (nil at first), (2) panics on a query error,
    (3) backs off when the quota is low, (4) maps every node of the page to
    entities, appending them (and calling nested fetchers for fan-out),
    (5) stops after a page whose `HasNextPage` is false, and otherwise
    (6) stores the page's `EndCursor` as the next cursor.

    `Walk` is that loop as a recursive function over the replies; `EndsAt`,
    `NodesBefore`, `RequestsBefore` and `TraceBefore` describe a complete walk
    page by page, and the lemmas below connect the two. `Paginate` is the
    loop itself for fetchers whose per-node work makes no requests. */
module Paging {
  import opened Common
  import opened Upstream

  /** A fetcher: the scope it queries, the replies the upstream gives to its
      successive requests, its quota policy, where its page sits in a reply,
      and what it does with each node (which may itself fetch). */
  datatype Fetch<!D, !N, E> = Fetch(
    scope: Scope,
    replies: seq<Reply<D>>,
    policy: QuotaPolicy,
    locate: D -> Result<Page<N>>,
    process: N -> Fetched<seq<E>>)

  function Done<E>(items: seq<E>, trace: seq<Event>): Fetched<seq<E>>
  {
    Fetched(Success(items), trace)
  }

  /** `a` followed by `b`, where `b` only happens when `a` succeeded: items and
      events accumulate in order, and the first failure ends everything. */
  function AndThen<E>(a: Fetched<seq<E>>, b: Fetched<seq<E>>): Fetched<seq<E>>
  {
    if a.result.Failure? then a
    else Fetched(
      if b.result.Success? then Success(a.result.value + b.result.value) else b.result,
      a.trace + b.trace)
  }

  lemma AndThenUnit<E>(b: Fetched<seq<E>>)
    ensures AndThen(Done([], []), b) == b
  {
    if b.result.Success? {
      assert [] + b.result.value == b.result.value;
    }
    assert [] + b.trace == b.trace;
  }

  lemma AndThenAssoc<E>(a: Fetched<seq<E>>, b: Fetched<seq<E>>, c: Fetched<seq<E>>)
    ensures AndThen(AndThen(a, b), c) == AndThen(a, AndThen(b, c))
  {
    if a.result.Success? && b.result.Success? {
      assert a.trace + b.trace + c.trace == a.trace + (b.trace + c.trace);
      if c.result.Success? {
        assert a.result.value + b.result.value + c.result.value
            == a.result.value + (b.result.value + c.result.value);
      }
    }
  }

  /** Per-node work that makes no request and cannot fail: each node becomes
      `expand(node)`. */
  function Pure<N, E>(expand: N -> seq<E>): N -> Fetched<seq<E>>
  {
    node => Done(expand(node), [])
  }

  /** The per-node work of the loop over one page's nodes, in order, stopping
      at the first failure. */
  function ProcessNodes<N, E>(nodes: seq<N>, process: N -> Fetched<seq<E>>): Fetched<seq<E>>
  {
    if nodes == [] then Done([], [])
    else AndThen(process(nodes[0]), ProcessNodes(nodes[1..], process))
  }

  /** Processing two runs of nodes one after the other is processing their
      concatenation. */
  lemma {:induction false} ProcessNodesAppend<N, E>(a: seq<N>, b: seq<N>, process: N -> Fetched<seq<E>>)
    ensures ProcessNodes(a + b, process) == AndThen(ProcessNodes(a, process), ProcessNodes(b, process))
  {
    if a == [] {
      assert a + b == b;
      AndThenUnit(ProcessNodes(b, process));
    } else {
      assert (a + b)[0] == a[0];
      assert (a + b)[1..] == a[1..] + b;
      ProcessNodesAppend(a[1..], b, process);
      AndThenAssoc(process(a[0]), ProcessNodes(a[1..], process), ProcessNodes(b, process));
    }
  }

  /** Work that makes no request maps the nodes and never fails. */
  lemma {:induction false} ProcessPure<N, E>(nodes: seq<N>, process: N -> Fetched<seq<E>>, expand: N -> seq<E>)
    requires forall x :: process(x) == Done(expand(x), [])
    ensures ProcessNodes(nodes, process) == Done(FlatMap(expand, nodes), [])
  {
    if nodes != [] {
      ProcessPure(nodes[1..], process, expand);
    }
  }

  /** One turn of the loop for request `k` carrying `cursor`: the request, the
      quota check, locating the page, and the work on its nodes. */
  function Step<D, N, E>(f: Fetch<D, N, E>, k: nat, cursor: Option<Cursor>): (r: Fetched<seq<E>>)
    ensures r.result.Success? ==> Served(f, k)
  {
    var request := [Request(f.scope, cursor)];
    if k >= |f.replies| then Fetched(Failure(NoReply(f.scope)), request)
    else match f.replies[k]
      case QueryFailed(message) => Fetched(Failure(QueryError(f.scope, message)), request)
      case Answered(data, quota) =>
        var checked := request + QuotaWait(f.scope, f.policy, quota);
        match f.locate(data)
        case Failure(e) => Fetched(Failure(e), checked)
        case Success(page) => AndThen(Done([], checked), ProcessNodes(page.nodes, f.process))
  }

  /** Reply `k` exists, was answered, and its page could be located. */
  predicate Served<D, N, E>(f: Fetch<D, N, E>, k: nat)
  {
    k < |f.replies| && f.replies[k].Answered? && f.locate(f.replies[k].data).Success?
  }

  function PageAt<D, N, E>(f: Fetch<D, N, E>, k: nat): Page<N>
    requires Served(f, k)
  {
    f.locate(f.replies[k].data).value
  }

  /** The loop from request `k` on, `cursor` being the cursor it carries. */
  function WalkFrom<D, N, E>(f: Fetch<D, N, E>, k: nat, cursor: Option<Cursor>): Fetched<seq<E>>
    decreases |f.replies| - k
  {
    var here := Step(f, k, cursor);
    if here.result.Failure? || !PageAt(f, k).hasNextPage then here
    else AndThen(here, WalkFrom(f, k + 1, Some(PageAt(f, k).endCursor)))
  }

  /** The whole loop: the first request carries the nil cursor. */
  function Walk<D, N, E>(f: Fetch<D, N, E>): Fetched<seq<E>>
  {
    WalkFrom(f, 0, None)
  }

  // ---- A complete walk, described page by page ----

  /** The cursor request `k` of a walk carries: nil for the first, then the
      previous page's EndCursor. */
  function CursorAt<D, N, E>(f: Fetch<D, N, E>, k: nat): Option<Cursor>
    requires k == 0 || Served(f, k - 1)
  {
    if k == 0 then None else Some(PageAt(f, k - 1).endCursor)
  }

  /** From request `k` on, the replies are pages announcing a next page up to
      reply `n`, whose page is the last. */
  predicate EndsFrom<D, N, E>(f: Fetch<D, N, E>, k: nat, n: nat)
  {
    && k <= n
    && (forall i :: k <= i < n ==> Served(f, i) && PageAt(f, i).hasNextPage)
    && Served(f, n) && !PageAt(f, n).hasNextPage
  }

  /** The upstream ends the walk at reply `n`. */
  predicate EndsAt<D, N, E>(f: Fetch<D, N, E>, n: nat)
  {
    EndsFrom(f, 0, n)
  }

  /** The nodes of pages `0` to `n`, page after page. */
  function NodesThrough<D, N, E>(f: Fetch<D, N, E>, n: nat): seq<N>
    requires ServedBefore(f, n + 1)
  {
    NodesBefore(f, n + 1)
  }

  predicate ServedBefore<D, N, E>(f: Fetch<D, N, E>, k: nat)
  {
    forall i :: 0 <= i < k ==> Served(f, i)
  }

  /** The nodes of the first `k` pages, page after page. */
  function NodesBefore<D, N, E>(f: Fetch<D, N, E>, k: nat): seq<N>
    requires ServedBefore(f, k)
  {
    if k == 0 then [] else NodesBefore(f, k - 1) + PageAt(f, k - 1).nodes
  }

  /** The fetcher's own events for page `i`: its request, then its back-off. */
  function PageEvents<D, N, E>(f: Fetch<D, N, E>, i: nat): seq<Event>
    requires Served(f, i) && (i == 0 || Served(f, i - 1))
  {
    [Request(f.scope, CursorAt(f, i))] + QuotaWait(f.scope, f.policy, f.replies[i].quota)
  }

  /** The fetcher's own events for the first `k` pages. */
  function RequestsBefore<D, N, E>(f: Fetch<D, N, E>, k: nat): seq<Event>
    requires ServedBefore(f, k)
  {
    if k == 0 then [] else RequestsBefore(f, k - 1) + PageEvents(f, k - 1)
  }

  /** All events of the first `k` pages: for each, the fetcher's own events
      and then those of the work on its nodes. */
  function TraceBefore<D, N, E>(f: Fetch<D, N, E>, k: nat): seq<Event>
    requires ServedBefore(f, k)
  {
    if k == 0 then []
    else TraceBefore(f, k - 1) + PageEvents(f, k - 1)
         + ProcessNodes(PageAt(f, k - 1).nodes, f.process).trace
  }

  /** The loop's first `k` turns, when each was served. */
  function Before<D, N, E>(f: Fetch<D, N, E>, k: nat): Fetched<seq<E>>
    requires ServedBefore(f, k)
  {
    if k == 0 then Done([], []) else AndThen(Before(f, k - 1), Step(f, k - 1, CursorAt(f, k - 1)))
  }

  /** The first `k` replies were served pages, each announcing a next page:
      the loop reaches request `k`. */
  predicate Continues<D, N, E>(f: Fetch<D, N, E>, k: nat)
  {
    ServedBefore(f, k) && forall i :: 0 <= i < k ==> PageAt(f, i).hasNextPage
  }

  lemma {:induction false} WalkPrefix<D, N, E>(f: Fetch<D, N, E>, k: nat)
    requires Continues(f, k)
    ensures Walk(f) == AndThen(Before(f, k), WalkFrom(f, k, CursorAt(f, k)))
  {
    if k == 0 {
      AndThenUnit(Walk(f));
    } else {
      var j := k - 1;
      assert Continues(f, j);
      WalkPrefix(f, j);
      assert Served(f, j) && PageAt(f, j).hasNextPage;
      var here := Step(f, j, CursorAt(f, j));
      if here.result.Success? {
        assert CursorAt(f, k) == Some(PageAt(f, j).endCursor);
        AndThenAssoc(Before(f, j), here, WalkFrom(f, k, CursorAt(f, k)));
      }
    }
  }

  /** A walk the upstream ends at reply `n` makes exactly the loop's first
      `n + 1` turns. */
  lemma WalkEndsAt<D, N, E>(f: Fetch<D, N, E>, n: nat)
    requires EndsAt(f, n)
    ensures ServedBefore(f, n + 1)
    ensures Walk(f) == Before(f, n + 1)
  {
    assert Continues(f, n);
    WalkPrefix(f, n);
  }

  /** Turn `i` of the loop on a served page: own events, then the nodes. */
  lemma StepServed<D, N, E>(f: Fetch<D, N, E>, i: nat)
    requires Served(f, i) && (i == 0 || Served(f, i - 1))
    ensures Step(f, i, CursorAt(f, i))
         == AndThen(Done([], PageEvents(f, i)), ProcessNodes(PageAt(f, i).nodes, f.process))
  {
  }

  /** Appending one page, its own events and the work on its nodes, keeps a
      walk prefix in step with the per-node work on all nodes so far. */
  lemma AndThenPage<E>(a: Fetched<seq<E>>, p: Fetched<seq<E>>, events: seq<Event>, q: Fetched<seq<E>>,
                       t: seq<Event>)
    requires a.result == p.result
    requires a.result.Success? ==> a.trace == t
    ensures AndThen(a, AndThen(Done([], events), q)).result == AndThen(p, q).result
    ensures AndThen(a, AndThen(Done([], events), q)).result.Success? ==>
              AndThen(a, AndThen(Done([], events), q)).trace == t + events + q.trace
  {
    if a.result.Success? && q.result.Success? {
      assert [] + q.result.value == q.result.value;
      assert a.trace + (events + q.trace) == t + events + q.trace;
    }
  }

  lemma {:induction false} BeforeIsPages<D, N, E>(f: Fetch<D, N, E>, k: nat)
    requires ServedBefore(f, k)
    ensures Before(f, k).result == ProcessNodes(NodesBefore(f, k), f.process).result
    ensures Before(f, k).result.Success? ==> Before(f, k).trace == TraceBefore(f, k)
  {
    if k > 0 {
      var j := k - 1;
      BeforeIsPages(f, j);
      StepServed(f, j);
      var page := PageAt(f, j);
      var a := Before(f, j);
      var s := Step(f, j, CursorAt(f, j));
      var p := ProcessNodes(NodesBefore(f, j), f.process);
      var q := ProcessNodes(page.nodes, f.process);
      assert Before(f, k) == AndThen(a, s);
      assert NodesBefore(f, k) == NodesBefore(f, j) + page.nodes;
      assert TraceBefore(f, k) == TraceBefore(f, j) + PageEvents(f, j) + q.trace;
      ProcessNodesAppend(NodesBefore(f, j), page.nodes, f.process);
      AndThenPage(a, p, PageEvents(f, j), q, TraceBefore(f, j));
    }
  }

  /** The fetcher's result is the per-node work applied to the nodes of all
      its pages in page-then-node order; when it succeeds, its events are,
      page after page, the request carrying that page's cursor, the back-off
      and the events of the work on the page's nodes. */
  lemma FetchComplete<D, N, E>(f: Fetch<D, N, E>, n: nat)
    requires EndsAt(f, n)
    ensures ServedBefore(f, n + 1)
    ensures Walk(f).result == ProcessNodes(NodesBefore(f, n + 1), f.process).result
    ensures Walk(f).result.Success? ==> Walk(f).trace == TraceBefore(f, n + 1)
  {
    WalkEndsAt(f, n);
    BeforeIsPages(f, n + 1);
  }

  lemma {:induction false} WalkFromEnds<D, N, E>(f: Fetch<D, N, E>, k: nat, cursor: Option<Cursor>)
    requires WalkFrom(f, k, cursor).result.Success?
    ensures exists n: nat :: EndsFrom(f, k, n)
    decreases |f.replies| - k
  {
    var here := Step(f, k, cursor);
    assert here.result.Success?;
    if PageAt(f, k).hasNextPage {
      WalkFromEnds(f, k + 1, Some(PageAt(f, k).endCursor));
      var n: nat :| EndsFrom(f, k + 1, n);
      assert EndsFrom(f, k, n);
    } else {
      assert EndsFrom(f, k, k);
    }
  }

  /** A walk only succeeds when the upstream ends it: every reply up to the
      last page was answered. */
  lemma FetchSucceedsOnlyIfEnds<D, N, E>(f: Fetch<D, N, E>)
    requires Walk(f).result.Success?
    ensures exists n: nat :: EndsAt(f, n)
  {
    WalkFromEnds(f, 0, None);
    var n: nat :| EndsFrom(f, 0, n);
    assert EndsAt(f, n);
  }

  /** Only one reply can end a walk. */
  lemma EndsAtUnique<D, N, E>(f: Fetch<D, N, E>, n: nat, m: nat)
    requires EndsAt(f, n) && EndsAt(f, m)
    ensures n == m
  {
  }

  /** Why a walk that reaches reply `k` cannot go on from it. */
  function StopError<D, N, E>(f: Fetch<D, N, E>, k: nat): FetchError
    requires !Served(f, k)
  {
    if k >= |f.replies| then NoReply(f.scope)
    else match f.replies[k]
      case QueryFailed(message) => QueryError(f.scope, message)
      case Answered(data, _) => f.locate(data).error
  }

  /** A walk that reaches a reply it cannot serve (a query error, no reply,
      no page) fails, and returns no items: the error is that reply's unless
      the work on an earlier node failed first. */
  lemma WalkStopsAt<D, N, E>(f: Fetch<D, N, E>, k: nat)
    requires Continues(f, k) && !Served(f, k)
    ensures Walk(f).result.Failure?
    ensures ProcessNodes(NodesBefore(f, k), f.process).result.Success? ==>
              Walk(f).result == Failure(StopError(f, k))
  {
    WalkPrefix(f, k);
    BeforeIsPages(f, k);
  }

  // ---- Fetchers whose per-node work makes no request ----

  lemma {:induction false} TraceBeforePure<D, N, E>(f: Fetch<D, N, E>, expand: N -> seq<E>, k: nat)
    requires forall x :: f.process(x) == Done(expand(x), [])
    requires ServedBefore(f, k)
    ensures TraceBefore(f, k) == RequestsBefore(f, k)
  {
    if k > 0 {
      var j := k - 1;
      TraceBeforePure(f, expand, j);
      ProcessPure(PageAt(f, j).nodes, f.process, expand);
      var events := PageEvents(f, j);
      assert TraceBefore(f, k) == TraceBefore(f, j) + events + ProcessNodes(PageAt(f, j).nodes, f.process).trace;
      assert RequestsBefore(f, k) == RequestsBefore(f, j) + events;
      assert RequestsBefore(f, j) + events + [] == RequestsBefore(f, j) + events;
    }
  }

  /** A fetcher that maps each node to `expand(node)` succeeds exactly when
      the upstream ends its walk; it then returns the mapped nodes of all
      pages in page-then-node order, and its events are exactly its own
      requests and back-offs. */
  lemma PureFetch<D, N, E>(f: Fetch<D, N, E>, expand: N -> seq<E>)
    requires forall x :: f.process(x) == Done(expand(x), [])
    ensures Walk(f).result.Success? <==> exists n: nat :: EndsAt(f, n)
    ensures forall n: nat :: EndsAt(f, n) ==>
      ServedBefore(f, n + 1) &&
      Walk(f) == Done(FlatMap(expand, NodesBefore(f, n + 1)), RequestsBefore(f, n + 1))
    ensures forall k: nat :: Continues(f, k) && !Served(f, k) ==> Walk(f).result == Failure(StopError(f, k))
  {
    forall k: nat | Continues(f, k) && !Served(f, k)
      ensures Walk(f).result == Failure(StopError(f, k))
    {
      WalkStopsAt(f, k);
      ProcessPure(NodesBefore(f, k), f.process, expand);
    }
    forall n: nat | EndsAt(f, n)
      ensures ServedBefore(f, n + 1)
      ensures Walk(f) == Done(FlatMap(expand, NodesBefore(f, n + 1)), RequestsBefore(f, n + 1))
    {
      FetchComplete(f, n);
      ProcessPure(NodesBefore(f, n + 1), f.process, expand);
      TraceBeforePure(f, expand, n + 1);
    }
    if Walk(f).result.Success? {
      FetchSucceedsOnlyIfEnds(f);
    }
  }

  /** With no quota check, a walk's own events are its requests alone, one
      per page, carrying the chained cursors. */
  lemma {:induction false} NoQuotaCheckRequests<D, N, E>(f: Fetch<D, N, E>, k: nat)
    requires f.policy == NoQuotaCheck && ServedBefore(f, k)
    ensures |RequestsBefore(f, k)| == k
    ensures forall i :: 0 <= i < k ==> RequestsBefore(f, k)[i] == Request(f.scope, CursorAt(f, i))
  {
    if k > 0 {
      NoQuotaCheckRequests(f, k - 1);
      assert PageEvents(f, k - 1) == [Request(f.scope, CursorAt(f, k - 1))];
    }
  }

  // ---- Fetchers whose per-node work may fetch ----

  /** What the work on one node contributes when it succeeds. */
  function Yield<N, E>(process: N -> Fetched<seq<E>>): N -> seq<E>
  {
    node => if process(node).result.Success? then process(node).result.value else []
  }

  /** The work on a run of nodes succeeds exactly when the work on every node
      does, and then returns what each contributed, in order. */
  lemma {:induction false} ProcessNodesOutcome<N, E>(nodes: seq<N>, process: N -> Fetched<seq<E>>)
    ensures ProcessNodes(nodes, process).result.Success? <==>
              forall i :: 0 <= i < |nodes| ==> process(nodes[i]).result.Success?
    ensures ProcessNodes(nodes, process).result.Success? ==>
              ProcessNodes(nodes, process).result.value == FlatMap(Yield(process), nodes)
  {
    if nodes != [] {
      ProcessNodesOutcome(nodes[1..], process);
      if process(nodes[0]).result.Success? {
        forall i | 0 < i < |nodes| ensures nodes[i] == nodes[1..][i - 1] { }
      }
    }
  }

  /** A fan-out fetch the upstream ends at reply `n` succeeds exactly when the
      nested work on every node of its pages succeeds, and then returns what
      each node contributed, in page-then-node order. */
  lemma FanOutResult<D, N, E>(f: Fetch<D, N, E>, n: nat)
    requires EndsAt(f, n)
    ensures ServedBefore(f, n + 1)
    ensures Walk(f).result.Success? <==>
              forall i :: 0 <= i < |NodesThrough(f, n)| ==> f.process(NodesThrough(f, n)[i]).result.Success?
    ensures Walk(f).result.Success? ==>
              Walk(f).result.value == FlatMap(Yield(f.process), NodesThrough(f, n))
  {
    FetchComplete(f, n);
    ProcessNodesOutcome(NodesThrough(f, n), f.process);
  }

  /** A fan-out fetch that reaches a reply it cannot serve fails; when the
      nested work on every node of the pages before it succeeded, it fails
      with that reply's error. */
  lemma FanOutStopsAt<D, N, E>(f: Fetch<D, N, E>, k: nat)
    requires Continues(f, k) && !Served(f, k)
    ensures Walk(f).result.Failure?
    ensures (forall i :: 0 <= i < |NodesBefore(f, k)| ==> f.process(NodesBefore(f, k)[i]).result.Success?) ==>
              Walk(f).result == Failure(StopError(f, k))
  {
    WalkStopsAt(f, k);
    ProcessNodesOutcome(NodesBefore(f, k), f.process);
  }

  // ---- Steps of the pagination loops ----

  lemma AndThenUnitRight<E>(a: Fetched<seq<E>>)
    ensures AndThen(a, Done([], [])) == a
  {
    if a.result.Success? {
      assert a.result.value + [] == a.result.value;
    }
    assert a.trace + [] == a.trace;
  }

  /** What follows the work on the nodes of served page `k`. */
  function After<D, N, E>(f: Fetch<D, N, E>, k: nat): Fetched<seq<E>>
    requires Served(f, k)
  {
    if PageAt(f, k).hasNextPage then WalkFrom(f, k + 1, Some(PageAt(f, k).endCursor)) else Done([], [])
  }

  /** Entering served page `k`: its request and back-off are done, its nodes
      are next. */
  lemma EnterPage<D, N, E>(f: Fetch<D, N, E>, k: nat, cursor: Option<Cursor>, items: seq<E>, trace: seq<Event>)
    requires Served(f, k)
    ensures AndThen(Done(items, trace), WalkFrom(f, k, cursor))
         == AndThen(AndThen(Done(items, trace + ([Request(f.scope, cursor)] + QuotaWait(f.scope, f.policy, f.replies[k].quota))),
                            ProcessNodes(PageAt(f, k).nodes, f.process)),
                    After(f, k))
  {
    var checked := [Request(f.scope, cursor)] + QuotaWait(f.scope, f.policy, f.replies[k].quota);
    var nodes := ProcessNodes(PageAt(f, k).nodes, f.process);
    var here := Step(f, k, cursor);
    assert here == AndThen(Done([], checked), nodes);
    AndThenAssoc(Done(items, trace), Done([], checked), nodes);
    assert AndThen(Done(items, trace), Done([], checked)) == Done(items, trace + checked) by {
      assert items + [] == items;
    }
    if here.result.Failure? {
    } else if !PageAt(f, k).hasNextPage {
      AndThenUnitRight(AndThen(Done(items, trace + checked), nodes));
    } else {
      AndThenAssoc(Done(items, trace), here, After(f, k));
    }
  }

  /** The work on node `i` of a page: on failure everything stops with the
      events so far; on success its items and events are added. */
  lemma NodeStep<N, E>(items: seq<E>, trace: seq<Event>, nodes: seq<N>, i: nat,
                       process: N -> Fetched<seq<E>>, after: Fetched<seq<E>>)
    requires i < |nodes|
    ensures AndThen(AndThen(Done(items, trace), ProcessNodes(nodes[i..], process)), after)
         == (var r := process(nodes[i]);
             if r.result.Failure? then Fetched(r.result, trace + r.trace)
             else AndThen(AndThen(Done(items + r.result.value, trace + r.trace),
                                  ProcessNodes(nodes[i + 1..], process)),
                          after))
  {
    assert nodes[i..][0] == nodes[i];
    assert nodes[i..][1..] == nodes[i + 1..];
    AndThenAssoc(Done(items, trace), process(nodes[i]), ProcessNodes(nodes[i + 1..], process));
  }

  /** The work on node `i` of a page, apart from what follows the page. */
  lemma NodeStepOn<N, E>(items: seq<E>, trace: seq<Event>, nodes: seq<N>, i: nat,
                         process: N -> Fetched<seq<E>>)
    requires i < |nodes|
    ensures AndThen(Done(items, trace), ProcessNodes(nodes[i..], process))
         == (var r := process(nodes[i]);
             if r.result.Failure? then Fetched(r.result, trace + r.trace)
             else AndThen(Done(items + r.result.value, trace + r.trace), ProcessNodes(nodes[i + 1..], process)))
  {
    assert nodes[i..][0] == nodes[i];
    assert nodes[i..][1..] == nodes[i + 1..];
    AndThenAssoc(Done(items, trace), process(nodes[i]), ProcessNodes(nodes[i + 1..], process));
  }

  /** Past the last node of a page. */
  lemma LeavePage<N, E>(items: seq<E>, trace: seq<Event>, nodes: seq<N>,
                        process: N -> Fetched<seq<E>>, after: Fetched<seq<E>>)
    ensures AndThen(AndThen(Done(items, trace), ProcessNodes(nodes[|nodes|..], process)), after)
         == AndThen(Done(items, trace), after)
  {
    assert nodes[|nodes|..] == [];
    AndThenUnitRight(Done(items, trace));
  }

  /** One request of a walk and what follows it up to the page's nodes: send
      it, fail on a query error or a missing reply, back off when the quota
      is low, and find the page in the reply. */
  method Receive<D, N, E>(ghost f: Fetch<D, N, E>, scope: Scope, replies: seq<Reply<D>>, policy: QuotaPolicy,
                          locate: D -> Result<Page<N>>, k: nat, cursor: Option<Cursor>)
    returns (located: Result<Page<N>>, events: seq<Event>)
    requires f.scope == scope && f.replies == replies && f.policy == policy && f.locate == locate
    ensures located.Success? <==> Served(f, k)
    ensures located.Success? ==>
              located.value == PageAt(f, k) &&
              events == [Request(scope, cursor)] + QuotaWait(scope, policy, replies[k].quota)
    ensures located.Failure? ==> Step(f, k, cursor) == Fetched(Failure(located.error), events)
  {
    events := [Request(scope, cursor)];
    if k >= |replies| {
      return Failure(NoReply(scope)), events;
    }
    match replies[k] {
      case QueryFailed(message) =>
        located := Failure(QueryError(scope, message));
      case Answered(data, quota) =>
        events := events + QuotaWait(scope, policy, quota);
        located := locate(data);
    }
  }

  // ---- The requests of a walk ----

  /** The cursors carried by the requests of `scope` in a trace, in order. */
  function Cursors(trace: seq<Event>, scope: Scope): seq<Option<Cursor>>
  {
    if trace == [] then []
    else (if trace[0].Request? && trace[0].scope == scope then [trace[0].cursor] else [])
         + Cursors(trace[1..], scope)
  }

  lemma {:induction false} CursorsAppend(a: seq<Event>, b: seq<Event>, scope: Scope)
    ensures Cursors(a + b, scope) == Cursors(a, scope) + Cursors(b, scope)
  {
    if a == [] {
      assert a + b == b;
    } else {
      var x, rest := a[0], a[1..];
      assert a == [x] + rest;
      assert a + b == [x] + (rest + b);
      CursorsAppend(rest, b, scope);
      CursorsCons(x, rest, scope);
      CursorsCons(x, rest + b, scope);
      var head := CursorOf(x, scope);
      assert head + (Cursors(rest, scope) + Cursors(b, scope)) == (head + Cursors(rest, scope)) + Cursors(b, scope);
    }
  }

  /** The cursor an event contributes to `scope`'s requests. */
  function CursorOf(e: Event, scope: Scope): seq<Option<Cursor>>
  {
    if e.Request? && e.scope == scope then [e.cursor] else []
  }

  lemma CursorsCons(e: Event, t: seq<Event>, scope: Scope)
    ensures Cursors([e] + t, scope) == CursorOf(e, scope) + Cursors(t, scope)
  {
    assert ([e] + t)[0] == e;
    assert ([e] + t)[1..] == t;
  }

  /** The walk's own events hold one request per page: the first carries the
      nil cursor and each later one the previous page's EndCursor. */
  lemma {:induction false} RequestCursors<D, N, E>(f: Fetch<D, N, E>, k: nat)
    requires ServedBefore(f, k)
    ensures |Cursors(RequestsBefore(f, k), f.scope)| == k
    ensures forall i :: 0 <= i < k ==> Cursors(RequestsBefore(f, k), f.scope)[i] == CursorAt(f, i)
  {
    if k > 0 {
      var j := k - 1;
      RequestCursors(f, j);
      assert Served(f, j);
      var before := RequestsBefore(f, j);
      assert RequestsBefore(f, k) == before + PageEvents(f, j);
      CursorsAppend(before, PageEvents(f, j), f.scope);
      PageCursors(f, j);
      var cs := Cursors(before, f.scope);
      var all := cs + [CursorAt(f, j)];
      assert Cursors(RequestsBefore(f, k), f.scope) == all;
      forall i | 0 <= i < k ensures all[i] == CursorAt(f, i) {
        if i < j {
          assert all[i] == cs[i];
        }
      }
    }
  }

  /** A page's own events hold one request, carrying that page's cursor. */
  lemma PageCursors<D, N, E>(f: Fetch<D, N, E>, j: nat)
    requires Served(f, j) && (j == 0 || Served(f, j - 1))
    ensures Cursors(PageEvents(f, j), f.scope) == [CursorAt(f, j)]
  {
    var waits := QuotaWait(f.scope, f.policy, f.replies[j].quota);
    var request := [Request(f.scope, CursorAt(f, j))];
    CursorsAppend(request, waits, f.scope);
    assert Cursors(request, f.scope) == [CursorAt(f, j)] by {
      assert request[1..] == [];
    }
    if waits != [] {
      assert waits == [waits[0]];
      assert waits[1..] == [];
    }
  }

  // ---- Events of nested fetches ----

  /** No event of `trace` belongs to `scope`. */
  predicate Avoids(trace: seq<Event>, scope: Scope)
  {
    forall e :: e in trace ==> e.scope != scope
  }

  /** The events of `trace` that belong to `scope`, in order. */
  function Own(trace: seq<Event>, scope: Scope): seq<Event>
  {
    if trace == [] then []
    else (if trace[0].scope == scope then [trace[0]] else []) + Own(trace[1..], scope)
  }

  lemma {:induction false} OwnAppend(a: seq<Event>, b: seq<Event>, scope: Scope)
    ensures Own(a + b, scope) == Own(a, scope) + Own(b, scope)
  {
    if a == [] {
      assert a + b == b;
    } else {
      var x, rest := a[0], a[1..];
      assert a == [x] + rest;
      assert a + b == [x] + (rest + b);
      OwnAppend(rest, b, scope);
      OwnCons(x, rest, scope);
      OwnCons(x, rest + b, scope);
      var head := if x.scope == scope then [x] else [];
      assert head + (Own(rest, scope) + Own(b, scope)) == (head + Own(rest, scope)) + Own(b, scope);
    }
  }

  lemma OwnCons(e: Event, t: seq<Event>, scope: Scope)
    ensures Own([e] + t, scope) == (if e.scope == scope then [e] else []) + Own(t, scope)
  {
    assert ([e] + t)[0] == e;
    assert ([e] + t)[1..] == t;
  }

  lemma {:induction false} OwnAll(trace: seq<Event>, scope: Scope)
    requires forall e :: e in trace ==> e.scope == scope
    ensures Own(trace, scope) == trace
  {
    if trace != [] {
      OwnAll(trace[1..], scope);
    }
  }

  lemma {:induction false} OwnNone(trace: seq<Event>, scope: Scope)
    requires Avoids(trace, scope)
    ensures Own(trace, scope) == []
  {
    if trace != [] {
      OwnNone(trace[1..], scope);
    }
  }

  lemma {:induction false} ProcessAvoids<N, E>(nodes: seq<N>, process: N -> Fetched<seq<E>>, scope: Scope)
    requires forall x :: Avoids(process(x).trace, scope)
    ensures Avoids(ProcessNodes(nodes, process).trace, scope)
  {
    if nodes != [] {
      ProcessAvoids(nodes[1..], process, scope);
    }
  }

  lemma {:induction false} WalkFromAvoids<D, N, E>(f: Fetch<D, N, E>, k: nat, cursor: Option<Cursor>, scope: Scope)
    requires scope != f.scope
    requires forall x :: Avoids(f.process(x).trace, scope)
    ensures Avoids(WalkFrom(f, k, cursor).trace, scope)
    decreases |f.replies| - k
  {
    if k < |f.replies| && f.replies[k].Answered? {
      var quota := f.replies[k].quota;
      assert Avoids(QuotaWait(f.scope, f.policy, quota), scope);
      match f.locate(f.replies[k].data)
      case Failure(_) =>
      case Success(page) =>
        ProcessAvoids(page.nodes, f.process, scope);
    }
    var here := Step(f, k, cursor);
    if here.result.Success? && PageAt(f, k).hasNextPage {
      WalkFromAvoids(f, k + 1, Some(PageAt(f, k).endCursor), scope);
    }
  }

  /** A fetch makes no request and no back-off on behalf of another scope
      unless its per-node work does. */
  lemma WalkAvoids<D, N, E>(f: Fetch<D, N, E>, scope: Scope)
    requires scope != f.scope
    requires forall x :: Avoids(f.process(x).trace, scope)
    ensures Avoids(Walk(f).trace, scope)
  {
    WalkFromAvoids(f, 0, None, scope);
  }

  lemma {:induction false} OwnTraceBefore<D, N, E>(f: Fetch<D, N, E>, k: nat)
    requires ServedBefore(f, k)
    requires forall x :: Avoids(f.process(x).trace, f.scope)
    ensures Own(TraceBefore(f, k), f.scope) == RequestsBefore(f, k)
  {
    if k > 0 {
      var j := k - 1;
      assert ServedBefore(f, j) && Served(f, j);
      OwnTraceBefore(f, j);
      var t := TraceBefore(f, j);
      var e := PageEvents(f, j);
      var q := ProcessNodes(PageAt(f, j).nodes, f.process).trace;
      assert TraceBefore(f, k) == t + e + q;
      OwnAppend(t + e, q, f.scope);
      OwnAppend(t, e, f.scope);
      OwnAllPage(f, j);
      ProcessAvoids(PageAt(f, j).nodes, f.process, f.scope);
      OwnNone(q, f.scope);
    }
  }

  lemma OwnAllPage<D, N, E>(f: Fetch<D, N, E>, j: nat)
    requires Served(f, j) && (j == 0 || Served(f, j - 1))
    ensures Own(PageEvents(f, j), f.scope) == PageEvents(f, j)
  {
    var waits := QuotaWait(f.scope, f.policy, f.replies[j].quota);
    forall e | e in PageEvents(f, j) ensures e.scope == f.scope {
      if e in waits { }
    }
    OwnAll(PageEvents(f, j), f.scope);
  }

  /** When the per-node work fetches only in other scopes (fan-out), the
      fetcher's own events in a successful walk are exactly one request per
      page with the chained cursors, each followed by its back-off. */
  lemma FanOutOwnTrace<D, N, E>(f: Fetch<D, N, E>, n: nat)
    requires EndsAt(f, n) && Walk(f).result.Success?
    requires forall x :: Avoids(f.process(x).trace, f.scope)
    ensures ServedBefore(f, n + 1)
    ensures Own(Walk(f).trace, f.scope) == RequestsBefore(f, n + 1)
  {
    FetchComplete(f, n);
    OwnTraceBefore(f, n + 1);
  }

  // ---- Fetchers that differ only in the records they build ----

  /** A fetch's items mapped by `g`; its outcome and events unchanged. */
  function Mapped<E, F>(g: E -> F, r: Fetched<seq<E>>): Fetched<seq<F>>
  {
    Fetched(if r.result.Success? then Success(Map(g, r.result.value)) else Failure(r.result.error), r.trace)
  }

  lemma MappedAndThen<E, F>(g: E -> F, a: Fetched<seq<E>>, b: Fetched<seq<E>>)
    ensures Mapped(g, AndThen(a, b)) == AndThen(Mapped(g, a), Mapped(g, b))
  {
    if a.result.Success? && b.result.Success? {
      MapAppend(g, a.result.value, b.result.value);
    }
  }

  lemma {:induction false} ProcessNodesMapped<N, E, F>(nodes: seq<N>, process: N -> Fetched<seq<E>>,
                                                      mapped: N -> Fetched<seq<F>>, g: E -> F)
    requires forall x :: mapped(x) == Mapped(g, process(x))
    ensures ProcessNodes(nodes, mapped) == Mapped(g, ProcessNodes(nodes, process))
  {
    if nodes != [] {
      ProcessNodesMapped(nodes[1..], process, mapped, g);
      MappedAndThen(g, process(nodes[0]), ProcessNodes(nodes[1..], process));
    }
  }

  /** Two fetchers sending the same queries to the same replies. */
  ghost predicate SameQueries<D, N, E, F>(f: Fetch<D, N, E>, h: Fetch<D, N, F>)
  {
    f.scope == h.scope && f.replies == h.replies && f.policy == h.policy && f.locate == h.locate
  }

  lemma {:induction false} WalkFromMapped<D, N, E, F>(f: Fetch<D, N, E>, h: Fetch<D, N, F>, g: E -> F,
                                                     k: nat, cursor: Option<Cursor>)
    requires SameQueries(f, h)
    requires forall x :: h.process(x) == Mapped(g, f.process(x))
    ensures WalkFrom(h, k, cursor) == Mapped(g, WalkFrom(f, k, cursor))
    decreases |f.replies| - k
  {
    if Served(f, k) {
      var checked := [Request(f.scope, cursor)] + QuotaWait(f.scope, f.policy, f.replies[k].quota);
      var nodes := PageAt(f, k).nodes;
      ProcessNodesMapped(nodes, f.process, h.process, g);
      MappedAndThen(g, Done([], checked), ProcessNodes(nodes, f.process));
      var here := Step(f, k, cursor);
      assert Step(h, k, cursor) == Mapped(g, here);
      if here.result.Success? && PageAt(f, k).hasNextPage {
        WalkFromMapped(f, h, g, k + 1, Some(PageAt(f, k).endCursor));
        MappedAndThen(g, here, WalkFrom(f, k + 1, Some(PageAt(f, k).endCursor)));
      }
    }
  }

  /** Fetchers sending the same queries, whose per-node work differs only
      by mapping the records it builds, make the same requests and back-offs,
      fail alike, and return the same records mapped. */
  lemma WalkMapped<D, N, E, F>(f: Fetch<D, N, E>, h: Fetch<D, N, F>, g: E -> F)
    requires SameQueries(f, h)
    requires forall x :: h.process(x) == Mapped(g, f.process(x))
    ensures Walk(h) == Mapped(g, Walk(f))
  {
    WalkFromMapped(f, h, g, 0, None);
  }

  // ---- The loop ----

  /** The pagination loop of a fetcher whose per-node work is `expand`. */
  method Paginate<D, N, E>(scope: Scope, replies: seq<Reply<D>>, policy: QuotaPolicy,
                           locate: D -> Result<Page<N>>, expand: N -> seq<E>)
    returns (fetched: Fetched<seq<E>>)
    ensures fetched == Walk(Fetch(scope, replies, policy, locate, Pure(expand)))
  {
    ghost var f := Fetch(scope, replies, policy, locate, Pure(expand));
    var items: seq<E> := [];
    var trace: seq<Event> := [];
    var cursor: Option<Cursor> := None;
    var k := 0;
    AndThenUnit(Walk(f));
    while true
      invariant k <= |replies|
      invariant Walk(f) == AndThen(Done(items, trace), WalkFrom(f, k, cursor))
      decreases |replies| - k
    {
      var located, events := Receive(f, scope, replies, policy, locate, k, cursor);
      if located.Failure? {
        return Fetched(Failure(located.error), trace + events);
      }
      var page := located.value;
      EnterPage(f, k, cursor, items, trace);
      trace := trace + events;
      var i := 0;
      while i < |page.nodes|
        invariant i <= |page.nodes|
        invariant Walk(f) == AndThen(AndThen(Done(items, trace), ProcessNodes(page.nodes[i..], f.process)), After(f, k))
      {
        NodeStep(items, trace, page.nodes, i, f.process, After(f, k));
        assert f.process(page.nodes[i]) == Done(expand(page.nodes[i]), []);
        assert trace + [] == trace;
        items := items + expand(page.nodes[i]);
        i := i + 1;
      }
      LeavePage(items, trace, page.nodes, f.process, After(f, k));
      if !page.hasNextPage {
        AndThenUnitRight(Done(items, trace));
        return Done(items, trace);
      }
      cursor := Some(page.endCursor);
      k := k + 1;
    }
  }
}
