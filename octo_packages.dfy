/** pkg/octo-reports/packages.go: the packages of an organization and the
    package report. The query asks for a rateLimit block; after a page that
    leaves fewer than 100 points the fetch waits until the quota resets. */
module OctoPackages {
  import opened Common
  import opened Upstream
  import opened Paging
  import opened Reports
  import opened OctoEntities

  // ---- getPackages ----

  /** Name and repository copied; the ID is left empty. */
  function PackageOf(node: PackageNode): Package
  {
    Package(node.name, "", node.repositoryName)
  }

  function PackagesFetch(src: Source, org: string): Fetch<Page<PackageNode>, PackageNode, Package>
  {
    Fetch(OrgPackages(org), src.orgPackages(org), UntilReset, WholeReply, Pure(One(PackageOf)))
  }

  /** What getPackages returns and does. */
  function PackagesOf(src: Source, org: string): Fetched<seq<Package>>
  {
    Walk(PackagesFetch(src, org))
  }

  method GetPackages(src: Source, org: string) returns (fetched: Fetched<seq<Package>>)
    ensures fetched == PackagesOf(src, org)
  {
    fetched := Paginate(OrgPackages(org), src.orgPackages(org), UntilReset, WholeReply, One(PackageOf));
  }

  /** When the upstream ends the walk at page `n`, the fetch returns one
      Package per node of pages 0..n in page-then-node order, name and
      repository copied and id empty; its events are, for each page, one
      request carrying the chained cursor followed by a wait until the
      quota's reset time exactly when fewer than 100 points remain. A reply
      it cannot serve before that ends it with that reply's error and no
      packages. */
  lemma PackagesOutcome(src: Source, org: string)
    ensures forall n: nat :: EndsAt(PackagesFetch(src, org), n) ==>
      ServedBefore(PackagesFetch(src, org), n + 1) &&
      PackagesOf(src, org).result == Success(Map(PackageOf, NodesBefore(PackagesFetch(src, org), n + 1))) &&
      PackagesOf(src, org).trace == RequestsBefore(PackagesFetch(src, org), n + 1) &&
      |Cursors(PackagesOf(src, org).trace, OrgPackages(org))| == n + 1 &&
      (forall i :: 0 <= i <= n ==>
        Cursors(PackagesOf(src, org).trace, OrgPackages(org))[i] == CursorAt(PackagesFetch(src, org), i)) &&
      forall i :: 0 <= i <= n ==>
        PageEvents(PackagesFetch(src, org), i)
          == [Request(OrgPackages(org), CursorAt(PackagesFetch(src, org), i))] +
             (if src.orgPackages(org)[i].quota.remaining < QuotaThreshold
              then [WaitUntil(OrgPackages(org), src.orgPackages(org)[i].quota.resetAt)] else [])
    ensures forall k: nat :: Continues(PackagesFetch(src, org), k) && !Served(PackagesFetch(src, org), k) ==>
      PackagesOf(src, org).result == Failure(StopError(PackagesFetch(src, org), k))
  {
    var f := PackagesFetch(src, org);
    PureFetch(f, One(PackageOf));
    forall n: nat | EndsAt(f, n)
      ensures ServedBefore(f, n + 1)
      ensures Walk(f).result == Success(Map(PackageOf, NodesBefore(f, n + 1)))
      ensures Walk(f).trace == RequestsBefore(f, n + 1)
      ensures |Cursors(Walk(f).trace, f.scope)| == n + 1
      ensures forall i :: 0 <= i <= n ==> Cursors(Walk(f).trace, f.scope)[i] == CursorAt(f, i)
    {
      FlatMapOne(PackageOf, NodesBefore(f, n + 1));
      RequestCursors(f, n + 1);
    }
  }

  // ---- GenerateOrgPackageReport ----

  const PackageHeader: Row := ["Package Name", "Repository Name"]

  function PackageRow(p: Package): Row
  {
    [p.name, p.repositoryName]
  }

  /** The packages are fetched before the file is created: a failed fetch
      writes nothing at all. */
  function PackageReport(src: Source, org: string): Report
  {
    var got := PackagesOf(src, org);
    match got.result
    case Failure(e) => Report([], Aborted(e), got.trace)
    case Success(packages) => Report([PackageHeader] + Map(PackageRow, packages), Completed, got.trace)
  }

  method GenerateOrgPackageReport(src: Source, org: string) returns (report: Report)
    ensures report == PackageReport(src, org)
  {
    var got := GetPackages(src, org);
    if got.result.Failure? {
      return Report([], Aborted(got.result.error), got.trace);
    }
    var packages := got.result.value;
    var rows := [PackageHeader];
    for i := 0 to |packages|
      invariant rows == [PackageHeader] + Map(PackageRow, packages[..i])
    {
      MapAppend(PackageRow, packages[..i], [packages[i]]);
      assert packages[..i + 1] == packages[..i] + [packages[i]];
      rows := rows + [PackageRow(packages[i])];
    }
    assert packages[..|packages|] == packages;
    return Report(rows, Completed, got.trace);
  }

  /** A failed fetch leaves no output at all. When the upstream ends the
      walk, the report is the two-column header followed by one row per
      package node, in fetched order, holding the package's name and its
      repository's name. */
  lemma PackageReportRows(src: Source, org: string)
    ensures PackageReport(src, org).status.Aborted? ==> PackageReport(src, org).rows == []
    ensures forall n: nat :: EndsAt(PackagesFetch(src, org), n) ==>
      ServedBefore(PackagesFetch(src, org), n + 1) &&
      PackageReport(src, org).status == Completed &&
      |PackageReport(src, org).rows| == |NodesThrough(PackagesFetch(src, org), n)| + 1 &&
      PackageReport(src, org).rows[0] == ["Package Name", "Repository Name"] &&
      forall i :: 0 <= i < |NodesThrough(PackagesFetch(src, org), n)| ==>
        PackageReport(src, org).rows[i + 1]
          == [NodesThrough(PackagesFetch(src, org), n)[i].name,
              NodesThrough(PackagesFetch(src, org), n)[i].repositoryName]
  {
    var f := PackagesFetch(src, org);
    PureFetch(f, One(PackageOf));
    forall n: nat | EndsAt(f, n)
      ensures ServedBefore(f, n + 1)
      ensures PackageReport(src, org).rows == [PackageHeader] + Map(PackageRow, Map(PackageOf, NodesBefore(f, n + 1)))
    {
      FlatMapOne(PackageOf, NodesBefore(f, n + 1));
    }
  }
}
