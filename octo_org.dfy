/** pkg/octo-reports/org.go: the members of an organization with their
    roles, and the organization membership report of an enterprise, which
    splits each organization's members into admins and the rest. The
    members query asks for no rateLimit block, so the fetch never backs
    off. */
module OctoOrg {
  import opened Common
  import opened Upstream
  import opened Paging
  import opened Reports
  import opened OctoEntities
  import opened OctoEnterprise

  // ---- getOrgMembersWithRole ----

  /** Login from the edge's node, Role from the edge. */
  function MemberOfEdge(edge: MemberEdge): Member
  {
    Member("", "", edge.login, edge.role)
  }

  function MembersFetch(src: Source, org: string): Fetch<Page<MemberEdge>, MemberEdge, Member>
  {
    Fetch(OrgMembers(org), src.orgMembers(org), NoQuotaCheck, WholeReply, Pure(One(MemberOfEdge)))
  }

  /** What getOrgMembersWithRole returns and does. */
  function MembersWithRole(src: Source, org: string): Fetched<seq<Member>>
  {
    Walk(MembersFetch(src, org))
  }

  method GetOrgMembersWithRole(src: Source, org: string) returns (fetched: Fetched<seq<Member>>)
    ensures fetched == MembersWithRole(src, org)
  {
    fetched := Paginate(OrgMembers(org), src.orgMembers(org), NoQuotaCheck, WholeReply, One(MemberOfEdge));
  }

  /** When the upstream ends the walk at page `n`, the fetch returns one
      Member per edge of pages 0..n in page-then-edge order, login and role
      taken from the edge, after exactly n + 1 requests carrying the chained
      cursors and no back-off; a reply it cannot serve before that ends it
      with that reply's error and no members. */
  lemma MembersWithRoleOutcome(src: Source, org: string)
    ensures forall n: nat :: EndsAt(MembersFetch(src, org), n) ==>
      ServedBefore(MembersFetch(src, org), n + 1) &&
      MembersWithRole(src, org).result == Success(Map(MemberOfEdge, NodesBefore(MembersFetch(src, org), n + 1))) &&
      |MembersWithRole(src, org).trace| == n + 1 &&
      forall i :: 0 <= i <= n ==>
        MembersWithRole(src, org).trace[i] == Request(OrgMembers(org), CursorAt(MembersFetch(src, org), i))
    ensures forall k: nat :: Continues(MembersFetch(src, org), k) && !Served(MembersFetch(src, org), k) ==>
      MembersWithRole(src, org).result == Failure(StopError(MembersFetch(src, org), k))
  {
    var f := MembersFetch(src, org);
    PureFetch(f, One(MemberOfEdge));
    forall n: nat | EndsAt(f, n)
      ensures ServedBefore(f, n + 1)
      ensures Walk(f).result == Success(Map(MemberOfEdge, NodesBefore(f, n + 1)))
      ensures |Walk(f).trace| == n + 1
      ensures forall i :: 0 <= i <= n ==> Walk(f).trace[i] == Request(f.scope, CursorAt(f, i))
    {
      FlatMapOne(MemberOfEdge, NodesBefore(f, n + 1));
      NoQuotaCheckRequests(f, n + 1);
    }
  }

  // ---- GenerateOrgMembershipReport ----

  const OrgMembershipHeader: Row := ["Org Name", "Org ID", "Org Admins", "Org Members"]

  /** The role test is an exact comparison with "ADMIN". */
  function IsAdmin(m: Member): bool
  {
    m.role == "ADMIN"
  }

  /** The record of one organization: its login and id, then the entries of
      its admins and of its other members. */
  function OrgRow(org: Org, members: seq<Member>): Row
  {
    [org.login, org.id, Entries(LoginOf, Filter(IsAdmin, members)), Entries(LoginOf, Reject(IsAdmin, members))]
  }

  function OrgRows(org: Org, members: seq<Member>): seq<Row>
  {
    [OrgRow(org, members)]
  }

  function MembersOf(src: Source): Org -> Fetched<seq<Member>>
  {
    (org: Org) => MembersWithRole(src, org.login)
  }

  /** The header, then the organizations of the enterprise, each with its
      members fetched and one record written. */
  function OrgMembershipReport(src: Source, enterprise: string): Report
  {
    Headed(OrgMembershipHeader, OrgsOfEnterprise(src, enterprise), MembersOf(src), OrgRows)
  }

  method GenerateOrgMembershipReport(src: Source, enterprise: string) returns (report: Report)
    ensures report == OrgMembershipReport(src, enterprise)
  {
    var rows := [OrgMembershipHeader];
    var orgs := GetEnterpriseOrgs(src, enterprise);
    var trace := orgs.trace;
    if orgs.result.Failure? {
      return Report(rows, Aborted(orgs.result.error), trace);
    }
    var os := orgs.result.value;
    assert os[0..] == os;
    for i := 0 to |os|
      invariant OrgMembershipReport(src, enterprise)
             == Then(Report(rows, Completed, trace), EachParent(os[i..], MembersOf(src), OrgRows))
    {
      EachParentTurn(rows, trace, os, i, MembersOf(src), OrgRows);
      var got := GetOrgMembersWithRole(src, os[i].login);
      if got.result.Failure? {
        return Report(rows, Aborted(got.result.error), trace + got.trace);
      }
      var admins, members := SplitByRole(got.result.value, IsAdmin, LoginOf);
      rows := rows + [[os[i].login, os[i].id, admins, members]];
      trace := trace + got.trace;
    }
    EachParentEnd(rows, trace, os, MembersOf(src), OrgRows);
    return Report(rows, Completed, trace);
  }

  /** The report starts with the four-column header and every row has four
      fields. It runs to the end exactly when the organizations and every
      organization's members are fetched, and then holds exactly one record
      per organization, in fetched order, whose admins and members columns
      are the entries of the members with role "ADMIN" and of all the
      others. */
  lemma OrgMembershipReportRows(src: Source, enterprise: string)
    ensures OrgMembershipReport(src, enterprise).rows[0] == ["Org Name", "Org ID", "Org Admins", "Org Members"]
    ensures forall row :: row in OrgMembershipReport(src, enterprise).rows ==> |row| == 4
    ensures OrgMembershipReport(src, enterprise).status == Completed <==>
      OrgsOfEnterprise(src, enterprise).result.Success? &&
      forall i :: 0 <= i < |OrgsOfEnterprise(src, enterprise).result.value| ==>
        MembersWithRole(src, OrgsOfEnterprise(src, enterprise).result.value[i].login).result.Success?
    ensures OrgMembershipReport(src, enterprise).status == Completed ==>
      |OrgMembershipReport(src, enterprise).rows| == |OrgsOfEnterprise(src, enterprise).result.value| + 1 &&
      forall i :: 0 <= i < |OrgsOfEnterprise(src, enterprise).result.value| ==>
        OrgMembershipReport(src, enterprise).rows[i + 1]
          == OrgRow(OrgsOfEnterprise(src, enterprise).result.value[i],
                    MembersWithRole(src, OrgsOfEnterprise(src, enterprise).result.value[i].login).result.value)
  {
    var got := OrgsOfEnterprise(src, enterprise);
    HeadedOutcome(OrgMembershipHeader, got, MembersOf(src), OrgRows);
    if got.result.Success? {
      var os := got.result.value;
      forall i | 0 <= i < |os| ensures MembersOf(src)(os[i]) == MembersWithRole(src, os[i].login) { }
      if OrgMembershipReport(src, enterprise).status == Completed {
        OneRowPerOrg(src, os);
      }
    }
  }

  lemma OneRowPerOrg(src: Source, os: seq<Org>)
    requires forall i :: 0 <= i < |os| ==> MembersWithRole(src, os[i].login).result.Success?
    ensures |FlatMap(ParentRows(MembersOf(src), OrgRows), os)| == |os|
    ensures forall i :: 0 <= i < |os| ==>
      FlatMap(ParentRows(MembersOf(src), OrgRows), os)[i] == OrgRow(os[i], MembersWithRole(src, os[i].login).result.value)
  {
    var h := (org: Org) =>
      var m := MembersWithRole(src, org.login);
      OrgRow(org, if m.result.Success? then m.result.value else []);
    FlatMapSingletons(ParentRows(MembersOf(src), OrgRows), h, os);
  }
}
