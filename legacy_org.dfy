/** pkg/org/org.go, the earlier variant of the organization membership
    fetcher and report. Each call builds its own client from a token (a
    parameter the model does not need); the members query asks for no
    rateLimit block.

    On an error from a fetch the report prints it and returns, keeping the
    rows written so far; the fetchers never return one (they panic), and a
    panic ends the report the same way, so both are the model's abort. */
module LegacyOrg {
  import opened Common
  import opened Upstream
  import opened Paging
  import opened Reports
  import OctoEntities
  import OctoEnterprise
  import OctoOrg
  import LegacyEnterprise

  /** org.go's Member: login and role. */
  datatype Member = Member(login: string, role: string)

  // ---- getOrgMembersWithRole ----

  function MemberOfEdge(edge: MemberEdge): Member
  {
    Member(edge.login, edge.role)
  }

  function MembersFetch(src: Source, org: string): Fetch<Page<MemberEdge>, MemberEdge, Member>
  {
    Fetch(OrgMembers(org), src.orgMembers(org), NoQuotaCheck, WholeReply, Pure(One(MemberOfEdge)))
  }

  /** What getOrgMembersWithRole returns and does. */
  function MembersWithRole(src: Source, org: string): Fetched<seq<Member>>
  {
    Walk(MembersFetch(src, org))
  }

  method GetOrgMembersWithRole(src: Source, org: string) returns (fetched: Fetched<seq<Member>>)
    ensures fetched == MembersWithRole(src, org)
  {
    fetched := Paginate(OrgMembers(org), src.orgMembers(org), NoQuotaCheck, WholeReply, One(MemberOfEdge));
  }

  /** The live Member of an edge, as this variant records it. */
  function FromLive(m: OctoEntities.Member): Member
  {
    Member(m.login, m.role)
  }

  /** The fetch makes exactly the live fetch's requests, fails exactly when
      and how it fails, and returns the live members' logins and roles in
      the same order. */
  lemma MembersAgainstLive(src: Source, org: string)
    ensures MembersWithRole(src, org) == Mapped(FromLive, OctoOrg.MembersWithRole(src, org))
  {
    var live := OctoOrg.MembersFetch(src, org);
    var f := MembersFetch(src, org);
    forall x: MemberEdge ensures f.process(x) == Mapped(FromLive, live.process(x)) {
      assert live.process(x) == Done([OctoOrg.MemberOfEdge(x)], []);
      assert f.process(x) == Done([MemberOfEdge(x)], []);
      assert Map(FromLive, [OctoOrg.MemberOfEdge(x)]) == [MemberOfEdge(x)];
    }
    WalkMapped(live, f, FromLive);
  }

  // ---- GenerateMembershipReport ----

  const MembershipHeader: Row := ["Org Name", "Org ID", "Org Admins", "Org Members"]

  function IsAdmin(m: Member): bool
  {
    m.role == "ADMIN"
  }

  function LoginOf(m: Member): string
  {
    m.login
  }

  function OrgRow(org: OctoEntities.Org, members: seq<Member>): Row
  {
    [org.login, org.id, Entries(LoginOf, Filter(IsAdmin, members)), Entries(LoginOf, Reject(IsAdmin, members))]
  }

  function OrgRows(org: OctoEntities.Org, members: seq<Member>): seq<Row>
  {
    [OrgRow(org, members)]
  }

  function MembersOf(src: Source): OctoEntities.Org -> Fetched<seq<Member>>
  {
    (org: OctoEntities.Org) => MembersWithRole(src, org.login)
  }

  /** The header, then the organizations of the enterprise, each with its
      members fetched and one record written. */
  function MembershipReport(src: Source, enterprise: string): Report
  {
    Headed(MembershipHeader, OctoEnterprise.OrgsOfEnterprise(src, enterprise), MembersOf(src), OrgRows)
  }

  method GenerateMembershipReport(src: Source, enterprise: string) returns (report: Report)
    ensures report == MembershipReport(src, enterprise)
  {
    var rows := [MembershipHeader];
    var orgs := LegacyEnterprise.GetEnterpriseOrgs(src, enterprise);
    var trace := orgs.trace;
    if orgs.result.Failure? {
      return Report(rows, Aborted(orgs.result.error), trace);
    }
    var os := orgs.result.value;
    assert os[0..] == os;
    for i := 0 to |os|
      invariant MembershipReport(src, enterprise)
             == Then(Report(rows, Completed, trace), EachParent(os[i..], MembersOf(src), OrgRows))
    {
      EachParentTurn(rows, trace, os, i, MembersOf(src), OrgRows);
      var got := GetOrgMembersWithRole(src, os[i].login);
      if got.result.Failure? {
        return Report(rows, Aborted(got.result.error), trace + got.trace);
      }
      var admins, members := SplitByRole(got.result.value, IsAdmin, LoginOf);
      rows := rows + [[os[i].login, os[i].id, admins, members]];
      trace := trace + got.trace;
    }
    EachParentEnd(rows, trace, os, MembersOf(src), OrgRows);
    return Report(rows, Completed, trace);
  }

  /** This variant writes exactly the live organization membership report:
      the same rows, the same outcome and the same requests. */
  lemma MembershipReportAgainstLive(src: Source, enterprise: string)
    ensures MembershipReport(src, enterprise) == OctoOrg.OrgMembershipReport(src, enterprise)
  {
    forall org: OctoEntities.Org ensures MembersOf(src)(org) == Mapped(FromLive, OctoOrg.MembersOf(src)(org)) {
      MembersAgainstLive(src, org.login);
    }
    forall org: OctoEntities.Org, ms: seq<OctoEntities.Member>
      ensures OrgRows(org, Map(FromLive, ms)) == OctoOrg.OrgRows(org, ms)
    {
      RowAgainstLive(org, ms);
    }
    var orgs := OctoEnterprise.OrgsOfEnterprise(src, enterprise);
    if orgs.result.Success? {
      EachParentMapped(orgs.result.value, OctoOrg.MembersOf(src), OctoOrg.OrgRows, MembersOf(src), OrgRows, FromLive);
    }
  }

  lemma RowAgainstLive(org: OctoEntities.Org, ms: seq<OctoEntities.Member>)
    ensures OrgRow(org, Map(FromLive, ms)) == OctoOrg.OrgRow(org, ms)
  {
    forall m: OctoEntities.Member ensures IsAdmin(FromLive(m)) == OctoOrg.IsAdmin(m) {
      assert FromLive(m).role == m.role;
    }
    FilterMap(IsAdmin, FromLive, OctoOrg.IsAdmin, ms);
    RejectMap(IsAdmin, FromLive, OctoOrg.IsAdmin, ms);
    MapCompose(FromLive, Separated(LoginOf), Separated(OctoEntities.LoginOf), Filter(OctoOrg.IsAdmin, ms));
    MapCompose(FromLive, Separated(LoginOf), Separated(OctoEntities.LoginOf), Reject(OctoOrg.IsAdmin, ms));
  }
}
