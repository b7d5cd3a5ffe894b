/** pkg/octo-reports/enterprise.go: the organizations and the members of an
    enterprise, and the enterprise membership report. Neither query asks for
    a rateLimit block, so neither fetch backs off. */
module OctoEnterprise {
  import opened Common
  import opened Upstream
  import opened Paging
  import opened Reports
  import opened OctoEntities

  // ---- getEnterpriseOrgs ----

  function OrgOf(node: OrgNode): Org
  {
    Org(node.login, node.id)
  }

  function OrgsFetch(src: Source, enterprise: string): Fetch<Page<OrgNode>, OrgNode, Org>
  {
    Fetch(EnterpriseOrgs(enterprise), src.enterpriseOrgs(enterprise), NoQuotaCheck, WholeReply, Pure(One(OrgOf)))
  }

  /** What getEnterpriseOrgs returns and does. */
  function OrgsOfEnterprise(src: Source, enterprise: string): Fetched<seq<Org>>
  {
    Walk(OrgsFetch(src, enterprise))
  }

  method GetEnterpriseOrgs(src: Source, enterprise: string) returns (fetched: Fetched<seq<Org>>)
    ensures fetched == OrgsOfEnterprise(src, enterprise)
  {
    fetched := Paginate(EnterpriseOrgs(enterprise), src.enterpriseOrgs(enterprise), NoQuotaCheck,
                        WholeReply, One(OrgOf));
  }

  /** When the upstream ends the walk at page `n`, the fetch returns one Org
      per node of pages 0..n, login and id copied, in page-then-node order,
      after exactly n + 1 requests carrying the chained cursors and no
      back-off; a reply it cannot serve before that ends it with that
      reply's error and no organizations. */
  lemma EnterpriseOrgsOutcome(src: Source, enterprise: string)
    ensures forall n: nat :: EndsAt(OrgsFetch(src, enterprise), n) ==>
      ServedBefore(OrgsFetch(src, enterprise), n + 1) &&
      OrgsOfEnterprise(src, enterprise).result == Success(Map(OrgOf, NodesBefore(OrgsFetch(src, enterprise), n + 1))) &&
      |OrgsOfEnterprise(src, enterprise).trace| == n + 1 &&
      forall i :: 0 <= i <= n ==>
        OrgsOfEnterprise(src, enterprise).trace[i] == Request(EnterpriseOrgs(enterprise), CursorAt(OrgsFetch(src, enterprise), i))
    ensures forall k: nat :: Continues(OrgsFetch(src, enterprise), k) && !Served(OrgsFetch(src, enterprise), k) ==>
      OrgsOfEnterprise(src, enterprise).result == Failure(StopError(OrgsFetch(src, enterprise), k))
  {
    var f := OrgsFetch(src, enterprise);
    PureFetch(f, One(OrgOf));
    forall n: nat | EndsAt(f, n)
      ensures ServedBefore(f, n + 1)
      ensures Walk(f).result == Success(Map(OrgOf, NodesBefore(f, n + 1)))
      ensures |Walk(f).trace| == n + 1
      ensures forall i :: 0 <= i <= n ==> Walk(f).trace[i] == Request(f.scope, CursorAt(f, i))
    {
      FlatMapOne(OrgOf, NodesBefore(f, n + 1));
      NoQuotaCheckRequests(f, n + 1);
    }
  }

  // ---- getEnterpriseMembers ----

  /** The code reads the EnterpriseUserAccount fragment's fields. The query
      also selects the same three fields in a User fragment, and the GraphQL
      client decodes each reply field into every fragment that selects it,
      without looking at the node's type: for a plain User, the account
      fragment holds that user's id, login and name. Either way the record
      carries the node's own id, login and name. */
  function MemberOf(node: EnterpriseMemberNode): Member
  {
    match node
    case AccountMember(id, login, name, _) => Member(id, name, login, "")
    case UserMember(id, login, name) => Member(id, name, login, "")
  }

  function MembersFetch(src: Source, enterprise: string): Fetch<Page<EnterpriseMemberNode>, EnterpriseMemberNode, Member>
  {
    Fetch(EnterpriseMembers(enterprise), src.enterpriseMembers(enterprise), NoQuotaCheck, WholeReply, Pure(One(MemberOf)))
  }

  /** What getEnterpriseMembers returns and does. */
  function MembersOfEnterprise(src: Source, enterprise: string): Fetched<seq<Member>>
  {
    Walk(MembersFetch(src, enterprise))
  }

  method GetEnterpriseMembers(src: Source, enterprise: string) returns (fetched: Fetched<seq<Member>>)
    ensures fetched == MembersOfEnterprise(src, enterprise)
  {
    fetched := Paginate(EnterpriseMembers(enterprise), src.enterpriseMembers(enterprise), NoQuotaCheck,
                        WholeReply, One(MemberOf));
  }

  /** When the upstream ends the walk at page `n`, the fetch returns one
      Member per node in page-then-node order, with the node's own login,
      name and id whether it is an account or a plain User, after
      exactly n + 1 requests carrying the chained cursors and no back-off; a
      reply it cannot serve before that ends it with that reply's error and
      no members. */
  lemma EnterpriseMembersOutcome(src: Source, enterprise: string)
    ensures forall n: nat :: EndsAt(MembersFetch(src, enterprise), n) ==>
      ServedBefore(MembersFetch(src, enterprise), n + 1) &&
      MembersOfEnterprise(src, enterprise).result.Success? &&
      |MembersOfEnterprise(src, enterprise).result.value| == |NodesBefore(MembersFetch(src, enterprise), n + 1)| &&
      (forall i :: 0 <= i < |NodesBefore(MembersFetch(src, enterprise), n + 1)| ==>
        var node := NodesBefore(MembersFetch(src, enterprise), n + 1)[i];
        var m := MembersOfEnterprise(src, enterprise).result.value[i];
        m.login == node.login && m.name == node.name && m.id == node.id && m.role == "") &&
      |MembersOfEnterprise(src, enterprise).trace| == n + 1 &&
      forall i :: 0 <= i <= n ==>
        MembersOfEnterprise(src, enterprise).trace[i]
          == Request(EnterpriseMembers(enterprise), CursorAt(MembersFetch(src, enterprise), i))
    ensures forall k: nat :: Continues(MembersFetch(src, enterprise), k) && !Served(MembersFetch(src, enterprise), k) ==>
      MembersOfEnterprise(src, enterprise).result == Failure(StopError(MembersFetch(src, enterprise), k))
  {
    var f := MembersFetch(src, enterprise);
    PureFetch(f, One(MemberOf));
    forall n: nat | EndsAt(f, n)
      ensures ServedBefore(f, n + 1)
      ensures Walk(f).result == Success(Map(MemberOf, NodesBefore(f, n + 1)))
      ensures |Walk(f).trace| == n + 1
      ensures forall i :: 0 <= i <= n ==> Walk(f).trace[i] == Request(f.scope, CursorAt(f, i))
    {
      FlatMapOne(MemberOf, NodesBefore(f, n + 1));
      NoQuotaCheckRequests(f, n + 1);
    }
  }

  // ---- GenerateEnterpriseMembershipReport ----

  const MembershipHeader: Row := ["Login", "Name", "Id"]

  function MemberRow(m: Member): Row
  {
    [m.login, m.name, m.id]
  }

  /** The header is written before the members are fetched; a failed fetch
      leaves it alone in the file. */
  function MembershipReport(src: Source, enterprise: string): Report
  {
    Listed(MembershipHeader, MembersOfEnterprise(src, enterprise), MemberRow)
  }

  method GenerateEnterpriseMembershipReport(src: Source, enterprise: string) returns (report: Report)
    ensures report == MembershipReport(src, enterprise)
  {
    var rows := [MembershipHeader];
    var got := GetEnterpriseMembers(src, enterprise);
    if got.result.Failure? {
      return Report(rows, Aborted(got.result.error), got.trace);
    }
    var members := got.result.value;
    for i := 0 to |members|
      invariant rows == [MembershipHeader] + Map(MemberRow, members[..i])
    {
      MapAppend(MemberRow, members[..i], [members[i]]);
      assert members[..i + 1] == members[..i] + [members[i]];
      rows := rows + [MemberRow(members[i])];
    }
    assert members[..|members|] == members;
    return Report(rows, Completed, got.trace);
  }

  /** The report starts with the header and, when the fetch fails, holds
      nothing else; when the upstream ends the walk, it runs to the end with
      one three-field row per fetched member, in fetched order. */
  lemma MembershipReportRows(src: Source, enterprise: string)
    ensures MembershipReport(src, enterprise).rows[0] == ["Login", "Name", "Id"]
    ensures MembershipReport(src, enterprise).status.Aborted? ==>
              MembershipReport(src, enterprise).rows == [MembershipHeader]
    ensures forall n: nat :: EndsAt(MembersFetch(src, enterprise), n) ==>
      ServedBefore(MembersFetch(src, enterprise), n + 1) &&
      MembershipReport(src, enterprise).status == Completed &&
      MembershipReport(src, enterprise).rows
        == [MembershipHeader] + Map(MemberRow, Map(MemberOf, NodesBefore(MembersFetch(src, enterprise), n + 1)))
  {
    var f := MembersFetch(src, enterprise);
    PureFetch(f, One(MemberOf));
    forall n: nat | EndsAt(f, n)
      ensures ServedBefore(f, n + 1)
      ensures MembershipReport(src, enterprise).status == Completed
      ensures MembershipReport(src, enterprise).rows
           == [MembershipHeader] + Map(MemberRow, Map(MemberOf, NodesBefore(f, n + 1)))
    {
      FlatMapOne(MemberOf, NodesBefore(f, n + 1));
    }
  }
}
