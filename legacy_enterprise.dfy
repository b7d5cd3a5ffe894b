/** pkg/enterprise/enterprise.go, the earlier variant of the enterprise
    fetchers and report. Each call builds its own client from a token (a
    parameter the model does not need); neither query asks for a rateLimit
    block. Its Org type has the live one's two fields and is modelled by it. */
module LegacyEnterprise {
  import opened Common
  import opened Upstream
  import opened Paging
  import opened Reports
  import OctoEntities
  import OctoEnterprise

  /** enterprise.go's Member: id, name, login. */
  datatype Member = Member(id: string, name: string, login: string)

  // ---- GetEnterpriseOrgs ----

  /** The same query and loop as the live getEnterpriseOrgs: the result is
      the live fetch's. */
  method GetEnterpriseOrgs(src: Source, enterprise: string) returns (fetched: Fetched<seq<OctoEntities.Org>>)
    ensures fetched == OctoEnterprise.OrgsOfEnterprise(src, enterprise)
  {
    fetched := Paginate(EnterpriseOrgs(enterprise), src.enterpriseOrgs(enterprise), NoQuotaCheck,
                        WholeReply, One(OctoEnterprise.OrgOf));
  }

  // ---- getEnterpriseMembers ----

  /** The EnterpriseUserAccount fragment is read, with the name of its User;
      a member that is a plain User yields an empty record. */
  function MemberOf(node: EnterpriseMemberNode): Member
  {
    match node
    case AccountMember(id, login, _, userName) => Member(id, userName, login)
    case UserMember(_, _, _) => Member("", "", "")
  }

  function MembersFetch(src: Source, enterprise: string): Fetch<Page<EnterpriseMemberNode>, EnterpriseMemberNode, Member>
  {
    Fetch(EnterpriseMembers(enterprise), src.enterpriseMembers(enterprise), NoQuotaCheck, WholeReply, Pure(One(MemberOf)))
  }

  /** What getEnterpriseMembers returns and does. */
  function MembersOfEnterprise(src: Source, enterprise: string): Fetched<seq<Member>>
  {
    Walk(MembersFetch(src, enterprise))
  }

  method GetEnterpriseMembers(src: Source, enterprise: string) returns (fetched: Fetched<seq<Member>>)
    ensures fetched == MembersOfEnterprise(src, enterprise)
  {
    fetched := Paginate(EnterpriseMembers(enterprise), src.enterpriseMembers(enterprise), NoQuotaCheck,
                        WholeReply, One(MemberOf));
  }

  /** When the upstream ends the walk at page `n`, the fetch returns one
      Member per node in page-then-node order, with the account's id and
      login and its user's name (all empty for a plain User), after exactly
      n + 1 requests carrying the chained cursors and no back-off; a reply
      it cannot serve before that ends it with that reply's error. */
  lemma EnterpriseMembersOutcome(src: Source, enterprise: string)
    ensures forall n: nat :: EndsAt(MembersFetch(src, enterprise), n) ==>
      ServedBefore(MembersFetch(src, enterprise), n + 1) &&
      MembersOfEnterprise(src, enterprise).result.Success? &&
      |MembersOfEnterprise(src, enterprise).result.value| == |NodesBefore(MembersFetch(src, enterprise), n + 1)| &&
      (forall i :: 0 <= i < |NodesBefore(MembersFetch(src, enterprise), n + 1)| ==>
        var node := NodesBefore(MembersFetch(src, enterprise), n + 1)[i];
        var m := MembersOfEnterprise(src, enterprise).result.value[i];
        if node.AccountMember? then m == Member(node.id, node.userName, node.login)
        else m == Member("", "", "")) &&
      |MembersOfEnterprise(src, enterprise).trace| == n + 1 &&
      forall i :: 0 <= i <= n ==>
        MembersOfEnterprise(src, enterprise).trace[i]
          == Request(EnterpriseMembers(enterprise), CursorAt(MembersFetch(src, enterprise), i))
    ensures forall k: nat :: Continues(MembersFetch(src, enterprise), k) && !Served(MembersFetch(src, enterprise), k) ==>
      MembersOfEnterprise(src, enterprise).result == Failure(StopError(MembersFetch(src, enterprise), k))
  {
    var f := MembersFetch(src, enterprise);
    PureFetch(f, One(MemberOf));
    forall n: nat | EndsAt(f, n)
      ensures ServedBefore(f, n + 1)
      ensures Walk(f).result == Success(Map(MemberOf, NodesBefore(f, n + 1)))
      ensures |Walk(f).trace| == n + 1
      ensures forall i :: 0 <= i <= n ==> Walk(f).trace[i] == Request(f.scope, CursorAt(f, i))
    {
      FlatMapOne(MemberOf, NodesBefore(f, n + 1));
      NoQuotaCheckRequests(f, n + 1);
    }
  }

  // ---- GenerateEnterpriseMembershipReport ----

  const MembershipHeader: Row := ["Login", "Name", "Id"]

  function MemberRow(m: Member): Row
  {
    [m.login, m.name, m.id]
  }

  /** The header is written before the members are fetched; a failed fetch
      leaves it alone in the file. */
  function MembershipReport(src: Source, enterprise: string): Report
  {
    Listed(MembershipHeader, MembersOfEnterprise(src, enterprise), MemberRow)
  }

  method GenerateEnterpriseMembershipReport(src: Source, enterprise: string) returns (report: Report)
    ensures report == MembershipReport(src, enterprise)
  {
    var rows := [MembershipHeader];
    var got := GetEnterpriseMembers(src, enterprise);
    if got.result.Failure? {
      return Report(rows, Aborted(got.result.error), got.trace);
    }
    var members := got.result.value;
    for i := 0 to |members|
      invariant rows == [MembershipHeader] + Map(MemberRow, members[..i])
    {
      MapAppend(MemberRow, members[..i], [members[i]]);
      assert members[..i + 1] == members[..i] + [members[i]];
      rows := rows + [MemberRow(members[i])];
    }
    assert members[..|members|] == members;
    return Report(rows, Completed, got.trace);
  }

  /** The report starts with the header and, when the fetch fails, holds
      nothing else; when the upstream ends the walk, it runs to the end with
      one three-field row per fetched member, in fetched order. */
  lemma MembershipReportRows(src: Source, enterprise: string)
    ensures MembershipReport(src, enterprise).rows[0] == ["Login", "Name", "Id"]
    ensures MembershipReport(src, enterprise).status.Aborted? ==>
              MembershipReport(src, enterprise).rows == [MembershipHeader]
    ensures forall n: nat :: EndsAt(MembersFetch(src, enterprise), n) ==>
      ServedBefore(MembersFetch(src, enterprise), n + 1) &&
      MembershipReport(src, enterprise).status == Completed &&
      MembershipReport(src, enterprise).rows
        == [MembershipHeader] + Map(MemberRow, Map(MemberOf, NodesBefore(MembersFetch(src, enterprise), n + 1)))
  {
    var f := MembersFetch(src, enterprise);
    PureFetch(f, One(MemberOf));
    forall n: nat | EndsAt(f, n)
      ensures ServedBefore(f, n + 1)
      ensures MembershipReport(src, enterprise).status == Completed
      ensures MembershipReport(src, enterprise).rows
           == [MembershipHeader] + Map(MemberRow, Map(MemberOf, NodesBefore(f, n + 1)))
    {
      FlatMapOne(MemberOf, NodesBefore(f, n + 1));
    }
  }

  /** For an enterprise user account the two variants write the same login
      and id and differ only in the name: this one writes the name of the
      account's user, the live one the account's own name. For a plain User
      this variant, whose query has no User fragment, writes three empty
      fields where the live one writes the user's login, name and id. */
  lemma RowAgainstLive(node: EnterpriseMemberNode)
    ensures node.AccountMember? ==>
      MemberRow(MemberOf(node))[0] == OctoEnterprise.MemberRow(OctoEnterprise.MemberOf(node))[0] == node.login &&
      MemberRow(MemberOf(node))[2] == OctoEnterprise.MemberRow(OctoEnterprise.MemberOf(node))[2] == node.id &&
      MemberRow(MemberOf(node))[1] == node.userName &&
      OctoEnterprise.MemberRow(OctoEnterprise.MemberOf(node))[1] == node.name
    ensures node.UserMember? ==>
      MemberRow(MemberOf(node)) == ["", "", ""] &&
      OctoEnterprise.MemberRow(OctoEnterprise.MemberOf(node)) == [node.login, node.name, node.id]
  {
  }
}
