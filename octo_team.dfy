/** pkg/octo-reports/team.go: the teams of an organization, each with its
    members, and the team report of an enterprise. Both queries ask for a
    rateLimit block; after a page that leaves fewer than 100 points the
    fetch sleeps one minute. */
module OctoTeam {
  import opened Common
  import opened Upstream
  import opened Paging
  import opened Reports
  import opened OctoEntities
  import opened OctoEnterprise

  // ---- getTeamMembers ----

  /** Only the login is read. */
  function MemberOfLogin(login: string): Member
  {
    Member("", "", login, "")
  }

  /** The members connection sits in the first team the slug query matches. */
  function TeamMembersFetch(src: Source, org: string, slug: string): Fetch<seq<Page<string>>, string, Member>
  {
    Fetch(TeamMembers(org, slug), src.teamMembers(org, slug), OneMinuteSleep, FirstTeam(org, slug),
          Pure(One(MemberOfLogin)))
  }

  /** What getTeamMembers returns and does. */
  function TeamMembersOf(src: Source, org: string, slug: string): Fetched<seq<Member>>
  {
    Walk(TeamMembersFetch(src, org, slug))
  }

  method GetTeamMembers(src: Source, org: string, slug: string) returns (fetched: Fetched<seq<Member>>)
    ensures fetched == TeamMembersOf(src, org, slug)
  {
    fetched := Paginate(TeamMembers(org, slug), src.teamMembers(org, slug), OneMinuteSleep,
                        FirstTeam(org, slug), One(MemberOfLogin));
  }

  /** When the upstream ends the walk at page `n`, the fetch returns one
      Member per login of pages 0..n, in order, with only the login set; its
      events are, for each page, the request carrying the chained cursor and
      then a one-minute sleep exactly when fewer than 100 points remain. A
      reply it cannot serve ends it with that reply's error; in particular a
      reply in which no team matched the slug ends it with TeamNotFound. */
  lemma TeamMembersOutcome(src: Source, org: string, slug: string)
    ensures forall n: nat :: EndsAt(TeamMembersFetch(src, org, slug), n) ==>
      ServedBefore(TeamMembersFetch(src, org, slug), n + 1) &&
      TeamMembersOf(src, org, slug).result
        == Success(Map(MemberOfLogin, NodesBefore(TeamMembersFetch(src, org, slug), n + 1))) &&
      TeamMembersOf(src, org, slug).trace == RequestsBefore(TeamMembersFetch(src, org, slug), n + 1) &&
      forall i :: 0 <= i <= n ==>
        PageEvents(TeamMembersFetch(src, org, slug), i)
          == [Request(TeamMembers(org, slug), CursorAt(TeamMembersFetch(src, org, slug), i))] +
             (if src.teamMembers(org, slug)[i].quota.remaining < QuotaThreshold
              then [Sleep(TeamMembers(org, slug), 60)] else [])
    ensures forall k: nat :: Continues(TeamMembersFetch(src, org, slug), k) && !Served(TeamMembersFetch(src, org, slug), k) ==>
      TeamMembersOf(src, org, slug).result == Failure(StopError(TeamMembersFetch(src, org, slug), k))
    ensures forall k: nat ::
      (Continues(TeamMembersFetch(src, org, slug), k) &&
       k < |src.teamMembers(org, slug)| && src.teamMembers(org, slug)[k].Answered? &&
       src.teamMembers(org, slug)[k].data == []) ==>
        TeamMembersOf(src, org, slug).result == Failure(TeamNotFound(org, slug))
  {
    var f := TeamMembersFetch(src, org, slug);
    PureFetch(f, One(MemberOfLogin));
    forall n: nat | EndsAt(f, n)
      ensures ServedBefore(f, n + 1)
      ensures Walk(f).result == Success(Map(MemberOfLogin, NodesBefore(f, n + 1)))
    {
      FlatMapOne(MemberOfLogin, NodesBefore(f, n + 1));
    }
  }

  // ---- getOrgTeams ----

  /** team.go's Team record of a team node and its members; the role is
      left empty. */
  function TeamOf(node: TeamNode, members: seq<Member>): Team
  {
    Team(node.id, node.name, node.slug, node.description, "", members)
  }

  /** The work on one team node: fetch the team's members (a failure ends
      the whole fetch), then record the team. */
  function WithMembers(src: Source, org: string): TeamNode -> Fetched<seq<Team>>
  {
    (node: TeamNode) =>
      var members := TeamMembersOf(src, org, node.slug);
      Fetched(if members.result.Success? then Success([TeamOf(node, members.result.value)])
              else Failure(members.result.error),
              members.trace)
  }

  function TeamsFetch(src: Source, org: string): Fetch<Page<TeamNode>, TeamNode, Team>
  {
    Fetch(OrgTeams(org), src.orgTeams(org), OneMinuteSleep, WholeReply, WithMembers(src, org))
  }

  /** What getOrgTeams returns and does. */
  function OrgTeamsOf(src: Source, org: string): Fetched<seq<Team>>
  {
    Walk(TeamsFetch(src, org))
  }

  method GetOrgTeams(src: Source, org: string) returns (fetched: Fetched<seq<Team>>)
    ensures fetched == OrgTeamsOf(src, org)
  {
    ghost var f := TeamsFetch(src, org);
    var teams: seq<Team> := [];
    var trace: seq<Event> := [];
    var cursor: Option<Cursor> := None;
    var k := 0;
    AndThenUnit(Walk(f));
    while true
      invariant k <= |src.orgTeams(org)|
      invariant Walk(f) == AndThen(Done(teams, trace), WalkFrom(f, k, cursor))
      decreases |src.orgTeams(org)| - k
    {
      var located, events := Receive(f, OrgTeams(org), src.orgTeams(org), OneMinuteSleep, WholeReply, k, cursor);
      if located.Failure? {
        return Fetched(Failure(located.error), trace + events);
      }
      var page := located.value;
      EnterPage(f, k, cursor, teams, trace);
      assert f.process == WithMembers(src, org);
      var done := ProcessTeamPage(src, org, page.nodes, teams, trace + events);
      if done.result.Failure? {
        return done;
      }
      teams, trace := done.result.value, done.trace;
      if !page.hasNextPage {
        AndThenUnitRight(Done(teams, trace));
        return Done(teams, trace);
      }
      cursor := Some(page.endCursor);
      k := k + 1;
    }
  }

  /** The node loop of one page: for each team node in turn, after the
      teams and events so far, fetch the team's members (a failure ends the
      whole fetch), then record the team. */
  method ProcessTeamPage(src: Source, org: string, nodes: seq<TeamNode>, teams: seq<Team>, trace: seq<Event>)
    returns (done: Fetched<seq<Team>>)
    ensures done == AndThen(Done(teams, trace), ProcessNodes(nodes, WithMembers(src, org)))
  {
    var items, events := teams, trace;
    var i := 0;
    assert nodes[0..] == nodes;
    while i < |nodes|
      invariant i <= |nodes|
      invariant AndThen(Done(teams, trace), ProcessNodes(nodes, WithMembers(src, org)))
             == AndThen(Done(items, events), ProcessNodes(nodes[i..], WithMembers(src, org)))
    {
      NodeStepOn(items, events, nodes, i, WithMembers(src, org));
      var node := nodes[i];
      var members := GetTeamMembers(src, org, node.slug);
      if members.result.Failure? {
        return Fetched(Failure(members.result.error), events + members.trace);
      }
      items, events := items + [TeamOf(node, members.result.value)], events + members.trace;
      i := i + 1;
    }
    assert nodes[i..] == [];
    AndThenUnitRight(Done(items, events));
    return Done(items, events);
  }

  /** The members fetches of the teams happen in their own scopes. */
  lemma MembersAvoidTeams(src: Source, org: string)
    ensures forall node :: Avoids(WithMembers(src, org)(node).trace, OrgTeams(org))
  {
    forall node: TeamNode ensures Avoids(WithMembers(src, org)(node).trace, OrgTeams(org)) {
      WalkAvoids(TeamMembersFetch(src, org, node.slug), OrgTeams(org));
    }
  }

  /** When the upstream ends the teams walk at page `n`, the fetch succeeds
      exactly when the members fetch of every team node of pages 0..n does,
      and then returns one Team per node, in page-then-node order, carrying
      the node's id, name, slug and description and that team's members; the
      requests and sleeps in the teams scope are exactly one request per page
      with the chained cursors, each followed by a one-minute sleep exactly
      when fewer than 100 points remain. */
  lemma OrgTeamsOutcome(src: Source, org: string)
    ensures forall n: nat :: EndsAt(TeamsFetch(src, org), n) ==>
      ServedBefore(TeamsFetch(src, org), n + 1) &&
      (OrgTeamsOf(src, org).result.Success? <==>
        forall i :: 0 <= i < |NodesThrough(TeamsFetch(src, org), n)| ==>
          TeamMembersOf(src, org, NodesThrough(TeamsFetch(src, org), n)[i].slug).result.Success?) &&
      (OrgTeamsOf(src, org).result.Success? ==>
        |OrgTeamsOf(src, org).result.value| == |NodesThrough(TeamsFetch(src, org), n)| &&
        (forall i :: 0 <= i < |NodesThrough(TeamsFetch(src, org), n)| ==>
          OrgTeamsOf(src, org).result.value[i]
            == TeamOf(NodesThrough(TeamsFetch(src, org), n)[i],
                      TeamMembersOf(src, org, NodesThrough(TeamsFetch(src, org), n)[i].slug).result.value)) &&
        Own(OrgTeamsOf(src, org).trace, OrgTeams(org)) == RequestsBefore(TeamsFetch(src, org), n + 1)) &&
      forall i :: 0 <= i <= n ==>
        PageEvents(TeamsFetch(src, org), i)
          == [Request(OrgTeams(org), CursorAt(TeamsFetch(src, org), i))] +
             (if src.orgTeams(org)[i].quota.remaining < QuotaThreshold then [Sleep(OrgTeams(org), 60)] else [])
  {
    var f := TeamsFetch(src, org);
    MembersAvoidTeams(src, org);
    forall n: nat | EndsAt(f, n)
      ensures ServedBefore(f, n + 1)
      ensures Walk(f).result.Success? <==>
        forall i :: 0 <= i < |NodesThrough(f, n)| ==> TeamMembersOf(src, org, NodesThrough(f, n)[i].slug).result.Success?
      ensures Walk(f).result.Success? ==>
        |Walk(f).result.value| == |NodesThrough(f, n)| &&
        (forall i :: 0 <= i < |NodesThrough(f, n)| ==>
          Walk(f).result.value[i]
            == TeamOf(NodesThrough(f, n)[i], TeamMembersOf(src, org, NodesThrough(f, n)[i].slug).result.value)) &&
        Own(Walk(f).trace, OrgTeams(org)) == RequestsBefore(f, n + 1)
    {
      FanOutResult(f, n);
      var nodes := NodesThrough(f, n);
      if Walk(f).result.Success? {
        var h := (node: TeamNode) =>
          var m := TeamMembersOf(src, org, node.slug);
          TeamOf(node, if m.result.Success? then m.result.value else []);
        FlatMapSingletons(Yield(f.process), h, nodes);
        FanOutOwnTrace(f, n);
      }
    }
  }

  /** The members fetch of every team node in `nodes` succeeded. */
  predicate MembersFetched(src: Source, org: string, nodes: seq<TeamNode>)
  {
    forall i :: 0 <= i < |nodes| ==> TeamMembersOf(src, org, nodes[i].slug).result.Success?
  }

  /** A teams reply the fetch cannot serve makes it fail, with that
      reply's error when the members fetches of the teams before it succeeded. */
  lemma OrgTeamsStopsAt(src: Source, org: string)
    ensures forall k: nat :: Continues(TeamsFetch(src, org), k) && !Served(TeamsFetch(src, org), k) ==>
      OrgTeamsOf(src, org).result.Failure? &&
      (MembersFetched(src, org, NodesBefore(TeamsFetch(src, org), k)) ==>
        OrgTeamsOf(src, org).result == Failure(StopError(TeamsFetch(src, org), k)))
  {
    var f := TeamsFetch(src, org);
    forall k: nat | Continues(f, k) && !Served(f, k)
      ensures Walk(f).result.Failure?
      ensures MembersFetched(src, org, NodesBefore(f, k)) ==> Walk(f).result == Failure(StopError(f, k))
    {
      FanOutStopsAt(f, k);
      var nodes := NodesBefore(f, k);
      if MembersFetched(src, org, nodes) {
        forall i | 0 <= i < |nodes| ensures f.process(nodes[i]).result.Success? {
          assert TeamMembersOf(src, org, nodes[i].slug).result.Success?;
        }
      }
    }
  }

  // ---- GenerateTeamReport ----

  const TeamHeader: Row := ["id", "organization", "name", "slug", "description", "members"]

  /** The record of one team: the members column is the `%v` text of the
      members' logins. */
  function TeamRow(org: Org, team: Team): Row
  {
    [team.id, org.login, team.name, team.slug, team.description, Bracketed(Map(LoginOf, team.members))]
  }

  function TeamRowOf(org: Org): Team -> Row
  {
    (team: Team) => TeamRow(org, team)
  }

  function TeamRows(org: Org, teams: seq<Team>): seq<Row>
  {
    Map(TeamRowOf(org), teams)
  }

  function TeamsOf(src: Source): Org -> Fetched<seq<Team>>
  {
    (org: Org) => OrgTeamsOf(src, org.login)
  }

  /** The header, then, for each organization of the enterprise, one record
      per team. */
  function TeamReport(src: Source, enterprise: string): Report
  {
    Headed(TeamHeader, OrgsOfEnterprise(src, enterprise), TeamsOf(src), TeamRows)
  }

  method GenerateTeamReport(src: Source, enterprise: string) returns (report: Report)
    ensures report == TeamReport(src, enterprise)
  {
    var rows := [TeamHeader];
    var orgs := GetEnterpriseOrgs(src, enterprise);
    var trace := orgs.trace;
    if orgs.result.Failure? {
      return Report(rows, Aborted(orgs.result.error), trace);
    }
    var os := orgs.result.value;
    assert os[0..] == os;
    for i := 0 to |os|
      invariant TeamReport(src, enterprise)
             == Then(Report(rows, Completed, trace), EachParent(os[i..], TeamsOf(src), TeamRows))
    {
      EachParentTurn(rows, trace, os, i, TeamsOf(src), TeamRows);
      var got := GetOrgTeams(src, os[i].login);
      if got.result.Failure? {
        return Report(rows, Aborted(got.result.error), trace + got.trace);
      }
      var written := WriteTeams(os[i], got.result.value);
      rows := rows + written;
      trace := trace + got.trace;
    }
    EachParentEnd(rows, trace, os, TeamsOf(src), TeamRows);
    return Report(rows, Completed, trace);
  }

  /** The records of one organization's teams, in order. */
  method WriteTeams(org: Org, teams: seq<Team>) returns (rows: seq<Row>)
    ensures rows == TeamRows(org, teams)
  {
    rows := [];
    for j := 0 to |teams|
      invariant |rows| == j
      invariant forall k :: 0 <= k < j ==> rows[k] == TeamRow(org, teams[k])
    {
      var members := Collect(LoginOf, teams[j].members);
      var row := [teams[j].id, org.login, teams[j].name, teams[j].slug, teams[j].description, Bracketed(members)];
      assert row == TeamRow(org, teams[j]);
      rows := rows + [row];
    }
    assert forall k :: 0 <= k < |teams| ==> TeamRows(org, teams)[k] == TeamRow(org, teams[k]);
  }

  /** The report starts with the six-column header and every row has six
      fields. It runs to the end exactly when the organizations and every
      organization's teams (with their members) are fetched, and then holds,
      organization after organization, one record per team of that
      organization in fetched order. */
  lemma TeamReportRows(src: Source, enterprise: string)
    ensures TeamReport(src, enterprise).rows[0] == ["id", "organization", "name", "slug", "description", "members"]
    ensures forall row :: row in TeamReport(src, enterprise).rows ==> |row| == 6
    ensures TeamReport(src, enterprise).status == Completed <==>
      OrgsOfEnterprise(src, enterprise).result.Success? &&
      forall i :: 0 <= i < |OrgsOfEnterprise(src, enterprise).result.value| ==>
        OrgTeamsOf(src, OrgsOfEnterprise(src, enterprise).result.value[i].login).result.Success?
    ensures TeamReport(src, enterprise).status == Completed ==>
      TeamReport(src, enterprise).rows
        == [TeamHeader] + FlatMap(ParentRows(TeamsOf(src), TeamRows), OrgsOfEnterprise(src, enterprise).result.value)
  {
    var got := OrgsOfEnterprise(src, enterprise);
    TeamRowsWidth();
    HeadedOutcome(TeamHeader, got, TeamsOf(src), TeamRows);
    if got.result.Success? {
      var os := got.result.value;
      forall i | 0 <= i < |os| ensures TeamsOf(src)(os[i]) == OrgTeamsOf(src, os[i].login) { }
    }
  }

  lemma TeamRowsWidth()
    ensures forall o, teams, i :: 0 <= i < |TeamRows(o, teams)| ==> |TeamRows(o, teams)[i]| == |TeamHeader|
  {
    forall o, teams, i | 0 <= i < |TeamRows(o, teams)| ensures |TeamRows(o, teams)[i]| == |TeamHeader| {
      assert TeamRows(o, teams)[i] == TeamRow(o, teams[i]);
    }
  }

  /** The members column reads back as the team's logins, in order, when no
      login is empty or holds a space (as GitHub logins never do). */
  lemma MembersColumnRoundTrip(org: Org, team: Team)
    requires forall i :: 0 <= i < |team.members| ==> team.members[i].login != "" && ' ' !in team.members[i].login
    ensures Unbracket(TeamRow(org, team)[5]) == Some(Map(LoginOf, team.members))
  {
    var logins := Map(LoginOf, team.members);
    forall x | x in logins ensures ' ' !in x {
      var i :| 0 <= i < |logins| && logins[i] == x;
    }
    if |logins| == 1 {
      assert logins[0] == team.members[0].login;
    }
    BracketedRoundTrip(logins);
  }
}
