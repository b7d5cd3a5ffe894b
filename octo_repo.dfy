/** pkg/octo-reports/repo.go: the repositories of an organization (each,
    on request, with the teams that have a role on it), the teams with a
    role on one repository, the collaborators of a repository, and the
    repository and collaborator reports. Every query asks for a rateLimit
    block; after a page that leaves fewer than 100 points the fetch waits
    until the quota resets. */
module OctoRepo {
  import opened Common
  import opened Upstream
  import opened Paging
  import opened Reports
  import opened OctoEntities
  import opened OctoEnterprise

  // ---- getTeamsRoleForRepo ----

  /** The repositories connection of a team node is filtered by the
      repository name and holds at most one edge. */
  function HasEdge(node: TeamRepoNode): bool
  {
    |node.edges| > 0
  }

  /** The per-node work: a team with an edge is recorded with its slug as
      the name and the edge's permission as the role; a team without an
      edge contributes nothing. */
  function TeamRole(node: TeamRepoNode): seq<Team>
  {
    if |node.edges| > 0 then [Team("", node.slug, "", "", node.edges[0].permission, [])] else []
  }

  /** The one Team the per-node work records for a team with an edge. */
  function RoleOf(node: TeamRepoNode): Team
  {
    if HasEdge(node) then TeamRole(node)[0] else Team("", node.slug, "", "", "", [])
  }

  function TeamsFetch(src: Source, org: string, repo: string): Fetch<Page<TeamRepoNode>, TeamRepoNode, Team>
  {
    Fetch(RepoTeams(org, repo), src.repoTeams(org, repo), UntilReset, WholeReply, Pure(TeamRole))
  }

  /** What getTeamsRoleForRepo returns and does. */
  function TeamsRoleForRepo(src: Source, org: string, repo: string): Fetched<seq<Team>>
  {
    Walk(TeamsFetch(src, org, repo))
  }

  method GetTeamsRoleForRepo(src: Source, org: string, repo: string) returns (fetched: Fetched<seq<Team>>)
    ensures fetched == TeamsRoleForRepo(src, org, repo)
  {
    fetched := Paginate(RepoTeams(org, repo), src.repoTeams(org, repo), UntilReset, WholeReply, TeamRole);
  }

  /** When the upstream ends the walk at page `n`, the fetch returns, in
      page-then-node order, one Team for each team node of pages 0..n that
      has an edge for the repository and none for the others, named by the
      node's slug with the edge's permission as its role; its events are,
      for each page, the request with the chained cursor followed by a wait
      until the quota's reset time exactly when fewer than 100 points remain.
      A reply it cannot serve ends it with that reply's error. */
  lemma TeamsRoleOutcome(src: Source, org: string, repo: string)
    ensures forall n: nat :: EndsAt(TeamsFetch(src, org, repo), n) ==>
      ServedBefore(TeamsFetch(src, org, repo), n + 1) &&
      TeamsRoleForRepo(src, org, repo).result
        == Success(Map(RoleOf, Filter(HasEdge, NodesBefore(TeamsFetch(src, org, repo), n + 1)))) &&
      TeamsRoleForRepo(src, org, repo).trace == RequestsBefore(TeamsFetch(src, org, repo), n + 1) &&
      forall i :: 0 <= i <= n ==>
        PageEvents(TeamsFetch(src, org, repo), i)
          == [Request(RepoTeams(org, repo), CursorAt(TeamsFetch(src, org, repo), i))] +
             (if src.repoTeams(org, repo)[i].quota.remaining < QuotaThreshold
              then [WaitUntil(RepoTeams(org, repo), src.repoTeams(org, repo)[i].quota.resetAt)] else [])
    ensures forall k: nat :: Continues(TeamsFetch(src, org, repo), k) && !Served(TeamsFetch(src, org, repo), k) ==>
      TeamsRoleForRepo(src, org, repo).result == Failure(StopError(TeamsFetch(src, org, repo), k))
  {
    var f := TeamsFetch(src, org, repo);
    PureFetch(f, TeamRole);
    forall n: nat | EndsAt(f, n)
      ensures ServedBefore(f, n + 1)
      ensures Walk(f).result == Success(Map(RoleOf, Filter(HasEdge, NodesBefore(f, n + 1))))
    {
      FlatMapFilter(TeamRole, HasEdge, RoleOf, NodesBefore(f, n + 1));
    }
  }

  /** A node's team is kept exactly when it has an edge, and what is kept
      is named by its slug and carries its first edge's permission. */
  lemma TeamRoleKeepsEdged(node: TeamRepoNode)
    ensures TeamRole(node) != [] <==> HasEdge(node)
    ensures HasEdge(node) ==>
      TeamRole(node) == [RoleOf(node)] &&
      RoleOf(node).name == node.slug && RoleOf(node).role == node.edges[0].permission
  {
  }

  // ---- getOrgRepos ----

  function TopicName(t: Topic): string
  {
    t.name
  }

  /** repo.go's Repo record of a repository node: its topics' names in
      order, the owner's login, and the teams given. */
  function RepoOf(node: RepoNode, teams: seq<Team>): Repo
  {
    Repo(node.name, node.visibility, node.isArchived, node.isFork, node.id, node.pushedAt, node.createdAt,
         node.ownerLogin, Map(TopicName, node.topics), teams)
  }

  /** The work on one repository node: with `getTeams`, fetch the teams with
      a role on it (a failure ends the whole fetch); without, record it with
      no teams and no request. */
  function WithTeams(src: Source, org: string, getTeams: bool): RepoNode -> Fetched<seq<Repo>>
  {
    (node: RepoNode) =>
      if getTeams then
        var teams := TeamsRoleForRepo(src, org, node.name);
        Fetched(if teams.result.Success? then Success([RepoOf(node, teams.result.value)])
                else Failure(teams.result.error),
                teams.trace)
      else Done([RepoOf(node, [])], [])
  }

  function ReposFetch(src: Source, org: string, getTeams: bool): Fetch<Page<RepoNode>, RepoNode, Repo>
  {
    Fetch(OrgRepos(org), src.orgRepos(org), UntilReset, WholeReply, WithTeams(src, org, getTeams))
  }

  /** What getOrgRepos returns and does. */
  function OrgReposOf(src: Source, org: string, getTeams: bool): Fetched<seq<Repo>>
  {
    Walk(ReposFetch(src, org, getTeams))
  }

  method GetOrgRepos(src: Source, org: string, getTeams: bool) returns (fetched: Fetched<seq<Repo>>)
    ensures fetched == OrgReposOf(src, org, getTeams)
  {
    ghost var f := ReposFetch(src, org, getTeams);
    var repos: seq<Repo> := [];
    var trace: seq<Event> := [];
    var cursor: Option<Cursor> := None;
    var k := 0;
    AndThenUnit(Walk(f));
    while true
      invariant k <= |src.orgRepos(org)|
      invariant Walk(f) == AndThen(Done(repos, trace), WalkFrom(f, k, cursor))
      decreases |src.orgRepos(org)| - k
    {
      var located, events := Receive(f, OrgRepos(org), src.orgRepos(org), UntilReset, WholeReply, k, cursor);
      if located.Failure? {
        return Fetched(Failure(located.error), trace + events);
      }
      var page := located.value;
      EnterPage(f, k, cursor, repos, trace);
      assert f.process == WithTeams(src, org, getTeams);
      var done := ProcessRepoPage(src, org, getTeams, page.nodes, repos, trace + events);
      if done.result.Failure? {
        return done;
      }
      repos, trace := done.result.value, done.trace;
      if !page.hasNextPage {
        AndThenUnitRight(Done(repos, trace));
        return Done(repos, trace);
      }
      cursor := Some(page.endCursor);
      k := k + 1;
    }
  }

  /** The node loop of one page: each repository node in turn, after the
      repositories and events so far, until the first failure. */
  method ProcessRepoPage(src: Source, org: string, getTeams: bool, nodes: seq<RepoNode>,
                         repos: seq<Repo>, trace: seq<Event>)
    returns (done: Fetched<seq<Repo>>)
    ensures done == AndThen(Done(repos, trace), ProcessNodes(nodes, WithTeams(src, org, getTeams)))
  {
    var items, events := repos, trace;
    var i := 0;
    assert nodes[0..] == nodes;
    while i < |nodes|
      invariant i <= |nodes|
      invariant AndThen(Done(repos, trace), ProcessNodes(nodes, WithTeams(src, org, getTeams)))
             == AndThen(Done(items, events), ProcessNodes(nodes[i..], WithTeams(src, org, getTeams)))
    {
      NodeStepOn(items, events, nodes, i, WithTeams(src, org, getTeams));
      var one := ProcessRepoNode(src, org, getTeams, nodes[i]);
      if one.result.Failure? {
        return Fetched(one.result, events + one.trace);
      }
      items, events := items + one.result.value, events + one.trace;
      i := i + 1;
    }
    assert nodes[i..] == [];
    AndThenUnitRight(Done(items, events));
    return Done(items, events);
  }

  /** The body of the node loop: with `getTeams`, fetch the repository's
      teams (a failure ends the whole fetch); then collect the topic names
      and record the repository. */
  method ProcessRepoNode(src: Source, org: string, getTeams: bool, node: RepoNode)
    returns (done: Fetched<seq<Repo>>)
    ensures done == WithTeams(src, org, getTeams)(node)
  {
    if getTeams {
      var teams := GetTeamsRoleForRepo(src, org, node.name);
      if teams.result.Failure? {
        return Fetched(Failure(teams.result.error), teams.trace);
      }
      var topics := Collect(TopicName, node.topics);
      return Fetched(Success([Repo(node.name, node.visibility, node.isArchived, node.isFork, node.id,
                                   node.pushedAt, node.createdAt, node.ownerLogin, topics, teams.result.value)]),
                     teams.trace);
    }
    var topics := Collect(TopicName, node.topics);
    return Done([Repo(node.name, node.visibility, node.isArchived, node.isFork, node.id,
                      node.pushedAt, node.createdAt, node.ownerLogin, topics, [])], []);
  }

  /** The teams fetches of the repositories happen in their own scopes. */
  lemma TeamsAvoidRepos(src: Source, org: string, getTeams: bool)
    ensures forall node :: Avoids(WithTeams(src, org, getTeams)(node).trace, OrgRepos(org))
  {
    forall node: RepoNode ensures Avoids(WithTeams(src, org, getTeams)(node).trace, OrgRepos(org)) {
      if getTeams {
        forall x: TeamRepoNode ensures Avoids(TeamsFetch(src, org, node.name).process(x).trace, OrgRepos(org)) {
          assert TeamsFetch(src, org, node.name).process == Pure(TeamRole);
          assert Pure(TeamRole)(x) == Done(TeamRole(x), []);
        }
        WalkAvoids(TeamsFetch(src, org, node.name), OrgRepos(org));
      }
    }
  }

  /** When the upstream ends the repositories walk at page `n`: with
      `getTeams` the fetch succeeds exactly when the teams fetch of every
      repository node of pages 0..n does, and then returns one Repo per node,
      in page-then-node order, carrying that repository's teams and topic
      names; the requests and waits of the repositories scope are one
      request per page with the chained cursors, each followed by a wait
      until the reset time exactly when fewer than 100 points remain. */
  lemma OrgReposOutcome(src: Source, org: string)
    ensures forall n: nat :: EndsAt(ReposFetch(src, org, true), n) ==>
      ServedBefore(ReposFetch(src, org, true), n + 1) &&
      (OrgReposOf(src, org, true).result.Success? <==>
        forall i :: 0 <= i < |NodesThrough(ReposFetch(src, org, true), n)| ==>
          TeamsRoleForRepo(src, org, NodesThrough(ReposFetch(src, org, true), n)[i].name).result.Success?) &&
      (OrgReposOf(src, org, true).result.Success? ==>
        |OrgReposOf(src, org, true).result.value| == |NodesThrough(ReposFetch(src, org, true), n)| &&
        (forall i :: 0 <= i < |NodesThrough(ReposFetch(src, org, true), n)| ==>
          OrgReposOf(src, org, true).result.value[i]
            == RepoOf(NodesThrough(ReposFetch(src, org, true), n)[i],
                      TeamsRoleForRepo(src, org, NodesThrough(ReposFetch(src, org, true), n)[i].name).result.value)) &&
        Own(OrgReposOf(src, org, true).trace, OrgRepos(org)) == RequestsBefore(ReposFetch(src, org, true), n + 1)) &&
      forall i :: 0 <= i <= n ==>
        PageEvents(ReposFetch(src, org, true), i)
          == [Request(OrgRepos(org), CursorAt(ReposFetch(src, org, true), i))] +
             (if src.orgRepos(org)[i].quota.remaining < QuotaThreshold
              then [WaitUntil(OrgRepos(org), src.orgRepos(org)[i].quota.resetAt)] else [])
  {
    var f := ReposFetch(src, org, true);
    TeamsAvoidRepos(src, org, true);
    forall n: nat | EndsAt(f, n)
      ensures ServedBefore(f, n + 1)
      ensures Walk(f).result.Success? <==>
        forall i :: 0 <= i < |NodesThrough(f, n)| ==> TeamsRoleForRepo(src, org, NodesThrough(f, n)[i].name).result.Success?
      ensures Walk(f).result.Success? ==>
        |Walk(f).result.value| == |NodesThrough(f, n)| &&
        (forall i :: 0 <= i < |NodesThrough(f, n)| ==>
          Walk(f).result.value[i]
            == RepoOf(NodesThrough(f, n)[i], TeamsRoleForRepo(src, org, NodesThrough(f, n)[i].name).result.value)) &&
        Own(Walk(f).trace, OrgRepos(org)) == RequestsBefore(f, n + 1)
    {
      FanOutResult(f, n);
      if Walk(f).result.Success? {
        var h := (node: RepoNode) =>
          var t := TeamsRoleForRepo(src, org, node.name);
          RepoOf(node, if t.result.Success? then t.result.value else []);
        FlatMapSingletons(Yield(f.process), h, NodesThrough(f, n));
        FanOutOwnTrace(f, n);
      }
    }
  }

  /** The teams fetch of every repository node in `nodes` succeeded. */
  predicate TeamsFetched(src: Source, org: string, nodes: seq<RepoNode>)
  {
    forall i :: 0 <= i < |nodes| ==> TeamsRoleForRepo(src, org, nodes[i].name).result.Success?
  }

  /** A repositories reply the fetch cannot serve makes it fail, with that
      reply's error when the teams fetches of the repositories before it
      succeeded. */
  lemma OrgReposStopsAt(src: Source, org: string)
    ensures forall k: nat :: Continues(ReposFetch(src, org, true), k) && !Served(ReposFetch(src, org, true), k) ==>
      OrgReposOf(src, org, true).result.Failure? &&
      (TeamsFetched(src, org, NodesBefore(ReposFetch(src, org, true), k)) ==>
        OrgReposOf(src, org, true).result == Failure(StopError(ReposFetch(src, org, true), k)))
  {
    var f := ReposFetch(src, org, true);
    forall k: nat | Continues(f, k) && !Served(f, k)
      ensures Walk(f).result.Failure?
      ensures TeamsFetched(src, org, NodesBefore(f, k)) ==> Walk(f).result == Failure(StopError(f, k))
    {
      FanOutStopsAt(f, k);
      var nodes := NodesBefore(f, k);
      if TeamsFetched(src, org, nodes) {
        forall i | 0 <= i < |nodes| ensures f.process(nodes[i]).result.Success? {
          assert TeamsRoleForRepo(src, org, nodes[i].name).result.Success?;
        }
      }
    }
  }

  /** Without `getTeams` the fetch makes no other request: it succeeds
      exactly when the upstream ends its walk, and then returns one Repo with
      no teams per repository node, in order, after exactly its own requests
      and waits. */
  lemma OrgReposWithoutTeams(src: Source, org: string)
    ensures OrgReposOf(src, org, false).result.Success? <==> exists n: nat :: EndsAt(ReposFetch(src, org, false), n)
    ensures forall n: nat :: EndsAt(ReposFetch(src, org, false), n) ==>
      ServedBefore(ReposFetch(src, org, false), n + 1) &&
      OrgReposOf(src, org, false).result
        == Success(Map(NoTeams, NodesBefore(ReposFetch(src, org, false), n + 1))) &&
      OrgReposOf(src, org, false).trace == RequestsBefore(ReposFetch(src, org, false), n + 1)
    ensures forall k: nat :: Continues(ReposFetch(src, org, false), k) && !Served(ReposFetch(src, org, false), k) ==>
      OrgReposOf(src, org, false).result == Failure(StopError(ReposFetch(src, org, false), k))
  {
    var f := ReposFetch(src, org, false);
    PureFetch(f, One(NoTeams));
    forall n: nat | EndsAt(f, n)
      ensures ServedBefore(f, n + 1)
      ensures Walk(f).result == Success(Map(NoTeams, NodesBefore(f, n + 1)))
    {
      FlatMapOne(NoTeams, NodesBefore(f, n + 1));
    }
  }

  function NoTeams(node: RepoNode): Repo
  {
    RepoOf(node, [])
  }

  // ---- getRepoCollaborators ----

  /** Every field of the collaborator edge is copied. */
  function CollaboratorOf(edge: CollaboratorEdge): Collaborator
  {
    Collaborator(edge.permission, edge.login, edge.name, edge.email, edge.databaseId)
  }

  function CollaboratorsFetch(src: Source, org: string, repo: string)
    : Fetch<Page<CollaboratorEdge>, CollaboratorEdge, Collaborator>
  {
    Fetch(RepoCollaborators(org, repo), src.repoCollaborators(org, repo), UntilReset, WholeReply,
          Pure(One(CollaboratorOf)))
  }

  /** What getRepoCollaborators returns and does. */
  function CollaboratorsOfRepo(src: Source, org: string, repo: string): Fetched<seq<Collaborator>>
  {
    Walk(CollaboratorsFetch(src, org, repo))
  }

  method GetRepoCollaborators(src: Source, org: string, repo: string) returns (fetched: Fetched<seq<Collaborator>>)
    ensures fetched == CollaboratorsOfRepo(src, org, repo)
  {
    fetched := Paginate(RepoCollaborators(org, repo), src.repoCollaborators(org, repo), UntilReset, WholeReply,
                        One(CollaboratorOf));
  }

  /** When the upstream ends the walk at page `n`, the fetch returns one
      Collaborator per edge of pages 0..n, in order, with the edge's
      permission and its node's login, name, email and database id; its
      events are, for each page, the request with the chained cursor
      followed by a wait until the reset time exactly when fewer than 100
      points remain. A reply it cannot serve ends it with that reply's
      error. */
  lemma CollaboratorsOutcome(src: Source, org: string, repo: string)
    ensures forall n: nat :: EndsAt(CollaboratorsFetch(src, org, repo), n) ==>
      ServedBefore(CollaboratorsFetch(src, org, repo), n + 1) &&
      CollaboratorsOfRepo(src, org, repo).result
        == Success(Map(CollaboratorOf, NodesBefore(CollaboratorsFetch(src, org, repo), n + 1))) &&
      CollaboratorsOfRepo(src, org, repo).trace == RequestsBefore(CollaboratorsFetch(src, org, repo), n + 1) &&
      forall i :: 0 <= i <= n ==>
        PageEvents(CollaboratorsFetch(src, org, repo), i)
          == [Request(RepoCollaborators(org, repo), CursorAt(CollaboratorsFetch(src, org, repo), i))] +
             (if src.repoCollaborators(org, repo)[i].quota.remaining < QuotaThreshold
              then [WaitUntil(RepoCollaborators(org, repo), src.repoCollaborators(org, repo)[i].quota.resetAt)]
              else [])
    ensures forall k: nat :: Continues(CollaboratorsFetch(src, org, repo), k) &&
                             !Served(CollaboratorsFetch(src, org, repo), k) ==>
      CollaboratorsOfRepo(src, org, repo).result == Failure(StopError(CollaboratorsFetch(src, org, repo), k))
  {
    var f := CollaboratorsFetch(src, org, repo);
    PureFetch(f, One(CollaboratorOf));
    forall n: nat | EndsAt(f, n)
      ensures ServedBefore(f, n + 1)
      ensures Walk(f).result == Success(Map(CollaboratorOf, NodesBefore(f, n + 1)))
    {
      FlatMapOne(CollaboratorOf, NodesBefore(f, n + 1));
    }
  }

  // ---- GenerateRepoReport ----

  const RepoHeader: Row :=
    ["id", "owner", "name", "visibility", "archived", "is_fork", "created_at", "pushed_at", "teams", "topics"]

  /** The `name:role` label of a team in the teams column. */
  function TeamLabel(team: Team): string
  {
    team.name + ":" + team.role
  }

  /** The record of one repository; the timestamps are written as they are
      held. */
  function RepoRow(repo: Repo): Row
  {
    [repo.id, repo.owner, repo.name, repo.visibility, BoolText(repo.isArchived), BoolText(repo.isFork),
     repo.createdAt, repo.pushedAt, Bracketed(Map(TeamLabel, repo.teams)), Bracketed(repo.topics)]
  }

  function RepoRows(org: Org, repos: seq<Repo>): seq<Row>
  {
    Map(RepoRow, repos)
  }

  function ReposOf(src: Source): Org -> Fetched<seq<Repo>>
  {
    (org: Org) => OrgReposOf(src, org.login, true)
  }

  /** The header, then, for each organization of the enterprise, one record
      per repository, teams included. */
  function RepoReport(src: Source, enterprise: string): Report
  {
    Headed(RepoHeader, OrgsOfEnterprise(src, enterprise), ReposOf(src), RepoRows)
  }

  method GenerateRepoReport(src: Source, enterprise: string) returns (report: Report)
    ensures report == RepoReport(src, enterprise)
  {
    var rows := [RepoHeader];
    var orgs := GetEnterpriseOrgs(src, enterprise);
    var trace := orgs.trace;
    if orgs.result.Failure? {
      return Report(rows, Aborted(orgs.result.error), trace);
    }
    var os := orgs.result.value;
    assert os[0..] == os;
    for i := 0 to |os|
      invariant RepoReport(src, enterprise)
             == Then(Report(rows, Completed, trace), EachParent(os[i..], ReposOf(src), RepoRows))
    {
      EachParentTurn(rows, trace, os, i, ReposOf(src), RepoRows);
      var got := GetOrgRepos(src, os[i].login, true);
      if got.result.Failure? {
        return Report(rows, Aborted(got.result.error), trace + got.trace);
      }
      var written := WriteRepos(got.result.value);
      rows := rows + written;
      trace := trace + got.trace;
    }
    EachParentEnd(rows, trace, os, ReposOf(src), RepoRows);
    return Report(rows, Completed, trace);
  }

  /** The records of one organization's repositories, in order. */
  method WriteRepos(repos: seq<Repo>) returns (rows: seq<Row>)
    ensures rows == Map(RepoRow, repos)
  {
    rows := [];
    for j := 0 to |repos|
      invariant |rows| == j
      invariant forall k :: 0 <= k < j ==> rows[k] == RepoRow(repos[k])
    {
      var repo := repos[j];
      var teams := Collect(TeamLabel, repo.teams);
      var row := [repo.id, repo.owner, repo.name, repo.visibility, BoolText(repo.isArchived),
                  BoolText(repo.isFork), repo.createdAt, repo.pushedAt, Bracketed(teams), Bracketed(repo.topics)];
      assert row == RepoRow(repo);
      rows := rows + [row];
    }
  }

  /** The report starts with the ten-column header and every row has ten
      fields. It runs to the end exactly when the organizations and every
      organization's repositories (with their teams) are fetched, and then
      holds, organization after organization, one record per repository in
      fetched order. */
  lemma RepoReportRows(src: Source, enterprise: string)
    ensures RepoReport(src, enterprise).rows[0]
         == ["id", "owner", "name", "visibility", "archived", "is_fork", "created_at", "pushed_at", "teams", "topics"]
    ensures forall row :: row in RepoReport(src, enterprise).rows ==> |row| == 10
    ensures RepoReport(src, enterprise).status == Completed <==>
      OrgsOfEnterprise(src, enterprise).result.Success? &&
      forall i :: 0 <= i < |OrgsOfEnterprise(src, enterprise).result.value| ==>
        OrgReposOf(src, OrgsOfEnterprise(src, enterprise).result.value[i].login, true).result.Success?
    ensures RepoReport(src, enterprise).status == Completed ==>
      RepoReport(src, enterprise).rows
        == [RepoHeader] + FlatMap(ParentRows(ReposOf(src), RepoRows), OrgsOfEnterprise(src, enterprise).result.value)
  {
    var got := OrgsOfEnterprise(src, enterprise);
    HeadedOutcome(RepoHeader, got, ReposOf(src), RepoRows);
    if got.result.Success? {
      var os := got.result.value;
      forall i | 0 <= i < |os| ensures ReposOf(src)(os[i]) == OrgReposOf(src, os[i].login, true) { }
    }
  }

  /** The archived and fork columns read "true" exactly when the flag is
      set, and the teams column reads back as the repository's team labels
      when no team name or role holds a space; each label splits back at
      its colon into the team's name and role when neither holds one. */
  lemma RepoRowReadsBack(repo: Repo)
    requires forall i :: 0 <= i < |repo.teams| ==> ' ' !in repo.teams[i].name && ' ' !in repo.teams[i].role
    requires forall i :: 0 <= i < |repo.teams| ==> ':' !in repo.teams[i].name && ':' !in repo.teams[i].role
    ensures RepoRow(repo)[4] == "true" <==> repo.isArchived
    ensures RepoRow(repo)[5] == "true" <==> repo.isFork
    ensures Unbracket(RepoRow(repo)[8]) == Some(Map(TeamLabel, repo.teams))
    ensures forall i :: 0 <= i < |repo.teams| ==>
      Split(Map(TeamLabel, repo.teams)[i], ':') == [repo.teams[i].name, repo.teams[i].role]
  {
    var labels := Map(TeamLabel, repo.teams);
    forall x | x in labels ensures ' ' !in x {
      var i :| 0 <= i < |labels| && labels[i] == x;
      assert x == repo.teams[i].name + ":" + repo.teams[i].role;
    }
    if |labels| == 1 {
      assert ':' in labels[0];
    }
    BracketedRoundTrip(labels);
    forall i | 0 <= i < |repo.teams|
      ensures Split(labels[i], ':') == [repo.teams[i].name, repo.teams[i].role]
    {
      TeamLabelSplits(repo.teams[i]);
    }
  }

  lemma TeamLabelSplits(team: Team)
    requires ':' !in team.name && ':' !in team.role
    ensures Split(TeamLabel(team), ':') == [team.name, team.role]
  {
    assert TeamLabel(team) == team.name + [':'] + team.role;
    SplitAfterPiece(team.name, ':', team.role);
    SplitPiece(team.role, ':');
  }

  // ---- GenerateCollaboratorReport ----

  const CollaboratorHeader: Row := ["repo_id", "org", "repo", "is_archived", "Collaborators"]

  /** The `%d:%s:%s:%s:%s` label of a collaborator: database id, name,
      email, login, permission. */
  function CollaboratorLabel(c: Collaborator): string
  {
    NatToString(c.databaseId) + ":" + c.name + ":" + c.email + ":" + c.login + ":" + c.permission
  }

  function CollaboratorRow(org: string, repo: Repo, collaborators: seq<Collaborator>): Row
  {
    [repo.id, org, repo.name, BoolText(repo.isArchived), Bracketed(Map(CollaboratorLabel, collaborators))]
  }

  function CollaboratorRows(org: string): (Repo, seq<Collaborator>) -> seq<Row>
  {
    (repo: Repo, collaborators: seq<Collaborator>) => [CollaboratorRow(org, repo, collaborators)]
  }

  function CollaboratorsOf(src: Source, org: string): Repo -> Fetched<seq<Collaborator>>
  {
    (repo: Repo) => CollaboratorsOfRepo(src, org, repo.name)
  }

  /** The header, then the organization's repositories (without teams),
      each with its collaborators fetched and one record written. */
  function CollaboratorReport(src: Source, org: string): Report
  {
    Headed(CollaboratorHeader, OrgReposOf(src, org, false), CollaboratorsOf(src, org), CollaboratorRows(org))
  }

  method GenerateCollaboratorReport(src: Source, org: string) returns (report: Report)
    ensures report == CollaboratorReport(src, org)
  {
    var rows := [CollaboratorHeader];
    var repos := GetOrgRepos(src, org, false);
    var trace := repos.trace;
    if repos.result.Failure? {
      return Report(rows, Aborted(repos.result.error), trace);
    }
    var rs := repos.result.value;
    assert rs[0..] == rs;
    for i := 0 to |rs|
      invariant CollaboratorReport(src, org)
             == Then(Report(rows, Completed, trace), EachParent(rs[i..], CollaboratorsOf(src, org), CollaboratorRows(org)))
    {
      EachParentTurn(rows, trace, rs, i, CollaboratorsOf(src, org), CollaboratorRows(org));
      var got := GetRepoCollaborators(src, org, rs[i].name);
      if got.result.Failure? {
        return Report(rows, Aborted(got.result.error), trace + got.trace);
      }
      var list := Collect(CollaboratorLabel, got.result.value);
      rows := rows + [[rs[i].id, org, rs[i].name, BoolText(rs[i].isArchived), Bracketed(list)]];
      trace := trace + got.trace;
    }
    EachParentEnd(rows, trace, rs, CollaboratorsOf(src, org), CollaboratorRows(org));
    return Report(rows, Completed, trace);
  }

  /** The report starts with the five-column header and every row has five
      fields. It runs to the end exactly when the repositories and every
      repository's collaborators are fetched, and then holds exactly one
      record per repository, in fetched order, listing that repository's
      collaborators. */
  lemma CollaboratorReportRows(src: Source, org: string)
    ensures CollaboratorReport(src, org).rows[0] == ["repo_id", "org", "repo", "is_archived", "Collaborators"]
    ensures forall row :: row in CollaboratorReport(src, org).rows ==> |row| == 5
    ensures CollaboratorReport(src, org).status == Completed <==>
      OrgReposOf(src, org, false).result.Success? &&
      forall i :: 0 <= i < |OrgReposOf(src, org, false).result.value| ==>
        CollaboratorsOfRepo(src, org, OrgReposOf(src, org, false).result.value[i].name).result.Success?
    ensures CollaboratorReport(src, org).status == Completed ==>
      |CollaboratorReport(src, org).rows| == |OrgReposOf(src, org, false).result.value| + 1 &&
      forall i :: 0 <= i < |OrgReposOf(src, org, false).result.value| ==>
        CollaboratorReport(src, org).rows[i + 1]
          == CollaboratorRow(org, OrgReposOf(src, org, false).result.value[i],
                             CollaboratorsOfRepo(src, org, OrgReposOf(src, org, false).result.value[i].name).result.value)
  {
    var got := OrgReposOf(src, org, false);
    HeadedOutcome(CollaboratorHeader, got, CollaboratorsOf(src, org), CollaboratorRows(org));
    if got.result.Success? {
      var rs := got.result.value;
      forall i | 0 <= i < |rs| ensures CollaboratorsOf(src, org)(rs[i]) == CollaboratorsOfRepo(src, org, rs[i].name) { }
      if CollaboratorReport(src, org).status == Completed {
        OneRowPerRepo(src, org, rs);
      }
    }
  }

  lemma OneRowPerRepo(src: Source, org: string, rs: seq<Repo>)
    requires forall i :: 0 <= i < |rs| ==> CollaboratorsOfRepo(src, org, rs[i].name).result.Success?
    ensures |FlatMap(ParentRows(CollaboratorsOf(src, org), CollaboratorRows(org)), rs)| == |rs|
    ensures forall i :: 0 <= i < |rs| ==>
      FlatMap(ParentRows(CollaboratorsOf(src, org), CollaboratorRows(org)), rs)[i]
        == CollaboratorRow(org, rs[i], CollaboratorsOfRepo(src, org, rs[i].name).result.value)
  {
    var h := (repo: Repo) =>
      var c := CollaboratorsOfRepo(src, org, repo.name);
      CollaboratorRow(org, repo, if c.result.Success? then c.result.value else []);
    FlatMapSingletons(ParentRows(CollaboratorsOf(src, org), CollaboratorRows(org)), h, rs);
  }

  /** A collaborator label splits back at its colons into the database id's
      digits, name, email, login and permission when none of the four texts
      holds a colon, and its first piece reads back as the database id. */
  lemma CollaboratorLabelReadsBack(c: Collaborator)
    requires ':' !in c.name && ':' !in c.email && ':' !in c.login && ':' !in c.permission
    ensures Split(CollaboratorLabel(c), ':') == [NatToString(c.databaseId), c.name, c.email, c.login, c.permission]
    ensures DigitsValue(Split(CollaboratorLabel(c), ':')[0]) == c.databaseId
  {
    var id := NatToString(c.databaseId);
    assert ':' !in id by {
      forall i | 0 <= i < |id| ensures id[i] != ':' { }
    }
    var tail3 := c.login + [':'] + c.permission;
    var tail2 := c.email + [':'] + tail3;
    var tail1 := c.name + [':'] + tail2;
    assert CollaboratorLabel(c) == id + [':'] + tail1;
    SplitAfterPiece(id, ':', tail1);
    SplitAfterPiece(c.name, ':', tail2);
    SplitAfterPiece(c.email, ':', tail3);
    SplitAfterPiece(c.login, ':', c.permission);
    SplitPiece(c.permission, ':');
    NatToStringRoundTrip(c.databaseId);
  }
}
