/** pkg/repo/repo.go, the earlier variant of the repository fetchers and the
    repository report of one organization. Each call builds its own client
    from a token (a parameter the model does not need); no query asks for a
    rateLimit block. getOrgRepos always fetches the teams of every
    repository. It discards the error of that fetch, but the fetch never
    returns one: a failed query panics, and the panic ends the whole run
    like every other failure, which is the model's abort. */
module LegacyRepo {
  import opened Common
  import opened Upstream
  import opened Paging
  import opened Reports
  import OctoRepo

  /** repo.go's Team: a name and a role. */
  datatype Team = Team(name: string, role: string)

  /** repo.go's Repo. */
  datatype Repo = Repo(name: string, visibility: string, isArchived: bool, isFork: bool, id: string,
                       pushedAt: string, createdAt: string, owner: string, topics: seq<string>,
                       teams: seq<Team>)

  // ---- getTeamsRoleForRepo ----

  /** The per-node work: a team with an edge is recorded, as written, with
      the name of the edge's repository rather than the team's own and the
      edge's permission as the role; a team without an edge contributes
      nothing. */
  function TeamRole(node: TeamRepoNode): seq<Team>
  {
    if |node.edges| > 0 then [Team(node.edges[0].repoName, node.edges[0].permission)] else []
  }

  /** The one Team the per-node work records for a team with an edge. */
  function RoleOf(node: TeamRepoNode): Team
  {
    if OctoRepo.HasEdge(node) then TeamRole(node)[0] else Team("", "")
  }

  function TeamsFetch(src: Source, org: string, repo: string): Fetch<Page<TeamRepoNode>, TeamRepoNode, Team>
  {
    Fetch(RepoTeams(org, repo), src.repoTeams(org, repo), NoQuotaCheck, WholeReply, Pure(TeamRole))
  }

  /** What getTeamsRoleForRepo returns and does. */
  function TeamsRoleForRepo(src: Source, org: string, repo: string): Fetched<seq<Team>>
  {
    Walk(TeamsFetch(src, org, repo))
  }

  method GetTeamsRoleForRepo(src: Source, org: string, repo: string) returns (fetched: Fetched<seq<Team>>)
    ensures fetched == TeamsRoleForRepo(src, org, repo)
  {
    fetched := Paginate(RepoTeams(org, repo), src.repoTeams(org, repo), NoQuotaCheck, WholeReply, TeamRole);
  }

  /** When the upstream ends the walk at page `n`, the fetch returns, in
      page-then-node order, one Team for each team node of pages 0..n that
      has an edge for the repository, carrying that edge's repository name
      and permission, after exactly n + 1 requests with the chained cursors.
      A reply it cannot serve ends it with that reply's error. */
  lemma TeamsRoleOutcome(src: Source, org: string, repo: string)
    ensures forall n: nat :: EndsAt(TeamsFetch(src, org, repo), n) ==>
      ServedBefore(TeamsFetch(src, org, repo), n + 1) &&
      TeamsRoleForRepo(src, org, repo).result
        == Success(Map(RoleOf, Filter(OctoRepo.HasEdge, NodesBefore(TeamsFetch(src, org, repo), n + 1)))) &&
      |TeamsRoleForRepo(src, org, repo).trace| == n + 1 &&
      forall i :: 0 <= i <= n ==>
        TeamsRoleForRepo(src, org, repo).trace[i] == Request(RepoTeams(org, repo), CursorAt(TeamsFetch(src, org, repo), i))
    ensures forall k: nat :: Continues(TeamsFetch(src, org, repo), k) && !Served(TeamsFetch(src, org, repo), k) ==>
      TeamsRoleForRepo(src, org, repo).result == Failure(StopError(TeamsFetch(src, org, repo), k))
  {
    var f := TeamsFetch(src, org, repo);
    PureFetch(f, TeamRole);
    forall n: nat | EndsAt(f, n)
      ensures ServedBefore(f, n + 1)
      ensures Walk(f).result == Success(Map(RoleOf, Filter(OctoRepo.HasEdge, NodesBefore(f, n + 1))))
      ensures |Walk(f).trace| == n + 1
      ensures forall i :: 0 <= i <= n ==> Walk(f).trace[i] == Request(f.scope, CursorAt(f, i))
    {
      FlatMapFilter(TeamRole, OctoRepo.HasEdge, RoleOf, NodesBefore(f, n + 1));
      NoQuotaCheckRequests(f, n + 1);
    }
  }

  /** As written, the recorded name of every team with an edge is the
      repository's name: two different teams holding the same permission on
      the same repository get the same label. */
  lemma TeamNameIsRepoName(a: TeamRepoNode, b: TeamRepoNode)
    requires OctoRepo.HasEdge(a) && OctoRepo.HasEdge(b)
    ensures TeamRole(a) == [RoleOf(a)] && RoleOf(a).name == a.edges[0].repoName
    ensures a.edges[0].repoName == b.edges[0].repoName && a.edges[0].permission == b.edges[0].permission ==>
      TeamLabel(RoleOf(a)) == TeamLabel(RoleOf(b))
  {
  }

  /** Teams "core" and "ops", both with WRITE on "api", are written with the
      same label "api:WRITE". */
  lemma TeamLabelLosesTeam()
    ensures var core := TeamRepoNode("core", [RepoEdge("WRITE", "api")]);
            var ops := TeamRepoNode("ops", [RepoEdge("WRITE", "api")]);
            core.slug != ops.slug &&
            TeamLabel(RoleOf(core)) == "api:WRITE" && TeamLabel(RoleOf(ops)) == "api:WRITE"
  {
  }

  /** With the name taken from the team's slug, as the live variant does,
      the label tells teams apart: equal labels mean the same slug and the
      same permission, when neither holds a colon. */
  lemma CorrectedLabelKeepsTeam(a: TeamRepoNode, b: TeamRepoNode)
    requires OctoRepo.HasEdge(a) && OctoRepo.HasEdge(b)
    requires ':' !in a.slug && ':' !in b.slug && ':' !in a.edges[0].permission && ':' !in b.edges[0].permission
    ensures OctoRepo.TeamLabel(OctoRepo.RoleOf(a)) == OctoRepo.TeamLabel(OctoRepo.RoleOf(b)) <==>
      a.slug == b.slug && a.edges[0].permission == b.edges[0].permission
  {
    OctoRepo.TeamRoleKeepsEdged(a);
    OctoRepo.TeamRoleKeepsEdged(b);
    OctoRepo.TeamLabelSplits(OctoRepo.RoleOf(a));
    OctoRepo.TeamLabelSplits(OctoRepo.RoleOf(b));
  }

  // ---- getOrgRepos ----

  /** repo.go's Repo record of a repository node: its topics' names in
      order, the owner's login, and the teams given. */
  function RepoOf(node: RepoNode, teams: seq<Team>): Repo
  {
    Repo(node.name, node.visibility, node.isArchived, node.isFork, node.id, node.pushedAt, node.createdAt,
         node.ownerLogin, Map(OctoRepo.TopicName, node.topics), teams)
  }

  /** The work on one repository node: fetch the teams with a role on it
      (a failure ends the whole run), then record the repository. */
  function WithTeams(src: Source, org: string): RepoNode -> Fetched<seq<Repo>>
  {
    (node: RepoNode) =>
      var teams := TeamsRoleForRepo(src, org, node.name);
      Fetched(if teams.result.Success? then Success([RepoOf(node, teams.result.value)])
              else Failure(teams.result.error),
              teams.trace)
  }

  function ReposFetch(src: Source, org: string): Fetch<Page<RepoNode>, RepoNode, Repo>
  {
    Fetch(OrgRepos(org), src.orgRepos(org), NoQuotaCheck, WholeReply, WithTeams(src, org))
  }

  /** What getOrgRepos returns and does. */
  function OrgReposOf(src: Source, org: string): Fetched<seq<Repo>>
  {
    Walk(ReposFetch(src, org))
  }

  method GetOrgRepos(src: Source, org: string) returns (fetched: Fetched<seq<Repo>>)
    ensures fetched == OrgReposOf(src, org)
  {
    ghost var f := ReposFetch(src, org);
    var repos: seq<Repo> := [];
    var trace: seq<Event> := [];
    var cursor: Option<Cursor> := None;
    var k := 0;
    AndThenUnit(Walk(f));
    while true
      invariant k <= |src.orgRepos(org)|
      invariant Walk(f) == AndThen(Done(repos, trace), WalkFrom(f, k, cursor))
      decreases |src.orgRepos(org)| - k
    {
      var located, events := Receive(f, OrgRepos(org), src.orgRepos(org), NoQuotaCheck, WholeReply, k, cursor);
      if located.Failure? {
        return Fetched(Failure(located.error), trace + events);
      }
      var page := located.value;
      EnterPage(f, k, cursor, repos, trace);
      assert f.process == WithTeams(src, org);
      var done := ProcessRepoPage(src, org, page.nodes, repos, trace + events);
      if done.result.Failure? {
        return done;
      }
      repos, trace := done.result.value, done.trace;
      if !page.hasNextPage {
        AndThenUnitRight(Done(repos, trace));
        return Done(repos, trace);
      }
      cursor := Some(page.endCursor);
      k := k + 1;
    }
  }

  /** The node loop of one page: for each repository node in turn, after the
      repositories and events so far, fetch the teams with a role on it (a
      failure ends the whole run), then record the repository. */
  method ProcessRepoPage(src: Source, org: string, nodes: seq<RepoNode>, repos: seq<Repo>, trace: seq<Event>)
    returns (done: Fetched<seq<Repo>>)
    ensures done == AndThen(Done(repos, trace), ProcessNodes(nodes, WithTeams(src, org)))
  {
    var items, events := repos, trace;
    var i := 0;
    assert nodes[0..] == nodes;
    while i < |nodes|
      invariant i <= |nodes|
      invariant AndThen(Done(repos, trace), ProcessNodes(nodes, WithTeams(src, org)))
             == AndThen(Done(items, events), ProcessNodes(nodes[i..], WithTeams(src, org)))
    {
      NodeStepOn(items, events, nodes, i, WithTeams(src, org));
      var node := nodes[i];
      var teams := GetTeamsRoleForRepo(src, org, node.name);
      if teams.result.Failure? {
        return Fetched(Failure(teams.result.error), events + teams.trace);
      }
      var topics := Collect(OctoRepo.TopicName, node.topics);
      items := items + [Repo(node.name, node.visibility, node.isArchived, node.isFork, node.id,
                             node.pushedAt, node.createdAt, node.ownerLogin, topics, teams.result.value)];
      events := events + teams.trace;
      i := i + 1;
    }
    assert nodes[i..] == [];
    AndThenUnitRight(Done(items, events));
    return Done(items, events);
  }

  /** The teams fetches of the repositories happen in their own scopes. */
  lemma TeamsAvoidRepos(src: Source, org: string)
    ensures forall node :: Avoids(WithTeams(src, org)(node).trace, OrgRepos(org))
  {
    forall node: RepoNode ensures Avoids(WithTeams(src, org)(node).trace, OrgRepos(org)) {
      forall x: TeamRepoNode ensures Avoids(TeamsFetch(src, org, node.name).process(x).trace, OrgRepos(org)) {
        assert TeamsFetch(src, org, node.name).process == Pure(TeamRole);
        assert Pure(TeamRole)(x) == Done(TeamRole(x), []);
      }
      WalkAvoids(TeamsFetch(src, org, node.name), OrgRepos(org));
    }
  }

  /** When the upstream ends the repositories walk at page `n`, the fetch
      succeeds exactly when the teams fetch of every repository node of
      pages 0..n does, and then returns one Repo per node, in page-then-node
      order, carrying that repository's teams and topic names; the requests
      of the repositories scope are exactly one per page, with the chained
      cursors, and nothing else. */
  lemma OrgReposOutcome(src: Source, org: string)
    ensures forall n: nat :: EndsAt(ReposFetch(src, org), n) ==>
      ServedBefore(ReposFetch(src, org), n + 1) &&
      (OrgReposOf(src, org).result.Success? <==>
        forall i :: 0 <= i < |NodesThrough(ReposFetch(src, org), n)| ==>
          TeamsRoleForRepo(src, org, NodesThrough(ReposFetch(src, org), n)[i].name).result.Success?) &&
      (OrgReposOf(src, org).result.Success? ==>
        |OrgReposOf(src, org).result.value| == |NodesThrough(ReposFetch(src, org), n)| &&
        (forall i :: 0 <= i < |NodesThrough(ReposFetch(src, org), n)| ==>
          OrgReposOf(src, org).result.value[i]
            == RepoOf(NodesThrough(ReposFetch(src, org), n)[i],
                      TeamsRoleForRepo(src, org, NodesThrough(ReposFetch(src, org), n)[i].name).result.value)) &&
        Own(OrgReposOf(src, org).trace, OrgRepos(org)) == RequestsBefore(ReposFetch(src, org), n + 1)) &&
      forall i :: 0 <= i <= n ==>
        PageEvents(ReposFetch(src, org), i) == [Request(OrgRepos(org), CursorAt(ReposFetch(src, org), i))]
  {
    var f := ReposFetch(src, org);
    TeamsAvoidRepos(src, org);
    forall n: nat | EndsAt(f, n)
      ensures ServedBefore(f, n + 1)
      ensures Walk(f).result.Success? <==>
        forall i :: 0 <= i < |NodesThrough(f, n)| ==> TeamsRoleForRepo(src, org, NodesThrough(f, n)[i].name).result.Success?
      ensures Walk(f).result.Success? ==>
        |Walk(f).result.value| == |NodesThrough(f, n)| &&
        (forall i :: 0 <= i < |NodesThrough(f, n)| ==>
          Walk(f).result.value[i]
            == RepoOf(NodesThrough(f, n)[i], TeamsRoleForRepo(src, org, NodesThrough(f, n)[i].name).result.value)) &&
        Own(Walk(f).trace, OrgRepos(org)) == RequestsBefore(f, n + 1)
    {
      FanOutResult(f, n);
      if Walk(f).result.Success? {
        var h := (node: RepoNode) =>
          var t := TeamsRoleForRepo(src, org, node.name);
          RepoOf(node, if t.result.Success? then t.result.value else []);
        FlatMapSingletons(Yield(f.process), h, NodesThrough(f, n));
        FanOutOwnTrace(f, n);
      }
    }
  }

  /** The teams fetch of every repository node in `nodes` succeeded. */
  predicate TeamsFetched(src: Source, org: string, nodes: seq<RepoNode>)
  {
    forall i :: 0 <= i < |nodes| ==> TeamsRoleForRepo(src, org, nodes[i].name).result.Success?
  }

  /** A repositories reply the fetch cannot serve makes it fail, with that
      reply's error when the teams fetches of the repositories before it
      succeeded. */
  lemma OrgReposStopsAt(src: Source, org: string)
    ensures forall k: nat :: Continues(ReposFetch(src, org), k) && !Served(ReposFetch(src, org), k) ==>
      OrgReposOf(src, org).result.Failure? &&
      (TeamsFetched(src, org, NodesBefore(ReposFetch(src, org), k)) ==>
        OrgReposOf(src, org).result == Failure(StopError(ReposFetch(src, org), k)))
  {
    var f := ReposFetch(src, org);
    forall k: nat | Continues(f, k) && !Served(f, k)
      ensures Walk(f).result.Failure?
      ensures TeamsFetched(src, org, NodesBefore(f, k)) ==> Walk(f).result == Failure(StopError(f, k))
    {
      FanOutStopsAt(f, k);
      var nodes := NodesBefore(f, k);
      if TeamsFetched(src, org, nodes) {
        forall i | 0 <= i < |nodes| ensures f.process(nodes[i]).result.Success? {
          assert TeamsRoleForRepo(src, org, nodes[i].name).result.Success?;
        }
      }
    }
  }

  // ---- GenerateRepoReport ----

  const RepoHeader: Row :=
    ["id", "owner", "name", "visibility", "archived", "is_fork", "created_at", "pushed_at", "teams", "topics"]

  /** The `name:role` label of a team in the teams column. */
  function TeamLabel(team: Team): string
  {
    team.name + ":" + team.role
  }

  /** The record of one repository; the timestamps are written as they are
      held. */
  function RepoRow(repo: Repo): Row
  {
    [repo.id, repo.owner, repo.name, repo.visibility, BoolText(repo.isArchived), BoolText(repo.isFork),
     repo.createdAt, repo.pushedAt, Bracketed(Map(TeamLabel, repo.teams)), Bracketed(repo.topics)]
  }

  /** The rows written for one organization and how the run ended. The
      header is written before the repositories are fetched; a failed fetch
      leaves it alone in the file. */
  function RepoReport(src: Source, org: string): Report
  {
    Listed(RepoHeader, OrgReposOf(src, org), RepoRow)
  }

  method GenerateRepoReport(src: Source, org: string) returns (report: Report)
    ensures report == RepoReport(src, org)
  {
    var rows := [RepoHeader];
    var got := GetOrgRepos(src, org);
    if got.result.Failure? {
      return Report(rows, Aborted(got.result.error), got.trace);
    }
    var written := WriteRepos(got.result.value);
    rows := rows + written;
    return Report(rows, Completed, got.trace);
  }

  /** The records of the repositories, in order. */
  method WriteRepos(repos: seq<Repo>) returns (rows: seq<Row>)
    ensures rows == Map(RepoRow, repos)
  {
    rows := [];
    for i := 0 to |repos|
      invariant |rows| == i
      invariant forall j :: 0 <= j < i ==> rows[j] == RepoRow(repos[j])
    {
      var repo := repos[i];
      var teams := Collect(TeamLabel, repo.teams);
      var row := [repo.id, repo.owner, repo.name, repo.visibility, BoolText(repo.isArchived),
                  BoolText(repo.isFork), repo.createdAt, repo.pushedAt, Bracketed(teams), Bracketed(repo.topics)];
      assert row == RepoRow(repo);
      rows := rows + [row];
    }
  }

  /** The report starts with the ten-column header and every row has ten
      fields. It runs to the end exactly when the repositories (with their
      teams) are fetched, and then holds one record per repository in
      fetched order; otherwise it holds the header alone and ends with the
      fetch's error. */
  lemma RepoReportRows(src: Source, org: string)
    ensures RepoReport(src, org).rows[0]
         == ["id", "owner", "name", "visibility", "archived", "is_fork", "created_at", "pushed_at", "teams", "topics"]
    ensures forall row :: row in RepoReport(src, org).rows ==> |row| == 10
    ensures RepoReport(src, org).status == Completed <==> OrgReposOf(src, org).result.Success?
    ensures RepoReport(src, org).status.Aborted? ==>
      RepoReport(src, org).rows == [RepoHeader] &&
      OrgReposOf(src, org).result == Failure(RepoReport(src, org).status.error)
    ensures RepoReport(src, org).status == Completed ==>
      |RepoReport(src, org).rows| == |OrgReposOf(src, org).result.value| + 1 &&
      forall i :: 0 <= i < |OrgReposOf(src, org).result.value| ==>
        RepoReport(src, org).rows[i + 1] == RepoRow(OrgReposOf(src, org).result.value[i])
  {
    forall repo ensures |RepoRow(repo)| == 10 { }
    ListedOutcome(RepoHeader, OrgReposOf(src, org), RepoRow);
  }
}
