/** The GraphQL endpoint as the fetchers see it, with the network taken
    out: for every scope key, the finite sequence of replies it gives to the
    successive requests of one cursor walk. Reply k answers request k. A
    reply carries the query's data and the `rateLimit` block
    (pkg/octo-reports/client.go, type RateLimit), or is a query error.

    Clocks are not modelled: a fetcher that backs off records a `WaitUntil`
    (Go's `time.Sleep(time.Until(resetAt))`, which returns at once when
    `resetAt` has passed) or a `Sleep` of a fixed number of seconds in its
    event trace. */
module Upstream {
  import opened Common

  /** A GraphQL DateTime, kept as the text the server sent. */
  type Timestamp = string
  /** An opaque pagination cursor (`PageInfo.EndCursor`). */
  type Cursor = string

  /** Fewer remaining points than this makes a fetcher back off. */
  const QuotaThreshold: int := 100
  /** `time.Minute`, in seconds. */
  const OneMinute: nat := 60

  /** The quota telemetry a query may ask for. */
  datatype RateLimit = RateLimit(
    cost: int, limit: int, nodeCount: int, remaining: int, resetAt: Timestamp, used: int)

  /** A query shape together with the values of its scope variables: what a
      cursor belongs to. */
  datatype Scope =
    | EnterpriseOrgs(enterprise: string)
    | EnterpriseMembers(enterprise: string)
    | OrgMembers(org: string)
    | OrgTeams(org: string)
    | TeamMembers(org: string, team: string)
    | OrgRepos(org: string)
    | RepoTeams(org: string, repo: string)
    | RepoCollaborators(org: string, repo: string)
    | OrgPackages(org: string)

  /** What a fetch does that takes time: one request (with the cursor it
      carries; `None` is the nil cursor) or one back-off. */
  datatype Event =
    | Request(scope: Scope, cursor: Option<Cursor>)
    | WaitUntil(scope: Scope, resetAt: Timestamp)
    | Sleep(scope: Scope, seconds: nat)

  /** How a fetcher reacts to a low quota after a page arrives. */
  datatype QuotaPolicy =
    | NoQuotaCheck    // the query asks for no rateLimit block
    | UntilReset      // sleep until the quota's resetAt
    | OneMinuteSleep  // sleep one minute

  /** The back-off a fetcher performs after receiving a page. */
  function QuotaWait(scope: Scope, policy: QuotaPolicy, quota: RateLimit): (waits: seq<Event>)
    ensures |waits| <= 1
    ensures waits != [] <==> policy != NoQuotaCheck && quota.remaining < QuotaThreshold
    ensures forall e :: e in waits ==> e.scope == scope && !e.Request?
  {
    if policy == NoQuotaCheck || quota.remaining >= QuotaThreshold then []
    else if policy == UntilReset then [WaitUntil(scope, quota.resetAt)]
    else [Sleep(scope, OneMinute)]
  }

  /** One page of a connection: its nodes and its PageInfo. */
  datatype Page<N> = Page(nodes: seq<N>, hasNextPage: bool, endCursor: Cursor)

  /** The answer to one request. */
  datatype Reply<D> = Answered(data: D, quota: RateLimit) | QueryFailed(message: string)

  /** Why a fetch stopped. Each stands for a Go panic (or log.Fatal). */
  datatype FetchError =
    | QueryError(scope: Scope, message: string)
    | NoReply(scope: Scope)                     // the upstream has no reply left
    | TeamNotFound(org: string, team: string)   // `Teams.Nodes[0]` on an empty list

  datatype Result<T> = Success(value: T) | Failure(error: FetchError)

  /** The outcome of a fetch and everything it did, in order. */
  datatype Fetched<T> = Fetched(result: Result<T>, trace: seq<Event>)

  // ---- The objects the queries select ----

  datatype OrgNode = OrgNode(login: string, id: string)

  /** A member of an enterprise is either an enterprise user account (whose
      linked user, when there is one, has a name) or a plain user. */
  datatype EnterpriseMemberNode =
    | AccountMember(id: string, login: string, name: string, userName: string)
    | UserMember(id: string, login: string, name: string)

  /** An edge of an organization's membersWithRole connection. */
  datatype MemberEdge = MemberEdge(role: string, login: string)

  datatype TeamNode = TeamNode(id: string, name: string, slug: string, description: string)

  datatype Topic = Topic(name: string)

  datatype RepoNode = RepoNode(
    name: string, visibility: string, isArchived: bool, isFork: bool, id: string,
    pushedAt: Timestamp, createdAt: Timestamp, topics: seq<Topic>, ownerLogin: string)

  /** An edge of a team's repositories connection filtered by a repository
      name, with its permission. */
  datatype RepoEdge = RepoEdge(permission: string, repoName: string)

  datatype TeamRepoNode = TeamRepoNode(slug: string, edges: seq<RepoEdge>)

  datatype CollaboratorEdge = CollaboratorEdge(
    permission: string, login: string, name: string, email: string, databaseId: nat)

  datatype PackageNode = PackageNode(name: string, id: string, repositoryName: string)

  /** The replies of the endpoint, per scope key. The team-members query
      returns the teams matching a slug (`teams(first: 1, query: $teamSlug)`),
      each with one page of its members connection. */
  datatype Source = Source(
    enterpriseOrgs: string -> seq<Reply<Page<OrgNode>>>,
    enterpriseMembers: string -> seq<Reply<Page<EnterpriseMemberNode>>>,
    orgMembers: string -> seq<Reply<Page<MemberEdge>>>,
    orgTeams: string -> seq<Reply<Page<TeamNode>>>,
    teamMembers: (string, string) -> seq<Reply<seq<Page<string>>>>,
    orgRepos: string -> seq<Reply<Page<RepoNode>>>,
    repoTeams: (string, string) -> seq<Reply<Page<TeamRepoNode>>>,
    repoCollaborators: (string, string) -> seq<Reply<Page<CollaboratorEdge>>>,
    orgPackages: string -> seq<Reply<Page<PackageNode>>>)

  /** Where the page sits in most replies: it is the reply's data. */
  function WholeReply<N>(page: Page<N>): Result<Page<N>>
  {
    Success(page)
  }

  /** Where the page sits in a team-members reply: the members of the first
      matching team, `Teams.Nodes[0].Members`; no matching team is an error
      rather than an out-of-range read. */
  function FirstTeam(org: string, team: string): seq<Page<string>> -> Result<Page<string>>
  {
    teams => if |teams| == 0 then Failure(TeamNotFound(org, team)) else Success(teams[0])
  }
}
