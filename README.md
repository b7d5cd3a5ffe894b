# octo-reports: the paginated fetch-and-flatten core, in Dafny

octo-reports writes CSV reports about a GitHub Enterprise: its
organizations, their members and roles, teams and team members,
repositories and the teams with a role on each, repository collaborators,
and packages. Every report has the same shape. A fetcher walks a GraphQL
connection page by page. The first request carries no cursor. The nodes of
each page are appended to the result. The walk ends at the first page whose
`hasNextPage` is false, and otherwise carries that page's `endCursor` into
the next request. Some fetchers fan out: for every node they run a nested
fetch, such as the members of each team or the teams of each repository.
The live queries read a `rateLimit` block. After a page that leaves fewer
than 100 points, the fetcher either waits until the quota resets or sleeps
one minute. A report writes a header, then rows built from the fetched
records.

The model covers both variants. The live one is `pkg/octo-reports`. The
earlier one is `pkg/repo`, `pkg/team`, `pkg/enterprise` and `pkg/org`. It
has no quota check and builds a client per call. Its repository fetcher
names a team by the repository, and its organization report returns early
on an error.

Modules:

- `Upstream` — the GraphQL server, modelled as data.
  - For every scope (one connection of one query, such as
    "the teams of org O"), `Source` holds a finite sequence of replies.
  - Reply k answers request k. It is a page with its `RateLimit` snapshot,
    or a query error.
  - A request past the end of the sequence gets no reply. This stands for
    a transport failure.
  - Requests, waits until a reset time, and one-minute sleeps are recorded
    as events in a trace. No clock is read.
- `Paging` — the generic walk as a specification function, `Walk`.
  - The imperative loops of the source are proved equal to it: the shared
    `Paginate`, and the fan-out loops of each fetcher.
  - It also holds the general theorems about it: completeness and order,
    cursor chaining, the quota back-off, failure, and scope separation of
    nested fetches.
- `Reports` — a report as its rows, how it ended, and its trace; a report
  over a list of parents; and the admin/member split.
- `Common` — sequence combinators and the text renderings the reports use:
  - the `%v` list rendering `"[" + join(" ") + "]"` and its read-back;
  - `%t` booleans;
  - the decimal rendering of a database id and its read-back;
  - splitting at a separator.
- `OctoEntities` and `OctoEnterprise`, `OctoOrg`, `OctoTeam`, `OctoRepo`,
  `OctoPackages` — the live fetchers and reports.
- `LegacyEnterprise`, `LegacyOrg`, `LegacyTeam`, `LegacyRepo` — the earlier
  variants.
  - The organization report is proved identical to the live one.
  - The enterprise members rows are compared to the live ones field by
    field.

Each fetcher is a `method` whose loop is proved to return exactly the
specification function's value. Each report is a `method` with a row loop,
proved the same way. Lemmas then state what the specification functions
promise:

- what is returned, record by record and in order;
- when the fetch fails;
- which requests and waits happen;
- which rows are written.

Throughout, "the upstream ends the walk at page n" (`EndsAt(f, n)`) means
three things: every reply 0..n can be served, pages 0..n-1 say
`hasNextPage`, and page n does not.

## Model

| member | source | states |
|---|---|---|
| `Upstream.QuotaWait` | pkg/octo-reports/repo.go:91-94 | After a page there is at most one wait. There is one exactly when the query has a quota check and fewer than 100 points remain. It is in the page's scope and is never a request. The same check, with a wait until the reset time, is at pkg/octo-reports/packages.go:51-54; with a one-minute sleep it is at pkg/octo-reports/team.go:57-60 and 128-131. |
| `Paging.Step` | pkg/octo-reports/repo.go:84-94 | One turn of a pagination loop succeeds only on a reply that can be served: an answered reply whose page can be located. |
| `Paging.Paginate` | pkg/octo-reports/packages.go:44-67 | The loop of every fetcher without fan-out returns exactly `Walk` of its fetch. It sends a nil cursor first, appends each page's records, stops after the first page without a next page, and otherwise chains `endCursor`. |
| `Paging.Receive` | pkg/octo-reports/repo.go:85-94 | Sending one request yields the page exactly when the reply can be served. The page's events are then the request with the current cursor, followed by the quota wait. Otherwise the turn ends with that reply's error. |
| `Paging.WalkEndsAt` | pkg/octo-reports/repo.go:139-143 | When the upstream ends the walk at page n, the walk is exactly pages 0..n: no request follows the last page. |
| `Paging.FetchComplete` | pkg/octo-reports/repo.go:84-144 | When the walk ends at page n, its outcome is that of processing the nodes of pages 0..n in page-then-node order. On success its trace is exactly the pages' events, interleaved with their nodes' events. |
| `Paging.FetchSucceedsOnlyIfEnds` | pkg/octo-reports/repo.go:139-141 | A fetch that succeeds has reached a page without a next page. |
| `Paging.EndsAtUnique` | pkg/octo-reports/team.go:79-83 | Only one page can end a walk. |
| `Paging.WalkStopsAt` | pkg/octo-reports/repo.go:85-88 | A reply that the walk reaches but cannot serve makes the fetch fail; no partial list is returned. When the earlier nodes were processed without error, the failure is that reply's own error. |
| `Paging.PureFetch` | pkg/octo-reports/packages.go:44-67 | For a fetch whose per-node work makes no request, two things hold. It succeeds exactly when the upstream ends the walk. It then returns the flattened records of pages 0..n, with exactly the pages' requests and waits as its trace. |
| `Paging.NoQuotaCheckRequests` | pkg/octo-reports/org.go:32-68 | A query without a `rateLimit` block makes exactly one request per page, carrying the chained cursors, and never waits. |
| `Paging.RequestCursors` | pkg/octo-reports/packages.go:25-66 | The cursors of the requests are, in order, nil and then each earlier page's `endCursor`, whatever waits come between them. |
| `Paging.FanOutResult` | pkg/octo-reports/team.go:63-77 | For a fetch that runs a nested fetch per node, when the walk ends at page n: it succeeds exactly when every node's nested work does, and then returns their records in page-then-node order. |
| `Paging.WalkAvoids` | pkg/octo-reports/repo.go:98-118 | A walk whose per-node work never touches a scope never touches it either, provided its own scope differs. |
| `Paging.FanOutOwnTrace` | pkg/octo-reports/team.go:50-83 | When the nested fetches stay out of the outer scope, the outer scope's events are exactly the outer pages' requests and waits, with nested requests interleaved elsewhere. |
| `Paging.WalkMapped` | pkg/org/org.go:55-65 | Two fetches with the same queries, whose per-node records differ by a function `g`, fail alike and make the same requests. On success their results differ by `g`, record by record. |
| `Reports.HeadedOutcome` | pkg/octo-reports/team.go:166-207 | Applies to a report with a header, a list of parents, one fetch per parent and rows per parent record. The report starts with the header, and every row has the header's width. It runs to the end exactly when the parents and every parent's fetch succeed. It then holds the rows of every parent in fetched order. |
| `Reports.EachParentAborted` | pkg/octo-reports/team.go:180-183 | When the per-parent loop ends early, it is at the first parent whose fetch failed, with that fetch's error. The rows written are exactly those of the parents before it. |
| `Reports.EachParentMapped` | pkg/org/org.go:98-118 | Two reports over the same parents give the same result when their fetches differ by `g` and the row builders agree once `g` is applied. |
| `Reports.ListedOutcome` | pkg/repo/repo.go:196-226 | Applies to a report of one fetch with a header written first. The report starts with the header, and every row has its width when the row builder keeps to it. It completes exactly when the fetch succeeds, and then holds one row per item in order. Otherwise it holds only the header and ends with the fetch's error. |
| `Reports.SplitByRole` | pkg/octo-reports/org.go:103-110 | The loop's `admins` is the `login + ", "` entries of the members its test accepts, in order; `members` is the entries of all the others. |
| `Reports.SplitByRoleIsPartition` | pkg/octo-reports/org.go:105-109 | Every member lands in exactly one of the two columns, as often as it occurs. Admins are exactly the accepted ones. |
| `Common.Collect` | pkg/octo-reports/team.go:187-191 | The append loop that collects one text per record returns exactly those texts in order. |
| `Common.BoolText` | pkg/octo-reports/repo.go:259-260 | `%t` gives "true" exactly for true and "false" exactly for false. |
| `Common.BracketedRoundTrip` | pkg/octo-reports/team.go:199 | The `%v` rendering of a list of texts reads back as that list when no text is empty or holds a space. |
| `Common.NatToStringRoundTrip` | pkg/octo-reports/repo.go:380 | The `%d` rendering of a database id reads back as that id. |
| `OctoEnterprise.GetEnterpriseOrgs` | pkg/octo-reports/enterprise.go:13-61 | The loop returns `OrgsOfEnterprise`. |
| `OctoEnterprise.EnterpriseOrgsOutcome` | pkg/octo-reports/enterprise.go:38-55 | When the walk ends at page n, the fetch returns one Org per node of pages 0..n, login and id copied, in order. It makes exactly n + 1 requests with the chained cursors and never waits. An unservable reply ends it with that reply's error. |
| `OctoEnterprise.GetEnterpriseMembers` | pkg/octo-reports/enterprise.go:63-120 | The loop returns `MembersOfEnterprise`. |
| `OctoEnterprise.EnterpriseMembersOutcome` | pkg/octo-reports/enterprise.go:77-113 | When the walk ends, the fetch returns one Member per node in order. Login, name and id are the node's own, for an enterprise user account and for a plain User alike: the client fills the account fragment the code reads from the User fragment's fields too. It makes exactly one request per page and never waits. An unservable reply ends it with that reply's error. |
| `OctoEnterprise.GenerateEnterpriseMembershipReport` | pkg/octo-reports/enterprise.go:122-148 | The row loop writes `MembershipReport`. |
| `OctoEnterprise.MembershipReportRows` | pkg/octo-reports/enterprise.go:134-143 | The header `[Login, Name, Id]` comes first. A failed fetch leaves only the header. A completed walk gives one `[login, name, id]` row per member node, in order. |
| `OctoOrg.GetOrgMembersWithRole` | pkg/octo-reports/org.go:25-75 | The loop returns `MembersWithRole`. |
| `OctoOrg.MembersWithRoleOutcome` | pkg/octo-reports/org.go:52-68 | When the walk ends at page n, the fetch returns one Member per edge of pages 0..n, in order, with the node's login and the edge's role. It makes exactly n + 1 requests with the chained cursors and never waits. An unservable reply ends it with that reply's error. |
| `OctoOrg.GenerateOrgMembershipReport` | pkg/octo-reports/org.go:77-121 | The loop over organizations, with the role split, writes `OrgMembershipReport`. |
| `OctoOrg.OrgMembershipReportRows` | pkg/octo-reports/org.go:87-111 | The report has the 4-column header and 4-field rows. It runs to the end exactly when the organizations and every organization's members are fetched. It then holds exactly one row per organization, in fetched order: `[login, id, admins, members]` of that organization's members. |
| `OctoOrg.OneRowPerOrg` | pkg/octo-reports/org.go:98-111 | Each organization contributes exactly one row, its own. |
| `OctoTeam.GetTeamMembers` | pkg/octo-reports/team.go:92-153 | The loop returns `TeamMembersOf`. |
| `OctoTeam.TeamMembersOutcome` | pkg/octo-reports/team.go:114-144 | When the walk ends, the fetch returns the first matched team's member logins of every page, in order. The events of each page are its request, then a one-minute sleep exactly when fewer than 100 points remain. A reply in which no team matched the slug ends the fetch with TeamNotFound. |
| `OctoTeam.GetOrgTeams` | pkg/octo-reports/team.go:23-90 | The page loop, handing each page's nodes to `ProcessTeamPage`, returns `OrgTeamsOf`. |
| `OctoTeam.ProcessTeamPage` | pkg/octo-reports/team.go:63-77 | The node loop of one page, after the teams and events so far, is the walk's work on that page's nodes. It stops at the first failed members fetch. Otherwise it appends each node's team, with its members, in order. |
| `OctoTeam.MembersAvoidTeams` | pkg/octo-reports/team.go:63-67 | The members fetch of a team never touches the teams scope. |
| `OctoTeam.OrgTeamsOutcome` | pkg/octo-reports/team.go:58-83 | When the walk ends at page n, the fetch succeeds exactly when every team's members fetch does. It then returns one Team per node of pages 0..n, in order, with id, name, slug and description copied and that team's members. The teams scope sees one request per page with the chained cursors. Each is followed by a one-minute sleep exactly when fewer than 100 points remain. |
| `OctoTeam.OrgTeamsStopsAt` | pkg/octo-reports/team.go:51-67 | A teams reply the fetch cannot serve makes it fail. When every team on the earlier pages had its members fetched, the error is that reply's. |
| `OctoTeam.GenerateTeamReport` | pkg/octo-reports/team.go:155-210 | The loops over organizations and teams write `TeamReport`. |
| `OctoTeam.WriteTeams` | pkg/octo-reports/team.go:185-206 | The rows of one organization are one row per team, in order. |
| `OctoTeam.TeamReportRows` | pkg/octo-reports/team.go:166-200 | The report has the 6-column header and 6-field rows. It runs to the end exactly when the organizations and every organization's teams are fetched. It then holds, organization by organization, one row per team. |
| `OctoTeam.MembersColumnRoundTrip` | pkg/octo-reports/team.go:187-199 | The members column reads back as the team's logins in order. |
| `OctoRepo.GetTeamsRoleForRepo` | pkg/octo-reports/repo.go:152-219 | The loop returns `TeamsRoleForRepo`. |
| `OctoRepo.TeamsRoleOutcome` | pkg/octo-reports/repo.go:193-207 | When the walk ends, the fetch returns, in order, one Team per team node that has an edge, and none for the others. The events of each page are its request, then a wait until `resetAt` exactly when fewer than 100 points remain. |
| `OctoRepo.TeamRoleKeepsEdged` | pkg/octo-reports/repo.go:198-207 | A team node is kept exactly when it has an edge. The kept team is named by the team's slug and carries the edge's permission. |
| `OctoRepo.GetOrgRepos` | pkg/octo-reports/repo.go:43-150 | The page loop, handing each page's nodes to `ProcessRepoPage` with or without the teams fetch, returns `OrgReposOf`. |
| `OctoRepo.ProcessRepoPage` | pkg/octo-reports/repo.go:96-137 | The node loop of one page, after the repositories and events so far, is the walk's work on that page's nodes. It stops at the first failed teams fetch. Otherwise it appends each node's repository in order. |
| `OctoRepo.ProcessRepoNode` | pkg/octo-reports/repo.go:96-136 | The work on one repository node is the walk's per-node step. With `getTeams`, its teams are fetched and a failure ends the fetch. Without it, the repository is recorded with no teams and no request. |
| `OctoRepo.TeamsAvoidRepos` | pkg/octo-reports/repo.go:98-100 | The teams fetch of a repository never touches the repositories scope. |
| `OctoRepo.OrgReposOutcome` | pkg/octo-reports/repo.go:84-144 | With `getTeams`, when the walk ends at page n, the fetch succeeds exactly when every repository's teams fetch does. It then returns one Repo per node, in order, with scalars copied, topic names in order and that repository's teams. The repositories scope sees one request per page with the chained cursors. Each is followed by a wait until `resetAt` exactly when fewer than 100 points remain. |
| `OctoRepo.OrgReposStopsAt` | pkg/octo-reports/repo.go:84-100 | With `getTeams`, a repositories reply the fetch cannot serve makes it fail. When every repository on the earlier pages had its teams fetched, the error is that reply's. |
| `OctoRepo.OrgReposWithoutTeams` | pkg/octo-reports/repo.go:119-136 | Without `getTeams`, the fetch succeeds exactly when the walk ends. It returns one Repo with no teams per node, in order, and makes no other request. |
| `OctoRepo.GetRepoCollaborators` | pkg/octo-reports/repo.go:279-346 | The loop returns `CollaboratorsOfRepo`. |
| `OctoRepo.CollaboratorsOutcome` | pkg/octo-reports/repo.go:321-334 | When the walk ends, the fetch returns one Collaborator per edge, in order. The permission comes from the edge; login, name, email and database id come from the node. The events of each page are its request, then the quota wait. |
| `OctoRepo.GenerateRepoReport` | pkg/octo-reports/repo.go:221-277 | The loops over organizations and repositories write `RepoReport`. |
| `OctoRepo.WriteRepos` | pkg/octo-reports/repo.go:248-271 | The rows of one organization are one row per repository, in order. |
| `OctoRepo.RepoReportRows` | pkg/octo-reports/repo.go:232-265 | The report has the 10-column header and 10-field rows. It runs to the end exactly when the organizations and their repositories with teams are fetched. It then holds, organization by organization, one row per repository. |
| `OctoRepo.RepoRowReadsBack` | pkg/octo-reports/repo.go:249-264 | The archived and fork columns read "true" exactly when the flag is set. The teams column reads back as the `name:role` labels in order. Each label splits back into the team's name and role. |
| `OctoRepo.TeamLabelSplits` | pkg/octo-reports/repo.go:251 | A `name:role` label splits at its colon into name and role. |
| `OctoRepo.GenerateCollaboratorReport` | pkg/octo-reports/repo.go:348-400 | The loop over repositories writes `CollaboratorReport`. |
| `OctoRepo.CollaboratorReportRows` | pkg/octo-reports/repo.go:359-389 | The report has the 5-column header and 5-field rows. The repositories are fetched without teams. It runs to the end exactly when the repositories and every repository's collaborators are fetched. It then holds exactly one row per repository, in order, listing its collaborators. |
| `OctoRepo.OneRowPerRepo` | pkg/octo-reports/repo.go:372-389 | Each repository contributes exactly one row, its own. |
| `OctoRepo.CollaboratorLabelReadsBack` | pkg/octo-reports/repo.go:380 | An `id:name:email:login:permission` label splits back into its five parts, and its first part reads back as the database id. |
| `OctoPackages.GetPackages` | pkg/octo-reports/packages.go:21-71 | The loop returns `PackagesOf`. |
| `OctoPackages.PackagesOutcome` | pkg/octo-reports/packages.go:51-66 | When the walk ends at page n, the fetch returns one Package per node, in order, with name and repository copied and an empty id. Its trace is the requests with the chained cursors, each followed by a wait until `resetAt` exactly when fewer than 100 points remain. An unservable reply ends it with that reply's error. |
| `OctoPackages.GenerateOrgPackageReport` | pkg/octo-reports/packages.go:73-93 | The row loop writes `PackageReport`. |
| `OctoPackages.PackageReportRows` | pkg/octo-reports/packages.go:74-92 | A failed fetch leaves no output at all. A completed walk gives the header `[Package Name, Repository Name]`, then one `[name, repository]` row per package node, in order. |
| `LegacyEnterprise.GetEnterpriseOrgs` | pkg/enterprise/enterprise.go:25-74 | The legacy loop returns exactly the live `OrgsOfEnterprise`. |
| `LegacyEnterprise.GetEnterpriseMembers` | pkg/enterprise/enterprise.go:76-131 | The loop returns `MembersOfEnterprise`. |
| `LegacyEnterprise.EnterpriseMembersOutcome` | pkg/enterprise/enterprise.go:113-124 | When the walk ends, the fetch returns one Member per node, in order: the account's id and login and its user's name, or empty for a plain User. It makes exactly one request per page with the chained cursors. |
| `LegacyEnterprise.GenerateEnterpriseMembershipReport` | pkg/enterprise/enterprise.go:133-159 | The row loop writes `MembershipReport`. |
| `LegacyEnterprise.MembershipReportRows` | pkg/enterprise/enterprise.go:145-154 | The header `[Login, Name, Id]` comes first. A failed fetch leaves only the header. A completed walk gives one row per member node, in order. |
| `LegacyEnterprise.RowAgainstLive` | pkg/enterprise/enterprise.go:91-119 | For an enterprise user account, the legacy and live rows agree on login and id. They differ only in the name: this variant writes the user's name, the live one the account's name. For a plain User, this variant writes three empty fields and the live one writes the user's login, name and id. |
| `LegacyOrg.GetOrgMembersWithRole` | pkg/org/org.go:21-72 | The loop returns `MembersWithRole`. |
| `LegacyOrg.MembersAgainstLive` | pkg/org/org.go:55-65 | The legacy fetch makes the live fetch's requests and fails when and how it fails. It returns the live members' logins and roles in the same order. |
| `LegacyOrg.GenerateMembershipReport` | pkg/org/org.go:74-121 | The loop, returning at the first error and keeping the rows written so far, writes `MembershipReport`. |
| `LegacyOrg.MembershipReportAgainstLive` | pkg/org/org.go:98-118 | The legacy organization membership report is the live one: the same rows, the same outcome and the same requests. |
| `LegacyOrg.RowAgainstLive` | pkg/org/org.go:104-117 | For the same members, the legacy row of an organization equals the live row. |
| `LegacyTeam.GetTeamMembers` | pkg/team/team.go:106-161 | The loop returns `TeamMembersOf`. |
| `LegacyTeam.TeamMembersOutcome` | pkg/team/team.go:136-152 | When the walk ends at page n, the fetch returns the first matched team's logins, in order, after exactly n + 1 requests with the chained cursors and no waits. A reply in which no team matched the slug ends it with TeamNotFound. |
| `LegacyTeam.GetOrgTeams` | pkg/team/team.go:28-104 | The page loop, handing each page's nodes to `ProcessTeamPage`, returns `OrgTeamsOf`. |
| `LegacyTeam.ProcessTeamPage` | pkg/team/team.go:77-91 | The node loop of one page, after the teams and events so far, is the walk's work on that page's nodes. It stops at the first failed members fetch. Otherwise it appends each node's team, with its members, in order. |
| `LegacyTeam.MembersAvoidTeams` | pkg/team/team.go:77-82 | The members fetch of a team never touches the teams scope. |
| `LegacyTeam.OrgTeamsOutcome` | pkg/team/team.go:62-97 | When the walk ends, the fetch succeeds exactly when every team's members fetch does. It then returns one Team per node, in order, with that team's members. The teams scope sees one request per page and no wait. |
| `LegacyTeam.OrgTeamsStopsAt` | pkg/team/team.go:62-82 | A teams reply the fetch cannot serve makes it fail. When every team on the earlier pages had its members fetched, the error is that reply's. |
| `LegacyTeam.GenerateTeamReport` | pkg/team/team.go:163-218 | The loops over organizations and teams write `TeamReport`. |
| `LegacyTeam.WriteTeams` | pkg/team/team.go:193-213 | The rows of one organization are one row per team, in order. |
| `LegacyTeam.TeamReportRows` | pkg/team/team.go:174-208 | The report has the 6-column header and 6-field rows. It runs to the end exactly when every fetch succeeds. It then holds, organization by organization, one row per team. |
| `LegacyRepo.GetTeamsRoleForRepo` | pkg/repo/repo.go:123-183 | The loop returns `TeamsRoleForRepo`. |
| `LegacyRepo.TeamsRoleOutcome` | pkg/repo/repo.go:156-176 | When the walk ends at page n, the fetch returns, in order, one Team per team node with an edge, carrying the edge's repository name and permission. It makes exactly n + 1 requests with the chained cursors and no waits. |
| `LegacyRepo.TeamNameIsRepoName` | pkg/repo/repo.go:164-169 | As written, a kept team's name is the repository's name. Two teams with the same permission on one repository therefore get the same label. |
| `LegacyRepo.TeamLabelLosesTeam` | pkg/repo/repo.go:167 | Teams "core" and "ops", both with WRITE on "api", are both labelled "api:WRITE". |
| `LegacyRepo.CorrectedLabelKeepsTeam` | pkg/octo-reports/repo.go:203 | With the slug as the name, equal labels mean the same team and the same permission. |
| `LegacyRepo.GetOrgRepos` | pkg/repo/repo.go:41-121 | The page loop, handing each page's nodes to `ProcessRepoPage`, returns `OrgReposOf`. |
| `LegacyRepo.ProcessRepoPage` | pkg/repo/repo.go:88-109 | The node loop of one page, after the repositories and events so far, is the walk's work on that page's nodes. It stops at the first failed teams fetch. Otherwise it appends each node's repository, with its teams and topic names, in order. |
| `LegacyRepo.TeamsAvoidRepos` | pkg/repo/repo.go:88-90 | The teams fetch of a repository never touches the repositories scope. |
| `LegacyRepo.OrgReposOutcome` | pkg/repo/repo.go:82-115 | When the walk ends, the fetch succeeds exactly when every teams fetch does. It then returns one Repo per node, in order, with topic names in order and that repository's teams. The repositories scope sees one request per page and no wait. |
| `LegacyRepo.OrgReposStopsAt` | pkg/repo/repo.go:82-90 | A repositories reply the fetch cannot serve makes it fail. When every repository on the earlier pages had its teams fetched, the error is that reply's. |
| `LegacyRepo.GenerateRepoReport` | pkg/repo/repo.go:185-237 | The row loop writes `RepoReport` for one organization. |
| `LegacyRepo.WriteRepos` | pkg/repo/repo.go:209-226 | The rows are one row per repository, in order. |
| `LegacyRepo.RepoReportRows` | pkg/repo/repo.go:196-226 | The 10-column header comes first, and every row has 10 fields. The report completes exactly when the repositories are fetched. It then holds one row per repository in order. Otherwise it holds only the header and ends with the fetch's error. |

## Left out

- The GraphQL client and the query shapes are not modelled. Each scope's replies are given as data, with a reply standing for the query result of one request. The search semantics of the `query:` arguments (team slug, repository name) are the server's. The model takes the reply as given: the matched teams of a slug, the edge or edges of a repository name.
- `internal/client/client.go`, `pkg/octo-reports/client.go` `NewV4Client`/`NewV3Client`, and the per-call client and token of the legacy variants are not part of this model. Only the `RateLimit` record shape is used.
- `pkg/octo-reports/login.go` (the OAuth device flow) and `octo-reports.go` (subcommands, flags, configuration) are not part of this model.
- Time is left out. `time.Now`/`time.Since` logging is dropped. Sleeping is recorded as a `WaitUntil(resetAt)` or `Sleep(60)` event, not performed. A reset time in the past is still recorded as a wait.
- Timestamps (`createdAt`, `pushedAt`, `resetAt`) are opaque texts. The RFC 3339 rendering of the timestamps is not modelled.
- The database id is an unbounded natural, not a 64-bit integer, rendered in decimal.
- CSV files, quoting, buffering and flushing are not modelled; a report is the sequence of rows written. Errors of file creation, header writing and record writing are not modelled. Some live reports go on after a failed create, others panic, and the legacy organization report returns.
- A failure is not a panic. `panic`, `log.Fatal` and the legacy early return all become the `Aborted` outcome, keeping the rows written before it. A panic runs the deferred flush. `log.Fatal` after a fetch can never happen, because the fetchers panic before returning an error.
- The `log`/`fmt.Println` diagnostics are not modelled.
- Go's nil and empty slices both print as `[]` and are the same empty sequence here.
- The live `GenerateRepoReport` discards the error of `getEnterpriseOrgs`. That fetcher never returns one (it panics), so the model aborts the report as the panic does.
- Both variants of `getOrgRepos` discard the error of `getTeamsRoleForRepo`, which likewise never returns one: it panics, and the model ends the fetch with that failure.
- The code indexes `Nodes[0]` of the team match without a check. The model turns the runtime panic when no team matches the slug into the `TeamNotFound` failure.
- `OctoEnterprise.EnterpriseMembersOutcome`, `OctoPackages.PackageReportRows`, `LegacyEnterprise.MembershipReportRows` and the other outcome lemmas describe the result when the upstream ends the walk. They describe when a reply cannot be served. They say nothing about an upstream whose replies keep announcing a next page until they run out. That case fails with `NoReply`, which the lemmas cover only through `Continues`/`Served`.

## Findings

| source | as written | input that shows it | evidently intended | confidence | as-written member | corrected member |
|---|---|---|---|---|---|---|
| pkg/repo/repo.go:167 | A team with a role on the repository is recorded with `Name` set to the name of the repository on its edge, not the name of the team, so the report's teams column says `repo:permission` for every team. | Teams "core" and "ops" both hold WRITE on repository "api": the teams column is `[api:WRITE api:WRITE]`, and which teams have access is lost. | The team's own identity as the name; the live variant writes the team's slug (pkg/octo-reports/repo.go:203). | not executed; the live variant's change to the slug supports it | `LegacyRepo.TeamLabelLosesTeam` | `LegacyRepo.CorrectedLabelKeepsTeam` |
