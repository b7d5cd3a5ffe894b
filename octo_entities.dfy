/** The records the live package (pkg/octo-reports) builds from the query
    results. They are declared in several of its files and used across them
    (an `Org` of org.go by enterprise.go, a `Team` of team.go by repo.go), so
    they are gathered here. Timestamps are kept as opaque text. */
module OctoEntities {
  import opened Upstream

  /** org.go, type Org. */
  datatype Org = Org(login: string, id: string)

  /** org.go, type Member; each fetcher fills some of its fields and leaves
      the others empty. */
  datatype Member = Member(id: string, name: string, login: string, role: string)

  function LoginOf(m: Member): string
  {
    m.login
  }

  /** team.go, type Team. */
  datatype Team = Team(id: string, name: string, slug: string, description: string, role: string,
                       members: seq<Member>)

  /** repo.go, type Repo. */
  datatype Repo = Repo(name: string, visibility: string, isArchived: bool, isFork: bool, id: string,
                       pushedAt: Timestamp, createdAt: Timestamp, owner: string,
                       topics: seq<string>, teams: seq<Team>)

  /** repo.go, type Collaborator. */
  datatype Collaborator = Collaborator(permission: string, login: string, name: string, email: string,
                                       databaseId: nat)

  /** packages.go, type Package; `repositoryName` is its Repository.Name. */
  datatype Package = Package(name: string, id: string, repositoryName: string)
}
