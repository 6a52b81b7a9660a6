/**
 * The records the profile pages work on. Timestamps are whole milliseconds
 * since the epoch; the creation date is kept as the calendar year and month
 * its local-time reading gives.
 */
module Types {
  import opened Wrappers

  /** A repository as the GitHub REST API lists it for a user. */
  datatype Repo = Repo(
    name: string,
    description: Option<string>,
    topics: seq<string>,
    language: Option<string>,
    stars: nat,
    forks: nat,
    fork: bool,
    archived: bool,
    pushedAt: int,
    createdYear: int,
    createdMonth: nat)

  /** A labelled group of repositories shown as one card. */
  datatype Category = Category(title: string, emoji: string, repos: seq<Repo>)

  /** A repository outside the user's own that the user has committed to. */
  datatype ContributedRepo = ContributedRepo(nameWithOwner: string, url: string, stars: nat, commitCount: nat)

  /** The user's contributions to other repositories. */
  datatype ContributionsData = ContributionsData(
    totalCommits: nat,
    totalPullRequests: nat,
    totalIssues: nat,
    totalReposContributedTo: nat,
    topRepos: seq<ContributedRepo>)

  function RepoList(c: Category): seq<Repo> {
    c.repos
  }
}
