/**
 * The aggregator: for every repository in the list, its commits (the
 * canonical repository's unfiltered, every other repository's minus the
 * canonical shas), then its opened pull requests, opened issues, issue
 * comments and review comments, concatenated in list order.
 */
module Aggregation {
  import opened Wrappers
  import opened GitHub
  import opened Pagination
  import opened DisplayNames
  import opened Events
  import opened Dedup
  import opened Extractors

  /** The repository whose commits are authoritative; mirrors are deduplicated against it. */
  const Canonical: string := "apache/arrow"

  /** The five list endpoints of every repository. */
  datatype Api = Api(
    commits: string -> PageOracle<CommitItem>,
    pulls: string -> PageOracle<ActivityItem>,
    issues: string -> PageOracle<ActivityItem>,
    issueComments: string -> PageOracle<ActivityItem>,
    reviewComments: string -> PageOracle<ActivityItem>)

  /** Every endpoint the aggregator paginates for `repos` ends its pagination. */
  ghost predicate Serves(api: Api, repos: seq<string>)
  {
    forall repo :: repo in repos ==>
      && (repo != Canonical ==> Terminates(api.commits(repo)))
      && Terminates(api.pulls(repo))
      && Terminates(api.issues(repo))
      && Terminates(api.issueComments(repo))
      && Terminates(api.reviewComments(repo))
  }

  lemma ServesPrefix(api: Api, repos: seq<string>, n: nat)
    requires Serves(api, repos) && n <= |repos|
    ensures Serves(api, repos[..n])
  {
    forall repo | repo in repos[..n] ensures repo in repos {
    }
  }

  /** The commit rows a repository contributes. */
  ghost function RepoCommitRows(repo: string, canonicalCommits: seq<Event>, api: Api, profileOf: ProfileOracle): (rows: seq<Event>)
    requires Serves(api, [repo])
  {
    if repo != Canonical
    then FilterDuplicateCommits(canonicalCommits, CommitRows(repo, Paginated(api.commits(repo)), profileOf))
    else canonicalCommits
  }

  /** Everything one repository contributes, in the aggregator's order. */
  ghost function RepoRows(repo: string, canonicalCommits: seq<Event>, api: Api, profileOf: ProfileOracle): (rows: seq<Event>)
    requires Serves(api, [repo])
  {
    RepoCommitRows(repo, canonicalCommits, api, profileOf)
    + ActivityRows(PullRequestOpened, repo, Paginated(api.pulls(repo)), profileOf)
    + IssueRows(repo, Paginated(api.issues(repo)), profileOf)
    + ActivityRows(IssueComment, repo, Paginated(api.issueComments(repo)), profileOf)
    + ActivityRows(PullRequestComment, repo, Paginated(api.reviewComments(repo)), profileOf)
  }

  /** The rows of all repositories, in list order. */
  ghost function AllRows(repos: seq<string>, canonicalCommits: seq<Event>, api: Api, profileOf: ProfileOracle): (rows: seq<Event>)
    requires Serves(api, repos)
    decreases |repos|
  {
    if repos == [] then []
    else
      ServesPrefix(api, repos, |repos| - 1);
      AllRows(repos[..|repos| - 1], canonicalCommits, api, profileOf)
      + RepoRows(repos[|repos| - 1], canonicalCommits, api, profileOf)
  }

  /** The cached logins after one repository's extractors ran, starting from `known`. */
  ghost function KnownAfterRepo(known: set<string>, repo: string, api: Api): (logins: set<string>)
    requires Serves(api, [repo])
  {
    known
    + (if repo != Canonical then CommitUsers(Paginated(api.commits(repo))) else {})
    + ActivityUsers(Paginated(api.pulls(repo)))
    + ActivityUsers(Seqs.Filter(Paginated(api.issues(repo)), IsIssue))
    + ActivityUsers(Paginated(api.issueComments(repo)))
    + ActivityUsers(Paginated(api.reviewComments(repo)))
  }

  /** The cached logins after the whole list was processed, starting from `known`. */
  ghost function KnownAfter(known: set<string>, repos: seq<string>, api: Api): (logins: set<string>)
    requires Serves(api, repos)
    decreases |repos|
  {
    if repos == [] then known
    else
      ServesPrefix(api, repos, |repos| - 1);
      KnownAfterRepo(KnownAfter(known, repos[..|repos| - 1], api), repos[|repos| - 1], api)
  }

  /** The body of the aggregator's loop: everything one repository contributes. */
  method CollectRepo(repo: string, arrowCommits: seq<Event>, api: Api, names: Resolver) returns (rows: seq<Event>)
    requires Serves(api, [repo]) && names.Valid()
    modifies names
    ensures names.Valid()
    ensures old(names.lookups) <= names.lookups
    ensures rows == RepoRows(repo, arrowCommits, api, names.profileOf)
    ensures names.cache.Keys == KnownAfterRepo(old(names.cache.Keys), repo, api)
  {
    assert repo in [repo];
    ghost var known := names.cache.Keys;
    if repo != Canonical {
      var commits := FetchCommits(repo, api.commits(repo), names);
      // drop the commits already counted under the canonical repository
      var commitsFiltered := FilterDuplicateCommits(arrowCommits, commits);
      rows := commitsFiltered;
    } else {
      rows := arrowCommits;
      assert known + {} == known;
    }
    assert names.cache.Keys == known + (if repo != Canonical then CommitUsers(Paginated(api.commits(repo))) else {});
    var pulls := FetchPullRequests(repo, api.pulls(repo), names);
    rows := rows + pulls;
    var issues := FetchIssues(repo, api.issues(repo), names);
    rows := rows + issues;
    var comments := FetchIssueComments(repo, api.issueComments(repo), names);
    rows := rows + comments;
    var reviews := FetchPullReviews(repo, api.reviewComments(repo), names);
    rows := rows + reviews;
  }

  /** `collect_data`, before the rows become a table. */
  method CollectData(repos: seq<string>, arrowCommits: seq<Event>, api: Api, names: Resolver) returns (allData: seq<Event>)
    requires Serves(api, repos) && names.Valid()
    modifies names
    ensures names.Valid()
    ensures old(names.lookups) <= names.lookups
    ensures allData == AllRows(repos, arrowCommits, api, names.profileOf)
    ensures names.cache.Keys == KnownAfter(old(names.cache.Keys), repos, api)
  {
    allData := [];
    for i := 0 to |repos|
      invariant names.Valid()
      invariant old(names.lookups) <= names.lookups
      invariant Serves(api, repos[..i])
      invariant allData == AllRows(repos[..i], arrowCommits, api, names.profileOf)
      invariant names.cache.Keys == KnownAfter(old(names.cache.Keys), repos[..i], api)
    {
      var repo := repos[i];
      assert repos[..i + 1][..i] == repos[..i] && repos[..i + 1][i] == repo;
      assert repo in repos;
      ServesPrefix(api, repos, i + 1);
      var rows := CollectRepo(repo, arrowCommits, api, names);
      allData := allData + rows;
    }
    assert repos[..|repos|] == repos;
  }

  lemma ActivityRowsBelong(kind: ActionType, repo: string, items: seq<ActivityItem>, profileOf: ProfileOracle)
    ensures forall e :: e in ActivityRows(kind, repo, items, profileOf) ==> e.repository == repo && e.actionType == kind
  {
    var rows := ActivityRows(kind, repo, items, profileOf);
    forall e | e in rows ensures e.repository == repo && e.actionType == kind {
      var i :| 0 <= i < |rows| && rows[i] == e;
    }
  }

  /** Only commit-part rows of a repository are commits; the rest carry that repository. */
  lemma RepoRowsShape(repo: string, canonicalCommits: seq<Event>, api: Api, profileOf: ProfileOracle)
    requires Serves(api, [repo])
    ensures forall e :: e in RepoRows(repo, canonicalCommits, api, profileOf) ==>
              || e in RepoCommitRows(repo, canonicalCommits, api, profileOf)
              || (e.repository == repo && e.actionType != Commit)
  {
    var pulls := ActivityRows(PullRequestOpened, repo, Paginated(api.pulls(repo)), profileOf);
    var issues := IssueRows(repo, Paginated(api.issues(repo)), profileOf);
    var comments := ActivityRows(IssueComment, repo, Paginated(api.issueComments(repo)), profileOf);
    var reviews := ActivityRows(PullRequestComment, repo, Paginated(api.reviewComments(repo)), profileOf);
    ActivityRowsBelong(PullRequestOpened, repo, Paginated(api.pulls(repo)), profileOf);
    ActivityRowsBelong(IssueOpened, repo, Seqs.Filter(Paginated(api.issues(repo)), IsIssue), profileOf);
    ActivityRowsBelong(IssueComment, repo, Paginated(api.issueComments(repo)), profileOf);
    ActivityRowsBelong(PullRequestComment, repo, Paginated(api.reviewComments(repo)), profileOf);
    assert RepoRows(repo, canonicalCommits, api, profileOf)
      == RepoCommitRows(repo, canonicalCommits, api, profileOf) + pulls + issues + comments + reviews;
  }

  /**
   * No commit row of a repository other than the canonical one has a sha that
   * occurs among the canonical commits.
   */
  lemma {:induction false} MirrorCommitsDeduplicated(repos: seq<string>, canonicalCommits: seq<Event>, api: Api, profileOf: ProfileOracle)
    requires Serves(api, repos)
    requires forall c :: c in canonicalCommits ==> c.repository == Canonical
    ensures forall e :: e in AllRows(repos, canonicalCommits, api, profileOf) && e.actionType == Commit && e.repository != Canonical ==>
              e.sha !in ShaSet(canonicalCommits)
    decreases |repos|
  {
    if repos != [] {
      var init, repo := repos[..|repos| - 1], repos[|repos| - 1];
      ServesPrefix(api, repos, |repos| - 1);
      assert repo in repos;
      MirrorCommitsDeduplicated(init, canonicalCommits, api, profileOf);
      RepoRowsShape(repo, canonicalCommits, api, profileOf);
    }
  }

  /** Every canonical commit row is in the result when the canonical repository is listed. */
  lemma {:induction false} CanonicalCommitsIncluded(repos: seq<string>, canonicalCommits: seq<Event>, api: Api, profileOf: ProfileOracle)
    requires Serves(api, repos) && Canonical in repos
    ensures forall c :: c in canonicalCommits ==> c in AllRows(repos, canonicalCommits, api, profileOf)
    decreases |repos|
  {
    var init, repo := repos[..|repos| - 1], repos[|repos| - 1];
    ServesPrefix(api, repos, |repos| - 1);
    assert repos == init + [repo];
    assert repo in repos;
    if repo == Canonical {
      assert RepoCommitRows(repo, canonicalCommits, api, profileOf) == canonicalCommits;
    } else {
      assert Canonical in init;
      CanonicalCommitsIncluded(init, canonicalCommits, api, profileOf);
    }
  }

  /** Every row belongs to a listed repository. */
  lemma {:induction false} RowsBelongToListedRepos(repos: seq<string>, canonicalCommits: seq<Event>, api: Api, profileOf: ProfileOracle)
    requires Serves(api, repos)
    requires forall c :: c in canonicalCommits ==> c.repository == Canonical
    ensures forall e :: e in AllRows(repos, canonicalCommits, api, profileOf) ==> e.repository in repos
    decreases |repos|
  {
    if repos != [] {
      var init, repo := repos[..|repos| - 1], repos[|repos| - 1];
      ServesPrefix(api, repos, |repos| - 1);
      assert repos == init + [repo];
      assert repo in repos;
      RowsBelongToListedRepos(init, canonicalCommits, api, profileOf);
      RepoRowsShape(repo, canonicalCommits, api, profileOf);
      forall e | e in RepoCommitRows(repo, canonicalCommits, api, profileOf) ensures e.repository == repo {
        if repo != Canonical {
          var rows := CommitRows(repo, Paginated(api.commits(repo)), profileOf);
          assert e in rows;
          var i :| 0 <= i < |rows| && rows[i] == e;
        }
      }
    }
  }
}
