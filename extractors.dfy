/**
 * The five extractors: each paginates its endpoint and turns every raw item
 * into an event row, resolving display names through the shared resolver.
 */
module Extractors {
  import opened Wrappers
  import opened GitHub
  import opened Seqs
  import opened Pagination
  import opened DisplayNames
  import opened Events

  /** The body of the commit extractor's loop: one commit item to one row. */
  method CommitEvent(repo: string, commit: CommitItem, names: Resolver) returns (row: Event)
    requires names.Valid()
    modifies names
    ensures names.Valid()
    ensures old(names.lookups) <= names.lookups
    ensures row == CommitRow(repo, commit, names.profileOf)
    ensures names.cache.Keys == old(names.cache.Keys) + {Username(commit.author)}
  {
    var username := if commit.author.Some? then commit.author.value else Unknown;
    var displayName := names.FetchDisplayName(username);
    // a null or empty display name gives way to the git author name
    if Falsy(displayName) {
      displayName := Text(commit.authorName);
    }
    row := Event(Some(commit.sha), commit.date, username, displayName, Commit, repo);
  }

  /** The body of the non-commit extractors' loops: one item to one row, with no lookup for "Unknown". */
  method ActivityEvent(kind: ActionType, repo: string, item: ActivityItem, names: Resolver) returns (row: Event)
    requires names.Valid()
    modifies names
    ensures names.Valid()
    ensures old(names.lookups) <= names.lookups
    ensures row == ActivityRow(kind, repo, item, names.profileOf)
    ensures names.cache.Keys == old(names.cache.Keys) + (if Username(item.user) != Unknown then {Username(item.user)} else {})
  {
    var username := if item.user.Some? then item.user.value else Unknown;
    var displayName := Text(Unknown);
    if username != Unknown {
      displayName := names.FetchDisplayName(username);
    }
    row := Event(None, item.createdAt, username, displayName, kind, repo);
  }

  /** Commits: the resolver is always asked, "Unknown" included; the sha is kept for deduplication. */
  method FetchCommits(repo: string, respond: PageOracle<CommitItem>, names: Resolver) returns (commits: seq<Event>)
    requires Terminates(respond) && names.Valid()
    modifies names
    ensures names.Valid()
    ensures old(names.lookups) <= names.lookups
    ensures commits == CommitRows(repo, Paginated(respond), names.profileOf)
    ensures names.cache.Keys == old(names.cache.Keys) + CommitUsers(Paginated(respond))
  {
    var data, requests := FetchPaginatedData(respond);
    commits := [];
    for i := 0 to |data|
      invariant names.Valid()
      invariant old(names.lookups) <= names.lookups
      invariant commits == CommitRows(repo, data[..i], names.profileOf)
      invariant names.cache.Keys == old(names.cache.Keys) + CommitUsers(data[..i])
    {
      var commit := data[i];
      var row := CommitEvent(repo, commit, names);
      commits := commits + [row];
      PrefixStep(data, i);
      CommitRowsAppend(repo, data[..i], commit, names.profileOf);
      CommitUsersAppend(data[..i], commit);
    }
    assert data[..|data|] == data;
  }

  /**
   * The loop shared by the pull-request, issue-comment and review-comment
   * extractors: one row per item, and no lookup for "Unknown".
   */
  method ActivityEvents(kind: ActionType, repo: string, data: seq<ActivityItem>, names: Resolver) returns (rows: seq<Event>)
    requires names.Valid()
    modifies names
    ensures names.Valid()
    ensures old(names.lookups) <= names.lookups
    ensures rows == ActivityRows(kind, repo, data, names.profileOf)
    ensures names.cache.Keys == old(names.cache.Keys) + ActivityUsers(data)
  {
    rows := [];
    for i := 0 to |data|
      invariant names.Valid()
      invariant old(names.lookups) <= names.lookups
      invariant rows == ActivityRows(kind, repo, data[..i], names.profileOf)
      invariant names.cache.Keys == old(names.cache.Keys) + ActivityUsers(data[..i])
    {
      var item := data[i];
      var row := ActivityEvent(kind, repo, item, names);
      rows := rows + [row];
      PrefixStep(data, i);
      ActivityRowsAppend(kind, repo, data[..i], item, names.profileOf);
      ActivityUsersAppend(data[..i], item);
    }
    assert data[..|data|] == data;
  }

  method FetchIssueComments(repo: string, respond: PageOracle<ActivityItem>, names: Resolver) returns (comments: seq<Event>)
    requires Terminates(respond) && names.Valid()
    modifies names
    ensures names.Valid()
    ensures old(names.lookups) <= names.lookups
    ensures comments == ActivityRows(IssueComment, repo, Paginated(respond), names.profileOf)
    ensures names.cache.Keys == old(names.cache.Keys) + ActivityUsers(Paginated(respond))
  {
    var data, requests := FetchPaginatedData(respond);
    comments := ActivityEvents(IssueComment, repo, data, names);
  }

  method FetchPullReviews(repo: string, respond: PageOracle<ActivityItem>, names: Resolver) returns (reviews: seq<Event>)
    requires Terminates(respond) && names.Valid()
    modifies names
    ensures names.Valid()
    ensures old(names.lookups) <= names.lookups
    ensures reviews == ActivityRows(PullRequestComment, repo, Paginated(respond), names.profileOf)
    ensures names.cache.Keys == old(names.cache.Keys) + ActivityUsers(Paginated(respond))
  {
    var data, requests := FetchPaginatedData(respond);
    reviews := ActivityEvents(PullRequestComment, repo, data, names);
  }

  method FetchPullRequests(repo: string, respond: PageOracle<ActivityItem>, names: Resolver) returns (prEvents: seq<Event>)
    requires Terminates(respond) && names.Valid()
    modifies names
    ensures names.Valid()
    ensures old(names.lookups) <= names.lookups
    ensures prEvents == ActivityRows(PullRequestOpened, repo, Paginated(respond), names.profileOf)
    ensures names.cache.Keys == old(names.cache.Keys) + ActivityUsers(Paginated(respond))
  {
    var pulls, requests := FetchPaginatedData(respond);
    prEvents := ActivityEvents(PullRequestOpened, repo, pulls, names);
  }

  /** Issues: items carrying a `pull_request` key are skipped before any lookup. */
  method FetchIssues(repo: string, respond: PageOracle<ActivityItem>, names: Resolver) returns (issueEvents: seq<Event>)
    requires Terminates(respond) && names.Valid()
    modifies names
    ensures names.Valid()
    ensures old(names.lookups) <= names.lookups
    ensures issueEvents == IssueRows(repo, Paginated(respond), names.profileOf)
    ensures names.cache.Keys == old(names.cache.Keys) + ActivityUsers(Filter(Paginated(respond), IsIssue))
  {
    var issues, requests := FetchPaginatedData(respond);
    issueEvents := [];
    for i := 0 to |issues|
      invariant names.Valid()
      invariant old(names.lookups) <= names.lookups
      invariant issueEvents == IssueRows(repo, issues[..i], names.profileOf)
      invariant names.cache.Keys == old(names.cache.Keys) + ActivityUsers(Filter(issues[..i], IsIssue))
    {
      var issue := issues[i];
      ghost var issuesSoFar := Filter(issues[..i], IsIssue);
      FilterPrefixStep(issues, i, IsIssue);
      if !issue.pullRequest {
        var row := ActivityEvent(IssueOpened, repo, issue, names);
        issueEvents := issueEvents + [row];
        assert Filter(issues[..i + 1], IsIssue) == issuesSoFar + [issue];
        ActivityRowsAppend(IssueOpened, repo, issuesSoFar, issue, names.profileOf);
        ActivityUsersAppend(issuesSoFar, issue);
      } else {
        assert Filter(issues[..i + 1], IsIssue) == issuesSoFar;
      }
    }
    assert issues[..|issues|] == issues;
  }
}
