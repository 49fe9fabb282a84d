/**
 * The normalised event rows the five extractors emit, as functions of the
 * raw items and the profile endpoint.
 *
 * A row's display name is stated through NameFromProfile(profileOf(login))
 * rather than through the cache: the resolver keeps every cached entry equal
 * to that value (Resolver.Valid), so the row does not depend on when in the
 * run its login was first resolved.
 */
module Events {
  import opened Wrappers
  import opened GitHub
  import opened Seqs
  import opened DisplayNames

  /** The login and display name used for an item whose user is null. */
  const Unknown: string := "Unknown"

  datatype ActionType = Commit | IssueComment | PullRequestComment | PullRequestOpened | IssueOpened

  /** The `action_type` string written for each kind of row. */
  function Label(t: ActionType): (text: string)
  {
    match t
    case Commit => "commit"
    case IssueComment => "issue comment"
    case PullRequestComment => "PR comment"
    case PullRequestOpened => "PR opened"
    case IssueOpened => "issue opened"
  }

  /** The five `action_type` strings are pairwise distinct: the column tells every kind of row apart. */
  lemma LabelsDistinct(a: ActionType, b: ActionType)
    ensures Label(a) == Label(b) <==> a == b
  {
  }

  /** One row of the dataset; `sha` is present only on commit rows. */
  datatype Event = Event(
    sha: Option<string>,
    timestamp: string,
    username: string,
    name: JsonString,
    actionType: ActionType,
    repository: string)

  /** The row's username: the item's login, or "Unknown" for a null user. */
  function Username(user: Option<string>): (username: string)
  {
    if user.Some? then user.value else Unknown
  }

  /** Python falsiness of a resolved name: None and "" are false. */
  predicate Falsy(v: JsonString)
  {
    v == Null || v == Text("")
  }

  /** The name on a non-commit row: resolved, except that "Unknown" is never looked up. */
  function ActivityName(username: string, profileOf: ProfileOracle): (name: JsonString)
  {
    if username != Unknown then NameFromProfile(profileOf(username)) else Text(Unknown)
  }

  function ActivityRow(kind: ActionType, repo: string, item: ActivityItem, profileOf: ProfileOracle): (row: Event)
  {
    var username := Username(item.user);
    Event(None, item.createdAt, username, ActivityName(username, profileOf), kind, repo)
  }

  /** The rows of a pull-request, issue-comment or review-comment extractor, one per item, in order. */
  function ActivityRows(kind: ActionType, repo: string, items: seq<ActivityItem>, profileOf: ProfileOracle): (rows: seq<Event>)
  {
    seq(|items|, i requires 0 <= i < |items| => ActivityRow(kind, repo, items[i], profileOf))
  }

  /**
   * One row per item, in order: each with the extractor's action type, the
   * current repository, no sha, the item's timestamp and username; a null user
   * gives "Unknown" for both username and name, and any other username gets
   * the name its profile lookup yields.
   */
  lemma ActivityRowsNormalise(kind: ActionType, repo: string, items: seq<ActivityItem>, profileOf: ProfileOracle)
    ensures var rows := ActivityRows(kind, repo, items, profileOf);
            && |rows| == |items|
            && (forall i :: 0 <= i < |rows| ==>
                  && rows[i].sha.None?
                  && rows[i].actionType == kind
                  && rows[i].repository == repo
                  && rows[i].timestamp == items[i].createdAt
                  && rows[i].username == Username(items[i].user))
            && (forall i :: 0 <= i < |rows| && items[i].user.None? ==>
                  rows[i].username == Unknown && rows[i].name == Text(Unknown))
            && (forall i :: 0 <= i < |rows| && rows[i].username != Unknown ==>
                  rows[i].name == NameFromProfile(profileOf(rows[i].username)))
  {
  }

  lemma ActivityRowsAppend(kind: ActionType, repo: string, items: seq<ActivityItem>, item: ActivityItem, profileOf: ProfileOracle)
    ensures ActivityRows(kind, repo, items + [item], profileOf)
            == ActivityRows(kind, repo, items, profileOf) + [ActivityRow(kind, repo, item, profileOf)]
  {
  }

  /** An item of the issues endpoint that is an issue, not a pull request. */
  predicate IsIssue(item: ActivityItem)
  {
    !item.pullRequest
  }

  /** The rows of the issue extractor: one "issue opened" row per item without a `pull_request` key. */
  function IssueRows(repo: string, items: seq<ActivityItem>, profileOf: ProfileOracle): (rows: seq<Event>)
  {
    ActivityRows(IssueOpened, repo, Filter(items, IsIssue), profileOf)
  }

  /**
   * The issue extractor emits exactly one row per item lacking the
   * `pull_request` key, with that item's multiplicity and in input order,
   * and none for items carrying it.
   */
  lemma IssueRowsFollowIssues(repo: string, items: seq<ActivityItem>, profileOf: ProfileOracle, item: ActivityItem)
    ensures var issues := Filter(items, IsIssue);
            && IsSubsequence(issues, items)
            && multiset(issues)[item] == (if item.pullRequest then 0 else multiset(items)[item])
            && |IssueRows(repo, items, profileOf)| == |issues|
            && forall i :: 0 <= i < |issues| ==>
                 IssueRows(repo, items, profileOf)[i] == ActivityRow(IssueOpened, repo, issues[i], profileOf)
  {
    FilterIsSubsequence(items, IsIssue);
    FilterCount(items, IsIssue, item);
  }

  /** The name on a commit row: the resolved name, or the git author name when that is null or "". */
  function CommitName(c: CommitItem, profileOf: ProfileOracle): (name: JsonString)
  {
    var resolved := NameFromProfile(profileOf(Username(c.author)));
    if Falsy(resolved) then Text(c.authorName) else resolved
  }

  function CommitRow(repo: string, c: CommitItem, profileOf: ProfileOracle): (row: Event)
  {
    Event(Some(c.sha), c.date, Username(c.author), CommitName(c, profileOf), Commit, repo)
  }

  /** The rows of the commit extractor, one per item, in order. */
  function CommitRows(repo: string, items: seq<CommitItem>, profileOf: ProfileOracle): (rows: seq<Event>)
  {
    seq(|items|, i requires 0 <= i < |items| => CommitRow(repo, items[i], profileOf))
  }

  /**
   * One row per commit, in order: each a "commit" row of the current
   * repository carrying the commit's sha, date and username and never a null
   * name; the name is the resolved display name unless that is null or "",
   * in which case it is the git author name.
   */
  lemma CommitRowsNormalise(repo: string, items: seq<CommitItem>, profileOf: ProfileOracle)
    ensures var rows := CommitRows(repo, items, profileOf);
            && |rows| == |items|
            && (forall i :: 0 <= i < |rows| ==>
                  && rows[i].sha == Some(items[i].sha)
                  && rows[i].actionType == Commit
                  && rows[i].repository == repo
                  && rows[i].timestamp == items[i].date
                  && rows[i].username == Username(items[i].author)
                  && rows[i].name.Text?)
            && (forall i :: 0 <= i < |rows| ==>
                  var resolved := NameFromProfile(profileOf(rows[i].username));
                  && (!Falsy(resolved) ==> rows[i].name == resolved)
                  && (Falsy(resolved) ==> rows[i].name == Text(items[i].authorName)))
  {
  }

  lemma CommitRowsAppend(repo: string, items: seq<CommitItem>, c: CommitItem, profileOf: ProfileOracle)
    ensures CommitRows(repo, items + [c], profileOf) == CommitRows(repo, items, profileOf) + [CommitRow(repo, c, profileOf)]
  {
  }

  /** A failed profile lookup leaves a commit row with the git author name. */
  lemma FailedLookupFallsBack(repo: string, c: CommitItem, profileOf: ProfileOracle)
    requires profileOf(Username(c.author)).status != 200
    ensures CommitRow(repo, c, profileOf).name == Text(c.authorName)
  {
  }

  /** The logins the commit extractor resolves: every row's username, "Unknown" included. */
  function CommitUsers(items: seq<CommitItem>): (logins: set<string>)
  {
    set c | c in items :: Username(c.author)
  }

  /** The logins a non-commit extractor resolves: every username except "Unknown". */
  function ActivityUsers(items: seq<ActivityItem>): (logins: set<string>)
  {
    set x | x in items && Username(x.user) != Unknown :: Username(x.user)
  }

  lemma CommitUsersAppend(items: seq<CommitItem>, c: CommitItem)
    ensures CommitUsers(items + [c]) == CommitUsers(items) + {Username(c.author)}
  {
    var u := Username(c.author);
    assert c in items + [c];
    forall v | v in CommitUsers(items + [c]) ensures v in CommitUsers(items) + {u} {
      var d :| d in items + [c] && Username(d.author) == v;
      if d != c { assert d in items; }
    }
  }

  lemma ActivityUsersAppend(items: seq<ActivityItem>, x: ActivityItem)
    ensures ActivityUsers(items + [x]) == ActivityUsers(items) + (if Username(x.user) != Unknown then {Username(x.user)} else {})
  {
    assert x in items + [x];
    forall v | v in ActivityUsers(items + [x])
      ensures v in ActivityUsers(items) + (if Username(x.user) != Unknown then {Username(x.user)} else {})
    {
      var d :| d in items + [x] && Username(d.user) != Unknown && Username(d.user) == v;
      if d != x { assert d in items; }
    }
  }
}
