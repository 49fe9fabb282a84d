/**
 * The shapes of the answers the GitHub REST API gives the scraper.
 *
 * Nothing here talks to a network: every answer the scraper would receive is
 * an input. A list endpoint is a PageOracle, which gives the answer to each
 * attempt at each page; the profile endpoint is a ProfileOracle.
 */
module GitHub {
  import opened Wrappers

  /** A JSON value that is either `null` or a string. */
  datatype JsonString = Null | Text(value: string)

  /** An HTTP answer: its status code and its decoded JSON body. */
  datatype Response<B> = Response(status: int, body: B)

  /**
   * The answer to attempt `attempt` (counted from 0) at page `page` (counted
   * from 1) of one list endpoint, requested with `per_page=100`.
   */
  type PageOracle<T> = (nat, nat) -> Response<seq<T>>

  /** A user profile; `name` is None when the key is absent from the JSON. */
  datatype Profile = Profile(name: Option<JsonString>)

  /** The answer to `GET /users/{login}`. */
  type ProfileOracle = string -> Response<Profile>

  /**
   * One item of `/repos/{repo}/commits`: its `sha`, its `author` (the GitHub
   * login, or None when the API gives null), and `commit.author.name` and
   * `commit.author.date` from the embedded git metadata.
   */
  datatype CommitItem = CommitItem(sha: string, author: Option<string>, authorName: string, date: string)

  /**
   * One item of the pull-request, issue, issue-comment or review-comment
   * endpoints: its `user` (login, or None for null), its `created_at`, and
   * whether it carries a `pull_request` key (only the issues endpoint sets it).
   */
  datatype ActivityItem = ActivityItem(user: Option<string>, createdAt: string, pullRequest: bool)
}
