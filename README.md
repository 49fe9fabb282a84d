# arrow-activity scraper, modelled in Dafny

This project models the core of `scrape.py`, a batch job that collects GitHub
activity for the Apache Arrow repositories. The job normalises five kinds of
activity into event rows: commits, opened pull requests, opened issues, issue
comments and pull-request review comments. It removes commits that mirrors
share with the canonical `apache/arrow` repository, and concatenates the rows
of all repositories.

Every network answer is an input. A list endpoint is a `PageOracle`: the
answer (status and item list) to each attempt at each page. The profile
endpoint is a `ProfileOracle` from login to answer.

Modules, one per component:

- `RateLimit`: the gate run on each answer. It reports the remaining count and asks for a pause exactly when that count is 0.
- `Pagination`: pages 1, 2, 3, … with at most 3 attempts each. It stops at the first page that fails 3 times or comes back empty. `FetchPaginatedData` is proved against `Paginated` (items of the pages before that stop) and `RequestLog` (every request sent).
- `DisplayNames`: the memoised resolver, a class whose `cache` map only grows. `Valid()` says three things: every cached name is what the profile endpoint gives, the cached logins are exactly those looked up, and no login is looked up twice.
- `Events`, `Extractors`: the five extractors. `Events` holds the row specifications; `Extractors` holds the loops, proved against them.
- `Dedup`: `filter_duplicate_commits`, an order-preserving filter by sha-set membership.
- `Aggregation`: `collect_data`. It gets the repository list and the canonical commits as parameters.
- `Seqs`, `Wrappers`, `GitHub`: an order-preserving filter with its lemmas, `Option`, and the shapes of the API's answers.

A profile whose `name` is JSON `null` yields Python `None`, which is cached as
such. That is why a resolved name is a `JsonString` (`Null` or `Text`). Commit
rows treat `None` and `""` alike and fall back to the git author name.
The other extractors keep `None`.

The commit extractor resolves every username, `"Unknown"` included. The other
extractors never look up `"Unknown"`. The model keeps this asymmetry.

## Model

| member | source | states |
|---|---|---|
| `RateLimit.CheckRateLimit` | scrape.py:15-22 | A missing remaining-count header reads as 1. A pause is requested exactly when the remaining count is 0, and it ends one second after the reset instant. |
| `Pagination.FetchFrom` | scrape.py:33-47 | The first attempt with status 200 decides the page, and its body becomes the page's items. Every earlier attempt failed. Abandoned means all 3 attempts failed. At most 3 attempts are used. |
| `Pagination.RequestPage` | scrape.py:33-51 | The retry loop sends one request per attempt, as `FetchPage` counts them. It ends without a 200 answer exactly when the page is abandoned. On success it returns that page's items. |
| `Pagination.FetchPaginatedData` | scrape.py:26-59 | Returns the concatenation, in page order, of the items of pages 1 .. k-1, where page k is the first page that is abandoned or empty. Sends exactly the requests for pages 1 .. k, with no exception on abandonment. |
| `Pagination.LaterPagesIgnored` | scrape.py:30-57 | Answers for pages after the first stopping page change neither the result nor the requests sent. |
| `Pagination.RequestsPerPage` | scrape.py:33-51 | Each page is requested at most 3 times. Exactly the pages up to the stopping page are requested. An abandoned page had 3 failed answers and is the last page requested. |
| `DisplayNames.Resolver.constructor` | scrape.py:11 | The run starts with an empty cache and no lookups. |
| `DisplayNames.Resolver.FetchDisplayName` | scrape.py:63-86 | A cached login returns its cached value, with no lookup and an unchanged cache. Otherwise there is one lookup; the profile name (or "" when absent or on failure) is cached and returned. Afterwards the login is cached with the returned value, and no other entry changes. |
| `Events.LabelsDistinct` | scrape.py:109 | The five `action_type` strings ("commit" here, and those at lines 135, 161, 196 and 224) are pairwise distinct, so the row's kind determines its label and vice versa. |
| `Events.ActivityRowsNormalise` | scrape.py:122-138 | One row per item, in order, with the fixed action type, the current repo and the item's timestamp. A null user gives username and name "Unknown"; any other username gets its resolved name. |
| `Events.CommitRowsNormalise` | scrape.py:95-112 | One commit row per item, in order, keeping the sha and the current repo. A null author gives "Unknown". The name is the resolved name unless that is null or "", in which case it is the git author name. The name is never null. |
| `Events.FailedLookupFallsBack` | scrape.py:97-101 | A commit whose profile lookup failed gets the git author name. |
| `Events.IssueRowsFollowIssues` | scrape.py:209-227 | Exactly one "issue opened" row per item without a `pull_request` key, keeping its multiplicity and input order. Items that carry the key give no row. |
| `Extractors.CommitEvent` | scrape.py:96-112 | One commit item becomes its commit row, and its username (even "Unknown") is resolved. The lookup log only grows. |
| `Extractors.ActivityEvent` | scrape.py:123-138 | One item becomes its row, and only a username other than "Unknown" is resolved. The lookup log only grows. |
| `Extractors.FetchCommits` | scrape.py:90-113 | Returns the commit rows of the paginated items. The cache gains exactly their usernames, and earlier lookups stay in the log, so with `Valid()` no login is looked up twice. |
| `Extractors.ActivityEvents` | scrape.py:121-139 | The shared normalisation loop returns the activity rows of its items. The cache gains exactly the usernames other than "Unknown". The lookup log only grows. |
| `Extractors.FetchIssueComments` | scrape.py:117-139 | Returns the "issue comment" rows of the paginated items. The lookup log only grows. |
| `Extractors.FetchPullReviews` | scrape.py:143-165 | Returns the "PR comment" rows of the paginated items. The lookup log only grows. |
| `Extractors.FetchPullRequests` | scrape.py:178-200 | Returns the "PR opened" rows of the paginated items. The lookup log only grows. |
| `Extractors.FetchIssues` | scrape.py:204-228 | Returns the "issue opened" rows of the paginated items without a `pull_request` key. Only their users are resolved. The lookup log only grows. |
| `Dedup.ShaSet` | scrape.py:170 | Every source sha is in the set, and every member comes from a source commit. |
| `Dedup.FilterDuplicateCommits` | scrape.py:169-174 | No kept commit has a source sha. Every target commit is either kept or has a source sha. The result is never longer than the target. |
| `Dedup.DeduplicationPartitions` | scrape.py:171-173 | The result is a subsequence of the target. A commit is kept with its full multiplicity exactly when its sha is not a source sha. |
| `Dedup.DeduplicationDistributes` | scrape.py:171-173 | Deduplicating a concatenation is the concatenation of the deduplicated parts. |
| `Dedup.MirrorContributesOnlyNewCommit` | scrape.py:237-241 | Canonical commits sha1, sha2 and mirror commits sha1, sha3: the mirror keeps only sha3. |
| `Aggregation.CollectRepo` | scrape.py:236-249 | For one repo, the rows are: commits (canonical ones unfiltered, otherwise deduplicated against the canonical commits), then PRs opened, issues opened, issue comments and review comments. The lookup log only grows. |
| `Aggregation.CollectData` | scrape.py:232-251 | Returns the per-repository rows concatenated in list order. The cache gains exactly the logins the extractors resolved. The lookup log of the whole run extends the one before it and, by `Valid()`, has no repeated login: at most one profile request per login. |
| `Aggregation.MirrorCommitsDeduplicated` | scrape.py:237-243 | No commit row of a non-canonical repository has a sha found among the canonical commits. |
| `Aggregation.CanonicalCommitsIncluded` | scrape.py:242-243 | When the canonical repository is listed, every canonical commit is in the result. |
| `Aggregation.RowsBelongToListedRepos` | scrape.py:235-249 | Every row belongs to a listed repository. |

## Left out

- HTTP requests, the authorization header, the `GITHUB_API_TOKEN` read and URL construction (scrape.py:7-8, 32, 36, 70-71) are I/O. Answers are oracle parameters, and the `per_page=100` page size appears only in the oracle's description.
- The sleeps are real-time side effects and are not modelled: the rate-limit pause (scrape.py:21) and the 1-second retry backoff (scrape.py:44). The gate is modelled on its own and not threaded into pagination or the resolver, because its result is never used there.
- `RateLimit.CheckRateLimit`: the reset header is taken as given. When it is missing and the remaining count is 0, the source raises on `int(None)`. The pause has no floor: scrape.py:19 computes `reset - now + 1` as is, and the model follows that. A reset more than a second in the past makes `time.sleep` raise, which the model does not represent.
- `Pagination.FetchPaginatedData`: it requires some page to end pagination. Against an endpoint that never returns an empty or failing page, the source never returns.
- The network log `requests` and the resolver's ghost `lookups` make the traffic observable. The source keeps no such list.
- Python truthiness of the `author`/`user` fields is narrowed to null versus a login. An empty JSON object, also falsy in Python, is not represented. Header values and bodies are taken already parsed. Exceptions from the HTTP library are not modelled.
- `print` logging, pandas DataFrame construction, dropping the `sha` column, timestamp parsing, sorting and CSV output (scrape.py:251, 272-275) are foreign library calls. `CollectData` returns the row sequence.
- The driver script and its hard-coded repository list (scrape.py:254-270) are configuration. `CollectData` takes the list and the canonical commits as parameters.
