# Pull-request dashboard: service data logic and approvals panel

This project models the data logic of a pull-request dashboard that reads from a code-hosting
API. It covers two parts.

* `GitService` (`git_service.dfy`) is the API client. The model covers:
  * how the constructor normalises the base URL;
  * how full names such as `"owner/name"` are split;
  * which API request each service method makes, and whether that request goes through the
    rate-limited queue, with or without the high-priority flag;
  * how the issue, repository and review responses are shaped.

  The main piece is the reduction of a pull request's reviews to the latest review of each
  author. It is modelled as a loop over a map (`LatestByLogin`). That loop is proved against a
  recursive reference definition, `LatestIndex`: the newest review of the author, and the first
  of them when several share the newest timestamp.
* `PullRequestsApprovals` (`pull_requests_approvals.dfy`) is the approvals panel. The model
  covers the badge for each review state, the two review filters (shown and counted), and the
  list of rendered elements. That list has one avatar per shown review, then an alarm when fewer
  than two reviews approve. `ApprovalsPanel` composes the panel with the reduction. It proves
  that the alarm appears exactly when fewer than two authors have an approval as their latest
  review.

`Seqs.Filter` (`seqs.dfy`) stands for `Array.prototype.filter`. `Wrappers.Option` stands for
values that may be `undefined`.

Modelling choices:

* Network responses are parameters. A call is not performed: it is described by the request
  it would make (`ApiRequest`) and how that request is routed (`Dispatch`).
* `enqueue` on the rate-limited queue is modelled as a tag on the request. The tag is the
  priority argument, which is either omitted or a boolean flag.
* Timestamps are integers.
* `localeCompare` is an abstract comparator `cmp`. The only requirement on it is consistency:
  if `cmp(a, b) > 0` then `cmp(b, a) < 0`.
* JSX elements are records (`Item`).

## Model

| member | source | states |
|---|---|---|
| `GitService.NormalizeBaseUrl` | src/service/gitService.ts:10-12 | the result is a prefix of the input; if the input ends with "/", the result plus "/" is the input; otherwise the input is unchanged |
| `GitService.NormalizeUndoesAppendedSlash` | src/service/gitService.ts:10-12 | appending "/" to any URL and then normalising gives back that URL |
| `GitService.NormalizeNotIdempotent` | src/service/gitService.ts:10-12 | "x//" becomes "x/", and a second pass turns it into "x": only one slash is removed per pass |
| `GitService.GitService.constructor` | src/service/gitService.ts:8-15 | the client is created with the normalised base URL and the token as its auth |
| `GitService.SplitOnSlash` | src/service/gitService.ts:22 | split("/") yields at least one piece, and no piece contains "/" |
| `GitService.JoinSplit` | src/service/gitService.ts:22 | round trip: joining the pieces of a split with "/" gives back the string |
| `GitService.SplitJoin` | src/service/gitService.ts:31 | round trip: splitting slash-free pieces joined by "/" gives back the pieces |
| `GitService.SplitFullName` | src/service/gitService.ts:22 | the owner is the slash-free prefix; the name is absent exactly when the input has no "/"; if there is no "/" the owner is the whole input; if the name is present, owner + "/" + name is a prefix of the input, the name has no "/", and the name runs up to the next "/" or the end of the input |
| `GitService.FullNameRoundTrip` | src/service/gitService.ts:31 | for slash-free owner and name, splitting owner + "/" + name gives back exactly that owner and name |
| `GitService.FullNameWithoutSlash` | src/service/gitService.ts:66 | input without "/" gives the whole input as owner and an absent name |
| `GitService.DispatchOf` | src/service/gitService.ts:17-164 | testAuthentication is the only call that bypasses the queue; getPRChecksStatus, hasMergeConflict and getPRApprovals are exactly the calls enqueued with flag true; every other enqueued call omits the flag |
| `GitService.FullNameCallsMatch` | src/service/gitService.ts:21-69 | for "owner/name", getPullRequests issues the same request as getPulls(owner, name); getIssues issues the same request as getRepoIssues(owner, name); getRepository requests repos.get for that owner and repo |
| `GitService.FullNameWithoutSlashCalls` | src/service/gitService.ts:65-69 | a full name without "/" sends an undefined repository parameter from getPullRequests, getIssues and getRepository |
| `GitService.IssuesOf` | src/service/gitService.ts:30-38 | missing or empty data gives []; otherwise an issue is in the result exactly when it is in the data and has no pull_request |
| `GitService.IssuesOfKeepsPlainIssues` | src/service/gitService.ts:33-37 | every plain issue is kept with its multiplicity and PRs are dropped; the result distributes over concatenation, so order is kept; a list without PRs comes back unchanged |
| `Seqs.Filter` | src/service/gitService.ts:35 | the result is never longer than the input, and holds exactly the input elements that pass |
| `GitService.InsertByName` | src/service/gitService.ts:62 | the multiset of the result is the input's plus exactly the inserted repository |
| `GitService.InsertByNameSorted` | src/service/gitService.ts:62 | under a consistent comparator, inserting into a name-sorted list keeps it name-sorted |
| `GitService.SortByName` | src/service/gitService.ts:62 | the result is sorted by name under the comparator and is a permutation of the input |
| `GitService.ReposOf` | src/service/gitService.ts:50-63 | the result is sorted by name; it is a permutation of the non-archived input repositories; a repository is in it exactly when it is in the input and not archived |
| `GitService.SortedByNameAllPairs` | src/service/gitService.ts:62 | with a transitive comparator, a result sorted between neighbours is ordered between any two positions |
| `GitService.LatestIndex` | src/service/gitService.ts:141-147 | for an author of the list, gives a review by that author that no same-author review is newer than, and that every earlier same-author review is strictly older than |
| `GitService.LatestIsUnique` | src/service/gitService.ts:141-147 | at most one position satisfies the latest-review condition for an author |
| `GitService.LatestIndexExactly` | src/service/gitService.ts:141-147 | a review satisfies the latest-review condition if and only if it sits at its author's LatestIndex |
| `GitService.LatestIndexAppend` | src/service/gitService.ts:141-147 | after a new review, an author's latest index moves to the new review exactly when the author is new, or the review is by that author and strictly newer than the kept one |
| `GitService.ReduceStep` | src/service/gitService.ts:139-151 | one reducer step turns the latest-review map of the reviews seen into the latest-review map of those reviews plus the new one |
| `GitService.LatestByLogin` | src/service/gitService.ts:138-152 | the map has one key per distinct author; each key holds that author's latest review, which is an input review |
| `GitService.ValuesOf` | src/service/gitService.ts:138 | Object.values lists every entry exactly once: the authors are distinct and together are exactly the keys |
| `GitService.ApprovalsOf` | src/service/gitService.ts:119-153 | missing, non-array or empty data gives []; otherwise the result lists the latest review of every author, once each, in no promised order |
| `GitService.ReduceAsWritten` | src/service/gitService.ts:139-151 | the reduce as written, over a plain object: its keys are the authors except those whose login is an Object.prototype property |
| `GitService.ReduceAsWrittenKeepsLatest` | src/service/gitService.ts:139-151 | on every input, each author the reduce as written keeps holds that author's latest review, so the dropped authors are its only difference from the corrected reduce; when no login names an Object.prototype property, it is exactly the latest-review map |
| `GitService.ConstructorLoginDropped` | src/service/gitService.ts:141-147 | a single review by the login "constructor" leaves no entry in the reduce as written |
| `PullRequestsApprovals.GetBadgeProps` | src/components/PullRequestsApprovals.tsx:33-49 | the mapping is total; APPROVED gives (success, ✔), CHANGES_REQUESTED gives (error, ✘), COMMENTED gives (warning, ✎); every other state, DISMISSED included, gives (info, ⚪); each color belongs to exactly its state |
| `PullRequestsApprovals.AllApprovals` | src/components/PullRequestsApprovals.tsx:51-54 | a review is shown exactly when it is in the input and not DISMISSED |
| `PullRequestsApprovals.ActualApprovals` | src/components/PullRequestsApprovals.tsx:55-58 | exactly the APPROVED reviews; the same as filtering the shown reviews, so never more of them than shown ones |
| `PullRequestsApprovals.ApprovalFiltersKeepOrder` | src/components/PullRequestsApprovals.tsx:51-58 | both filters distribute over concatenation, so the input order is kept |
| `PullRequestsApprovals.ApprovalAvatars` | src/components/PullRequestsApprovals.tsx:60-93 | item count is the number of shown reviews, plus one if fewer than two approve; item i is the avatar of shown review i, with key node_id, tooltip state + " by " + login, and badge GetBadgeProps(state); the alarm appears exactly when fewer than two approve, and then it is last |
| `PullRequestsApprovals.ApprovalCount` | src/components/PullRequestsApprovals.tsx:55-58 | over a latest-per-author listing, the number of APPROVED entries equals the number of authors whose latest review is APPROVED |
| `PullRequestsApprovals.ApprovalsPanel` | src/components/PullRequestsApprovals.tsx:23-93 | the panel for fetched reviews shows the alarm exactly when fewer than two distinct authors have APPROVED as their latest review |

## Findings

| source | as written | input that shows it | evidently intended | confidence | as-written member | corrected member |
|---|---|---|---|---|---|---|
| src/service/gitService.ts:141-147 | The accumulator is a plain object `{}`, so `acc[login]` also finds properties inherited from Object.prototype. For a login such as "constructor", "toString" or "valueOf", the guard reads a truthy function, and its `submitted_at` is undefined. Comparing an invalid date with `<` is false. So the author's reviews are never stored and the author disappears from the approvals. | one review by the login "constructor" (`GitService.ConstructorLoginDropped`) | every author gets an entry, for example with an own-property check or a null-prototype object | medium (not executed; depends on such logins occurring) | `GitService.ReduceAsWritten` | `GitService.LatestByLogin` |

The rest of the model, including `ApprovalsOf` and `ApprovalsPanel`, uses the corrected
`LatestByLogin`.

## Left out

- The rate-limited request queue (src/utils/RateLimiterQueue) is not part of this model. This
  excludes its scheduling, concurrency, retry, backoff and rate-budget logic. A queued call is
  modelled only as its request tagged with the priority argument it receives.
- API client calls, pagination (`paginate` for the organisation, starred and user repository
  lists), request timeouts, authentication and `async`/`await` are foreign network I/O. The
  model describes the requested call and takes the response as a parameter.
- getPulls, getOrganizations, getRepository, getStaredRepos, getUserRepos, getPRChecksStatus and
  hasMergeConflict return the response or its `data` unchanged. Only their requests and routing
  are modelled.
- getPullRequests converts `created_at` with `new Date(...)`. Date parsing is not modelled, and
  neither are invalid dates in the review comparison: timestamps are integers.
- PullHeadRef, DispatchOf: the ref text `pull/<n>/head` matches the source only for integer
  pull-request numbers below 10^21 in magnitude. JavaScript writes larger numbers in exponent
  form ("1e+21"), and numbers are exact integers only up to 2^53. The model's integers are
  unbounded, and non-integer numbers are not modelled.
- A review whose `user` is null (the source would throw while reading `user.login`) is not
  modelled: every review has a user.
- ReposOf, SortByName: do not state that repositories whose names compare equal keep their
  input order, even though Array.prototype.sort is stable. Locale behaviour of `localeCompare` is abstracted
  to a consistent comparator.
- ApprovalsOf: does not state the order of the values, because the order of `Object.values` is
  not modelled.
- React hooks (`useQuery` with its enabled and loading states, `useOnScreen`, `useMemo`,
  `useContext`), styling and rendering are UI. Only the decisions about which elements appear
  are kept, as records.
- src/service/queryClient.ts is a constant query-cache configuration with no logic. It is not
  part of this model.
