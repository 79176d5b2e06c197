/**
 * The data logic of the GitService client: base-URL normalisation, "owner/name" splitting,
 * which request each service method issues and whether it goes through the rate-limited
 * queue with a priority flag, and the shaping of the issue, repository and review responses.
 * Network calls are not performed: each response arrives as a parameter.
 */
module GitService {

  import opened Wrappers
  import opened Seqs

  // ---------------------------------------------------------------------------------------
  // Client construction
  // ---------------------------------------------------------------------------------------

  predicate EndsWithSlash(s: string) {
    |s| > 0 && s[|s| - 1] == '/'
  }

  /** The base URL handed to the API client: one trailing "/" is removed, if there is one. */
  function NormalizeBaseUrl(baseUrl: string): (r: string)
    ensures r <= baseUrl
    ensures EndsWithSlash(baseUrl) ==> r + "/" == baseUrl
    ensures !EndsWithSlash(baseUrl) ==> r == baseUrl
  {
    if EndsWithSlash(baseUrl) then baseUrl[..|baseUrl| - 1] else baseUrl
  }

  /** Appending a slash and normalising gives back the URL. */
  lemma NormalizeUndoesAppendedSlash(url: string)
    ensures NormalizeBaseUrl(url + "/") == url
  {
    assert EndsWithSlash(url + "/");
    assert (url + "/")[..|url|] == url;
  }

  /** Normalisation is not idempotent: only one of two trailing slashes is removed. */
  lemma NormalizeNotIdempotent()
    ensures NormalizeBaseUrl("x//") == "x/"
    ensures NormalizeBaseUrl(NormalizeBaseUrl("x//")) == "x"
  {
    assert "x//"[..2] == "x/";
    assert "x/"[..1] == "x";
  }

  /** The options the API client is created with. */
  datatype ClientOptions = ClientOptions(baseUrl: string, auth: string)

  class GitService {
    const octokit: ClientOptions

    constructor (baseUrl: string, token: string)
      ensures octokit.baseUrl == NormalizeBaseUrl(baseUrl)
      ensures octokit.auth == token
    {
      octokit := ClientOptions(NormalizeBaseUrl(baseUrl), token);
    }
  }

  // ---------------------------------------------------------------------------------------
  // "owner/name" splitting: String.prototype.split("/") and destructuring of its first two parts
  // ---------------------------------------------------------------------------------------

  /** The pieces of `s` between slashes, in order; there is always at least one. */
  function SplitOnSlash(s: string): (parts: seq<string>)
    ensures |parts| >= 1
    ensures forall i :: 0 <= i < |parts| ==> '/' !in parts[i]
  {
    if s == [] then [""]
    else
      var rest := SplitOnSlash(s[1..]);
      if s[0] == '/' then [""] + rest
      else [[s[0]] + rest[0]] + rest[1..]
  }

  /** Array.prototype.join("/"). */
  function JoinWithSlash(parts: seq<string>): string
    requires |parts| >= 1
  {
    if |parts| == 1 then parts[0] else parts[0] + "/" + JoinWithSlash(parts[1..])
  }

  /** Joining the pieces of a split gives back the string. */
  lemma {:induction false} JoinSplit(s: string)
    ensures JoinWithSlash(SplitOnSlash(s)) == s
  {
    if s != [] {
      var rest := SplitOnSlash(s[1..]);
      JoinSplit(s[1..]);
      if s[0] == '/' {
        assert SplitOnSlash(s) == [""] + rest;
        assert ([""] + rest)[1..] == rest;
      } else {
        var parts := [[s[0]] + rest[0]] + rest[1..];
        assert SplitOnSlash(s) == parts;
        if |rest| == 1 {
          assert s == [s[0]] + s[1..];
        } else {
          assert parts[1..] == rest[1..];
          calc {
            JoinWithSlash(parts);
            ([s[0]] + rest[0]) + "/" + JoinWithSlash(rest[1..]);
            [s[0]] + (rest[0] + "/" + JoinWithSlash(rest[1..]));
            [s[0]] + JoinWithSlash(rest);
            [s[0]] + s[1..];
            s;
          }
        }
      }
    }
  }

  /** Splitting text that begins with a slash-free word extends the first piece by that word. */
  lemma {:induction false} SplitAfterWord(w: string, t: string)
    requires '/' !in w
    ensures SplitOnSlash(w + t) == [w + SplitOnSlash(t)[0]] + SplitOnSlash(t)[1..]
  {
    if w != [] {
      SplitAfterWord(w[1..], t);
      assert (w + t)[0] == w[0] && (w + t)[1..] == w[1..] + t;
      assert [w[0]] + (w[1..] + SplitOnSlash(t)[0]) == w + SplitOnSlash(t)[0];
    } else {
      var parts := SplitOnSlash(t);
      assert w + t == t && w + parts[0] == parts[0];
      assert parts == [parts[0]] + parts[1..];
    }
  }

  /** Splitting slash-free pieces joined by "/" gives back the pieces. */
  lemma {:induction false} SplitJoin(parts: seq<string>)
    requires |parts| >= 1
    requires forall i :: 0 <= i < |parts| ==> '/' !in parts[i]
    ensures SplitOnSlash(JoinWithSlash(parts)) == parts
  {
    if |parts| == 1 {
      SplitAfterWord(parts[0], "");
      assert parts[0] + "" == parts[0];
    } else {
      var tail := JoinWithSlash(parts[1..]);
      SplitJoin(parts[1..]);
      assert ("/" + tail)[0] == '/' && ("/" + tail)[1..] == tail;
      assert SplitOnSlash("/" + tail) == [""] + parts[1..];
      SplitAfterWord(parts[0], "/" + tail);
      assert parts[0] + "/" + tail == parts[0] + ("/" + tail);
      assert ([""] + parts[1..])[0] == "" && ([""] + parts[1..])[1..] == parts[1..];
      assert parts[0] + "" == parts[0];
      assert parts == [parts[0]] + parts[1..];
    }
  }

  /** The `[owner, name]` destructuring of a split full name; a missing second piece is `None`. */
  datatype FullName = FullName(owner: string, name: Option<string>)

  function SplitFullName(fullName: string): (r: FullName)
    ensures '/' !in r.owner && r.owner <= fullName
    ensures r.name.None? <==> '/' !in fullName
    ensures r.name.None? ==> r.owner == fullName
    ensures r.name.Some? ==> '/' !in r.name.value && r.owner + "/" + r.name.value <= fullName
    ensures r.name.Some? ==> var e := |r.owner| + 1 + |r.name.value|;
                             e == |fullName| || fullName[e] == '/'
  {
    var parts := SplitOnSlash(fullName);
    JoinSplit(fullName);
    if |parts| == 1 then
      FullName(parts[0], None)
    else
      assert fullName == parts[0] + "/" + JoinWithSlash(parts[1..]);
      assert fullName[|parts[0]|] == '/';
      assert JoinWithSlash(parts[1..]) == parts[1] || JoinWithSlash(parts[1..]) == parts[1] + "/" + JoinWithSlash(parts[2..]);
      FullName(parts[0], Some(parts[1]))
  }

  /** Splitting `owner + "/" + name` of slash-free parts gives back both parts. */
  lemma FullNameRoundTrip(owner: string, name: string)
    requires '/' !in owner && '/' !in name
    ensures SplitFullName(owner + "/" + name) == FullName(owner, Some(name))
  {
    var parts := [owner, name];
    assert JoinWithSlash(parts) == owner + "/" + name;
    SplitJoin(parts);
  }

  /** A full name without a slash is all owner, and the name is absent. */
  lemma FullNameWithoutSlash(fullName: string)
    requires '/' !in fullName
    ensures SplitFullName(fullName) == FullName(fullName, None)
  {
  }

  // ---------------------------------------------------------------------------------------
  // Requests and their routing through the rate-limited queue
  // ---------------------------------------------------------------------------------------

  /**
   * The API client calls the service makes, with the parameters it passes. A repository
   * parameter is `None` when the service passes `undefined` (a full name without a slash).
   */
  datatype ApiRequest =
    | PullsList(owner: string, repo: Option<string>)
    | IssuesListForRepo(owner: string, repo: Option<string>, state: string, perPage: int)
    | UsersGetAuthenticated
    | OrgsListForAuthenticatedUser
      /** fetched through the client's paginate helper */
    | ReposListForOrg(org: string, repoType: string, perPage: int, timeout: int)
    | ReposGet(owner: string, repo: Option<string>)
      /** fetched through the client's paginate helper */
    | ActivityListReposStarredByAuthenticatedUser(perPage: int, timeout: int)
      /** fetched through the client's paginate helper */
    | ReposListForAuthenticatedUser(perPage: int, timeout: int, repoType: string)
    | ChecksListForRef(owner: string, repo: Option<string>, ref: string, filter: string)
    | PullsGet(owner: string, repo: Option<string>, pullNumber: int)
    | PullsListReviews(owner: string, repo: Option<string>, pullNumber: int)

  /** The public (and the one private) methods of the service, with their arguments. */
  datatype ServiceCall =
    | GetPulls(owner: string, repo: string)
    | GetPullRequests(repo: string)
    | GetIssues(fullName: string)
    | TestAuthentication
    | GetOrganizations
    | GetRepos(owner: string)
    | GetRepository(fullName: string)
    | GetStaredRepos
    | GetUserRepos
    | GetPRChecksStatus(owner: string, repo: string, prNumber: int)
    | HasMergeConflict(owner: string, repo: string, prNumber: int)
    | GetPRApprovals(owner: string, repo: string, prNumber: int)
    | GetRepoIssues(owner: string, repo: string)

  /** The second argument of the queue's enqueue: left out, or a boolean flag. */
  datatype Priority = Omitted | Flag(high: bool)

  /** A request is either issued directly or handed to the queue together with its priority. */
  datatype Dispatch = Direct(request: ApiRequest) | Enqueued(request: ApiRequest, priority: Priority)

  function DigitChar(d: nat): char
    requires d < 10
  {
    "0123456789"[d]
  }

  /** Decimal text of a non-negative integer. */
  function DecimalDigits(n: nat): string
  {
    if n < 10 then [DigitChar(n)] else DecimalDigits(n / 10) + [DigitChar(n % 10)]
  }

  /**
   * The text a template literal gives for an integer number whose magnitude is below 10^21
   * (from there on JavaScript switches to exponent form, such as "1e+21").
   */
  function DecimalString(n: int): string
  {
    if n < 0 then "-" + DecimalDigits(-n) else DecimalDigits(n)
  }

  /** The ref of a pull request's head commit. */
  function PullHeadRef(prNumber: int): string
  {
    "pull/" + DecimalString(prNumber) + "/head"
  }

  /** Which request a service method makes and how it is routed. */
  function DispatchOf(call: ServiceCall): (d: Dispatch)
    ensures d.Direct? <==> call.TestAuthentication?
    ensures d.Enqueued? && d.priority == Flag(true)
        <==> call.GetPRChecksStatus? || call.HasMergeConflict? || call.GetPRApprovals?
    ensures d.Enqueued? && d.priority != Flag(true) ==> d.priority == Omitted
  {
    match call
    case GetPulls(owner, repo) => Enqueued(PullsList(owner, Some(repo)), Omitted)
    case GetPullRequests(repo) =>
      var n := SplitFullName(repo);
      Enqueued(PullsList(n.owner, n.name), Omitted)
    case GetIssues(fullName) =>
      var n := SplitFullName(fullName);
      Enqueued(IssuesListForRepo(n.owner, n.name, "open", 100), Omitted)
    case TestAuthentication => Direct(UsersGetAuthenticated)
    case GetOrganizations => Enqueued(OrgsListForAuthenticatedUser, Omitted)
    case GetRepos(owner) => Enqueued(ReposListForOrg(owner, "all", 100, 5000), Omitted)
    case GetRepository(fullName) =>
      var n := SplitFullName(fullName);
      Enqueued(ReposGet(n.owner, n.name), Omitted)
    case GetStaredRepos => Enqueued(ActivityListReposStarredByAuthenticatedUser(100, 5000), Omitted)
    case GetUserRepos => Enqueued(ReposListForAuthenticatedUser(100, 5000, "owner"), Omitted)
    case GetPRChecksStatus(owner, repo, prNumber) =>
      Enqueued(ChecksListForRef(owner, Some(repo), PullHeadRef(prNumber), "latest"), Flag(true))
    case HasMergeConflict(owner, repo, prNumber) =>
      Enqueued(PullsGet(owner, Some(repo), prNumber), Flag(true))
    case GetPRApprovals(owner, repo, prNumber) =>
      Enqueued(PullsListReviews(owner, Some(repo), prNumber), Flag(true))
    case GetRepoIssues(owner, repo) =>
      Enqueued(IssuesListForRepo(owner, Some(repo), "open", 100), Omitted)
  }

  /**
   * The methods taking a full name reach the same requests as the ones taking owner and
   * name separately, when the full name is `owner + "/" + name`.
   */
  lemma FullNameCallsMatch(owner: string, name: string)
    requires '/' !in owner && '/' !in name
    ensures DispatchOf(GetPullRequests(owner + "/" + name)) == DispatchOf(GetPulls(owner, name))
    ensures DispatchOf(GetIssues(owner + "/" + name)) == DispatchOf(GetRepoIssues(owner, name))
    ensures DispatchOf(GetRepository(owner + "/" + name)) == Enqueued(ReposGet(owner, Some(name)), Omitted)
  {
    FullNameRoundTrip(owner, name);
  }

  /** A full name without a slash leaves the repository parameter undefined. */
  lemma FullNameWithoutSlashCalls(fullName: string)
    requires '/' !in fullName
    ensures DispatchOf(GetPullRequests(fullName)) == Enqueued(PullsList(fullName, None), Omitted)
    ensures DispatchOf(GetIssues(fullName)) == Enqueued(IssuesListForRepo(fullName, None, "open", 100), Omitted)
    ensures DispatchOf(GetRepository(fullName)) == Enqueued(ReposGet(fullName, None), Omitted)
  {
    FullNameWithoutSlash(fullName);
  }

  // ---------------------------------------------------------------------------------------
  // getIssues: drop the pull requests from the repository's issue list
  // ---------------------------------------------------------------------------------------

  /** The `pull_request` object the API attaches to an issue that is a pull request. */
  datatype PullRequestLink = PullRequestLink(url: string)

  datatype Issue = Issue(number: int, title: string, pullRequest: Option<PullRequestLink>)

  /** An issue that is not a pull request (its `pull_request` property is absent). */
  predicate IsPlainIssue(issue: Issue) {
    issue.pullRequest.None?
  }

  /**
   * The result of getIssues for the response's `data`: an empty list when the data is missing
   * or empty, otherwise the plain issues.
   */
  function IssuesOf(data: Option<seq<Issue>>): (r: seq<Issue>)
    ensures data.None? || data.value == [] ==> r == []
    ensures forall issue :: issue in r <==> data.Some? && issue in data.value && issue.pullRequest.None?
    ensures data.Some? ==> r == Filter(data.value, IsPlainIssue)
  {
    if data.Some? && |data.value| > 0 then Filter(data.value, IsPlainIssue) else []
  }

  /**
   * Every plain issue is kept as often as it occurs, the order follows the input, and a list
   * without pull requests comes back unchanged.
   */
  lemma IssuesOfKeepsPlainIssues(a: seq<Issue>, b: seq<Issue>)
    ensures forall issue :: multiset(IssuesOf(Some(a)))[issue]
                            == if issue.pullRequest.None? then multiset(a)[issue] else 0
    ensures IssuesOf(Some(a + b)) == IssuesOf(Some(a)) + IssuesOf(Some(b))
    ensures (forall issue :: issue in a ==> issue.pullRequest.None?) ==> IssuesOf(Some(a)) == a
  {
    FilterMultiset(a, IsPlainIssue);
    FilterAppend(a, b, IsPlainIssue);
    if forall issue :: issue in a ==> issue.pullRequest.None? {
      FilterKeepsAll(a, IsPlainIssue);
    }
  }

  // ---------------------------------------------------------------------------------------
  // getRepos: the non-archived repositories, sorted by name
  // ---------------------------------------------------------------------------------------

  datatype Repo = Repo(name: string, fullName: string, archived: bool)

  predicate IsActive(repo: Repo) {
    !repo.archived
  }

  /**
   * A comparator in the sense of Array.prototype.sort: a positive result means the first
   * argument belongs after the second, and then the reverse comparison is negative.
   * `localeCompare` is such a comparator; which one is left abstract.
   */
  ghost predicate ConsistentComparator(cmp: (string, string) -> int) {
    forall a, b :: cmp(a, b) > 0 ==> cmp(b, a) < 0
  }

  /** Each repository's name compares at most equal to the next one's. */
  predicate SortedByName(s: seq<Repo>, cmp: (string, string) -> int) {
    forall i :: 0 < i < |s| ==> cmp(s[i - 1].name, s[i].name) <= 0
  }

  /** Putting a repository in front of a sorted list that starts no lower keeps it sorted. */
  lemma SortedCons(x: Repo, s: seq<Repo>, cmp: (string, string) -> int)
    requires SortedByName(s, cmp)
    requires s != [] ==> cmp(x.name, s[0].name) <= 0
    ensures SortedByName([x] + s, cmp)
  {
    var r := [x] + s;
    forall i | 0 < i < |r| ensures cmp(r[i - 1].name, r[i].name) <= 0 {
      if i > 1 {
        assert r[i - 1] == s[i - 2] && r[i] == s[i - 1];
      }
    }
  }

  /** The tail of a sorted list is sorted. */
  lemma SortedTail(s: seq<Repo>, cmp: (string, string) -> int)
    requires s != [] && SortedByName(s, cmp)
    ensures SortedByName(s[1..], cmp)
  {
    forall i | 0 < i < |s[1..]| ensures cmp(s[1..][i - 1].name, s[1..][i].name) <= 0 {
      assert s[1..][i - 1] == s[i] && s[1..][i] == s[i + 1];
    }
  }

  /** Insert `x` after the leading repositories that compare at most equal to it. */
  function InsertByName(x: Repo, s: seq<Repo>, cmp: (string, string) -> int): (r: seq<Repo>)
    ensures multiset(r) == multiset(s) + multiset{x}
  {
    if s == [] then [x]
    else if cmp(s[0].name, x.name) <= 0 then
      assert s == [s[0]] + s[1..];
      [s[0]] + InsertByName(x, s[1..], cmp)
    else [x] + s
  }

  /** Inserting into a sorted list keeps it sorted; the new head is `x` or the old head. */
  lemma {:induction false} InsertByNameSorted(x: Repo, s: seq<Repo>, cmp: (string, string) -> int)
    requires ConsistentComparator(cmp) && SortedByName(s, cmp)
    ensures SortedByName(InsertByName(x, s, cmp), cmp)
    ensures InsertByName(x, s, cmp)[0] == x || (s != [] && InsertByName(x, s, cmp)[0] == s[0])
  {
    if s == [] {
      assert InsertByName(x, s, cmp) == [x];
    } else if cmp(s[0].name, x.name) <= 0 {
      SortedTail(s, cmp);
      InsertByNameSorted(x, s[1..], cmp);
      var rest := InsertByName(x, s[1..], cmp);
      assert |s| > 1 ==> cmp(s[0].name, s[1].name) <= 0;
      SortedCons(s[0], rest, cmp);
    } else {
      assert cmp(x.name, s[0].name) < 0;
      SortedCons(x, s, cmp);
    }
  }

  /** Insertion sort by name. */
  function SortByName(s: seq<Repo>, cmp: (string, string) -> int): (r: seq<Repo>)
    requires ConsistentComparator(cmp)
    ensures SortedByName(r, cmp)
    ensures multiset(r) == multiset(s)
  {
    if s == [] then []
    else
      var init := s[..|s| - 1];
      assert s == init + [s[|s| - 1]];
      var sorted := SortByName(init, cmp);
      InsertByNameSorted(s[|s| - 1], sorted, cmp);
      InsertByName(s[|s| - 1], sorted, cmp)
  }

  /** The result of getRepos for the fetched repositories, ordered by `cmp` on their names. */
  function ReposOf(repos: seq<Repo>, cmp: (string, string) -> int): (r: seq<Repo>)
    requires ConsistentComparator(cmp)
    ensures SortedByName(r, cmp)
    ensures multiset(r) == multiset(Filter(repos, IsActive))
    ensures forall repo :: repo in r <==> repo in repos && !repo.archived
  {
    var active := Filter(repos, IsActive);
    var r := SortByName(active, cmp);
    assert forall repo :: repo in r <==> repo in active by {
      forall repo ensures repo in r <==> repo in active {
        assert repo in r <==> multiset(r)[repo] > 0;
        assert repo in active <==> multiset(active)[repo] > 0;
      }
    }
    r
  }

  /** With a transitive comparator, sorted by neighbours means sorted between any two positions. */
  lemma {:induction false} SortedByNameAllPairs(s: seq<Repo>, cmp: (string, string) -> int, i: int, j: int)
    requires forall a, b, c :: cmp(a, b) <= 0 && cmp(b, c) <= 0 ==> cmp(a, c) <= 0
    requires SortedByName(s, cmp)
    requires 0 <= i < j < |s|
    ensures cmp(s[i].name, s[j].name) <= 0
    decreases j - i
  {
    if i + 1 < j {
      SortedByNameAllPairs(s, cmp, i + 1, j);
      assert cmp(s[i].name, s[i + 1].name) <= 0;
    }
  }

  // ---------------------------------------------------------------------------------------
  // getPRApprovals: the latest review of each reviewer
  // ---------------------------------------------------------------------------------------

  datatype User = User(login: string, avatarUrl: string)

  /** A pull-request review; `submittedAt` is the submission time as a number. */
  datatype Review = Review(nodeId: string, user: User, state: string, submittedAt: int)

  /** The response's `data`: missing, present but not an array, or an array of reviews. */
  datatype ReviewsData = Absent | NotAnArray | Reviews(items: seq<Review>)

  /** The logins of the authors of `reviews`. */
  function Logins(reviews: seq<Review>): set<string> {
    set r | r in reviews :: r.user.login
  }

  /**
   * `reviews[k]` is the review its author's entry ends up holding: no review by the same
   * author is newer, and every earlier one by that author is strictly older.
   */
  predicate IsLatestAt(reviews: seq<Review>, k: nat)
    requires k < |reviews|
  {
    && (forall j :: k < j < |reviews| && reviews[j].user.login == reviews[k].user.login ==>
          reviews[j].submittedAt <= reviews[k].submittedAt)
    && (forall j :: 0 <= j < k && reviews[j].user.login == reviews[k].user.login ==>
          reviews[j].submittedAt < reviews[k].submittedAt)
  }

  /** The position of the latest review by `login`: its newest, the first of them on a tie. */
  function LatestIndex(reviews: seq<Review>, login: string): (k: nat)
    requires login in Logins(reviews)
    ensures k < |reviews| && reviews[k].user.login == login && IsLatestAt(reviews, k)
  {
    var n := |reviews| - 1;
    var prefix := reviews[..n];
    assert forall j :: 0 <= j < n ==> prefix[j] == reviews[j];
    if login !in Logins(prefix) then
      assert reviews[n].user.login == login by {
        var r :| r in reviews && r.user.login == login;
        assert reviews == prefix + [reviews[n]];
      }
      assert forall j :: 0 <= j < n ==> reviews[j].user.login != login by {
        forall j | 0 <= j < n ensures reviews[j].user.login != login {
          assert prefix[j] in prefix;
        }
      }
      n
    else
      var k := LatestIndex(prefix, login);
      if reviews[n].user.login == login && reviews[k].submittedAt < reviews[n].submittedAt then n
      else k
  }

  lemma LoginsAppend(reviews: seq<Review>, review: Review)
    ensures Logins(reviews + [review]) == Logins(reviews) + {review.user.login}
  {
    var s := reviews + [review];
    assert s[|reviews|] == review;
    forall r | r in s ensures r in reviews || r == review {
      var j :| 0 <= j < |s| && s[j] == r;
      if j < |reviews| { assert s[j] == reviews[j]; }
    }
  }

  /** How appending a review moves an author's latest index: the reduce's single step. */
  lemma LatestIndexAppend(reviews: seq<Review>, review: Review, login: string)
    requires login in Logins(reviews + [review])
    ensures LatestIndex(reviews + [review], login) ==
      if login !in Logins(reviews) then |reviews|
      else if review.user.login == login
              && reviews[LatestIndex(reviews, login)].submittedAt < review.submittedAt then |reviews|
      else LatestIndex(reviews, login)
  {
    var s := reviews + [review];
    assert s[..|reviews|] == reviews;
  }

  /** At most one position holds the latest review of a given author. */
  lemma LatestIsUnique(reviews: seq<Review>, i: nat, k: nat)
    requires i < |reviews| && k < |reviews|
    requires reviews[i].user.login == reviews[k].user.login
    requires IsLatestAt(reviews, i) && IsLatestAt(reviews, k)
    ensures i == k
  {
  }

  /** A review is the one kept for its author exactly when it is at that author's latest index. */
  lemma LatestIndexExactly(reviews: seq<Review>, k: nat)
    requires k < |reviews|
    ensures reviews[k].user.login in Logins(reviews)
    ensures IsLatestAt(reviews, k) <==> LatestIndex(reviews, reviews[k].user.login) == k
  {
    var login := reviews[k].user.login;
    assert reviews[k] in reviews;
    var m := LatestIndex(reviews, login);
    if IsLatestAt(reviews, k) {
      LatestIsUnique(reviews, k, m);
    }
  }

  /** `acc` holds, under each author of `reviews`, that author's latest review. */
  predicate IsLatestMap(reviews: seq<Review>, acc: map<string, Review>) {
    && acc.Keys == Logins(reviews)
    && forall login :: login in acc ==> acc[login] == reviews[LatestIndex(reviews, login)]
  }

  /** One step of the reduce keeps the accumulator the latest-review map of the reviews seen. */
  lemma ReduceStep(seen: seq<Review>, review: Review, acc: map<string, Review>)
    requires IsLatestMap(seen, acc)
    ensures var login := review.user.login;
            IsLatestMap(seen + [review],
                        if login !in acc || acc[login].submittedAt < review.submittedAt
                        then acc[login := review] else acc)
  {
    var login := review.user.login;
    var next := if login !in acc || acc[login].submittedAt < review.submittedAt
                then acc[login := review] else acc;
    LoginsAppend(seen, review);
    assert next.Keys == Logins(seen + [review]);
    forall l | l in next ensures next[l] == (seen + [review])[LatestIndex(seen + [review], l)] {
      LatestIndexAppend(seen, review, l);
      if l != login {
        assert l in Logins(seen);
      }
    }
  }

  /**
   * The `reduce` over the reviews: an entry per author, replaced only by a strictly newer
   * review. Keys are looked up as own properties only (see README, Findings).
   */
  method LatestByLogin(reviews: seq<Review>) returns (acc: map<string, Review>)
    ensures acc.Keys == Logins(reviews)
    ensures forall login :: login in acc ==> acc[login] == reviews[LatestIndex(reviews, login)]
  {
    acc := map[];
    var i := 0;
    while i < |reviews|
      invariant 0 <= i <= |reviews|
      invariant IsLatestMap(reviews[..i], acc)
    {
      var review := reviews[i];
      var login := review.user.login;
      ReduceStep(reviews[..i], review, acc);
      assert reviews[..i + 1] == reviews[..i] + [review];
      if login !in acc || acc[login].submittedAt < review.submittedAt {
        acc := acc[login := review];
      }
      i := i + 1;
    }
    assert reviews[..i] == reviews;
  }

  /** No two entries of `s` have the same author. */
  predicate DistinctLogins(s: seq<Review>) {
    forall i, j :: 0 <= i < j < |s| ==> s[i].user.login != s[j].user.login
  }

  /**
   * `approvals` lists the latest review of every author of `reviews`, once each, in some
   * order.
   */
  predicate ListsLatest(reviews: seq<Review>, approvals: seq<Review>) {
    && DistinctLogins(approvals)
    && Logins(approvals) == Logins(reviews)
    && forall i :: 0 <= i < |approvals| ==>
         approvals[i].user.login in Logins(reviews) &&
         approvals[i] == reviews[LatestIndex(reviews, approvals[i].user.login)]
  }

  /**
   * getPRApprovals after the response arrives: nothing unless the data is a non-empty
   * array, and otherwise the values of the per-author reduction, in no promised order.
   */
  method ApprovalsOf(data: ReviewsData) returns (approvals: seq<Review>)
    ensures !(data.Reviews? && |data.items| > 0) ==> approvals == []
    ensures data.Reviews? ==> ListsLatest(data.items, approvals)
  {
    if !data.Reviews? || |data.items| == 0 {
      return [];
    }
    var acc := LatestByLogin(data.items);
    approvals := ValuesOf(acc);
  }

  /** Object.values of the per-author map: every entry once, in an order left open. */
  method ValuesOf(acc: map<string, Review>) returns (values: seq<Review>)
    requires forall login :: login in acc ==> acc[login].user.login == login
    ensures DistinctLogins(values)
    ensures Logins(values) == acc.Keys
    ensures forall i :: 0 <= i < |values| ==>
              values[i].user.login in acc && values[i] == acc[values[i].user.login]
  {
    var keys := acc.Keys;
    values := [];
    while keys != {}
      invariant keys <= acc.Keys
      invariant Logins(values) == acc.Keys - keys
      invariant DistinctLogins(values)
      invariant forall i :: 0 <= i < |values| ==>
                  values[i].user.login in acc && values[i] == acc[values[i].user.login]
      decreases keys
    {
      var login :| login in keys;
      var review := acc[login];
      forall i | 0 <= i < |values| ensures values[i].user.login != login {
        assert values[i] in values;
      }
      LoginsAppend(values, review);
      values := values + [review];
      keys := keys - {login};
    }
  }

  lemma LoginsCons(review: Review, reviews: seq<Review>)
    ensures Logins([review] + reviews) == {review.user.login} + Logins(reviews)
  {
    var s := [review] + reviews;
    assert s[0] == review;
    forall r | r in s ensures r == review || r in reviews {
      var j :| 0 <= j < |s| && s[j] == r;
      if j > 0 { assert s[j] == reviews[j - 1]; }
    }
    forall r | r in reviews ensures r in s {
      var j :| 0 <= j < |reviews| && reviews[j] == r;
      assert s[j + 1] == r;
    }
  }

  /** A list has distinct authors when its tail has and its head's author is not in the tail. */
  lemma DistinctLoginsCons(review: Review, reviews: seq<Review>)
    ensures DistinctLogins([review] + reviews)
        <==> DistinctLogins(reviews) && review.user.login !in Logins(reviews)
  {
    var s := [review] + reviews;
    if DistinctLogins(s) {
      forall i, j | 0 <= i < j < |reviews| ensures reviews[i].user.login != reviews[j].user.login {
        assert reviews[i] == s[i + 1] && reviews[j] == s[j + 1];
      }
      forall r | r in reviews ensures r.user.login != review.user.login {
        var j :| 0 <= j < |reviews| && reviews[j] == r;
        assert s[0] == review && s[j + 1] == r;
        assert s[0].user.login != s[j + 1].user.login;
      }
    }
    if DistinctLogins(reviews) && review.user.login !in Logins(reviews) {
      forall i, j | 0 <= i < j < |s| ensures s[i].user.login != s[j].user.login {
        assert s[j] == reviews[j - 1] && s[j] in reviews;
        if i > 0 {
          assert s[i] == reviews[i - 1];
        }
      }
    }
  }

  /** A list of distinct authors has as many entries as authors. */
  lemma {:induction false} DistinctLoginsCount(s: seq<Review>)
    requires DistinctLogins(s)
    ensures |Logins(s)| == |s|
  {
    if s != [] {
      assert s == [s[0]] + s[1..];
      DistinctLoginsCons(s[0], s[1..]);
      LoginsCons(s[0], s[1..]);
      DistinctLoginsCount(s[1..]);
    }
  }

  /** Filtering a list of distinct authors keeps them distinct. */
  lemma {:induction false} FilterKeepsDistinctLogins(s: seq<Review>, p: Review -> bool)
    requires DistinctLogins(s)
    ensures DistinctLogins(Filter(s, p))
  {
    if s != [] {
      var tail := s[1..];
      assert s == [s[0]] + tail;
      DistinctLoginsCons(s[0], tail);
      FilterKeepsDistinctLogins(tail, p);
      var ft := Filter(tail, p);
      if p(s[0]) {
        assert s[0].user.login !in Logins(ft);
        DistinctLoginsCons(s[0], ft);
        assert Filter(s, p) == [s[0]] + ft;
      } else {
        assert Filter(s, p) == [] + ft;
      }
    }
  }

  // ---------------------------------------------------------------------------------------
  // The reduction as written, over a plain object accumulator
  // ---------------------------------------------------------------------------------------

  /** The properties every plain object inherits from Object.prototype. */
  const ObjectPrototypeKeys: set<string> := {
    "constructor", "hasOwnProperty", "isPrototypeOf", "propertyIsEnumerable",
    "toLocaleString", "toString", "valueOf", "__proto__",
    "__defineGetter__", "__defineSetter__", "__lookupGetter__", "__lookupSetter__"
  }

  /**
   * One step of the reduce with `acc` a plain object: an inherited property reads as a
   * truthy value whose `submitted_at` is undefined, and an invalid date is never less than
   * another date, so a review whose login names such a property is not stored.
   */
  function StepAsWritten(acc: map<string, Review>, review: Review): map<string, Review> {
    var login := review.user.login;
    if login in acc then
      if acc[login].submittedAt < review.submittedAt then acc[login := review] else acc
    else if login in ObjectPrototypeKeys then acc
    else acc[login := review]
  }

  /** The reduce as written: its keys miss every author whose login is an inherited property. */
  function ReduceAsWritten(reviews: seq<Review>): (acc: map<string, Review>)
    ensures acc.Keys == Logins(reviews) - ObjectPrototypeKeys
  {
    if reviews == [] then map[]
    else
      var n := |reviews| - 1;
      assert reviews == reviews[..n] + [reviews[n]];
      assert Logins(reviews) == Logins(reviews[..n]) + {reviews[n].user.login};
      StepAsWritten(ReduceAsWritten(reviews[..n]), reviews[n])
  }

  /**
   * Every author the reduce as written keeps holds that author's latest review, so the
   * dropped authors are its only difference from the latest-review map of LatestByLogin.
   */
  lemma {:induction false} ReduceAsWrittenKeepsLatest(reviews: seq<Review>)
    ensures forall login :: login in ReduceAsWritten(reviews) ==>
              login in Logins(reviews) &&
              ReduceAsWritten(reviews)[login] == reviews[LatestIndex(reviews, login)]
    ensures Logins(reviews) !! ObjectPrototypeKeys ==> IsLatestMap(reviews, ReduceAsWritten(reviews))
  {
    if reviews != [] {
      var n := |reviews| - 1;
      var prefix := reviews[..n];
      assert reviews == prefix + [reviews[n]];
      LoginsAppend(prefix, reviews[n]);
      ReduceAsWrittenKeepsLatest(prefix);
      forall login | login in ReduceAsWritten(reviews)
        ensures ReduceAsWritten(reviews)[login] == reviews[LatestIndex(reviews, login)]
      {
        LatestIndexAppend(prefix, reviews[n], login);
      }
    }
  }

  /** A reviewer with the login "constructor" disappears from the approvals as written. */
  lemma ConstructorLoginDropped()
    ensures var reviews := [Review("R_1", User("constructor", ""), "APPROVED", 1)];
            "constructor" in Logins(reviews) && "constructor" !in ReduceAsWritten(reviews)
  {
    var reviews := [Review("R_1", User("constructor", ""), "APPROVED", 1)];
    assert reviews[0] in reviews;
  }
}
