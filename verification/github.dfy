/** The scraper of github.js: confirm through the REST API that the pull
    request exists, fetch its HTML page, take the text of the participants
    sidebar heading and extract the participant count from it.

    The network is a pair of functions from URL to what a GET of that URL
    yields: `statusOf` for the API probe and `pageOf` for the page, the
    latter already reduced to what the CSS query over the parsed document
    finds. */
module Github {
  import opened Wrappers
  import opened Strings
  import opened ParticipantPattern
  import Config

  const ApiPrefix: string := "https://api.github.com/repos/"
  const PagePrefix: string := "https://github.com/"
  const OkStatus: nat := 200

  /** The URL probed by validateGithubPullRequest. For names without `/`
      it reads back as the same triple, and it is never the page URL. */
  function ApiUrl(user: string, repository: string, number: string): (url: string)
    ensures '/' !in user && '/' !in repository ==> ParseApiUrl(url) == Some((user, repository, number))
    ensures url != PullRequestUrl(user, repository, number)
  {
    var url := ApiPrefix + user + "/" + repository + "/" + "pulls/" + number;
    LayoutParsesBack(ApiPrefix, user, repository, "pulls/", number);
    assert url[8] == 'a' && PullRequestUrl(user, repository, number)[8] == 'g';
    url
  }

  /** getGithubPullRequestURL. For names without `/` it reads back as the
      same triple. */
  function PullRequestUrl(user: string, repository: string, number: string): (url: string)
    ensures '/' !in user && '/' !in repository ==> ParsePullRequestUrl(url) == Some((user, repository, number))
  {
    var url := PagePrefix + user + "/" + repository + "/" + "pull/" + number;
    LayoutParsesBack(PagePrefix, user, repository, "pull/", number);
    url
  }

  /** One child node of the heading element, with its `rawText`. */
  datatype ChildNode = ChildNode(rawText: Option<string>)

  /** The element found by `querySelector`, reduced to its child nodes. */
  datatype Heading = Heading(childNodes: seq<ChildNode>)

  /** What fetching and parsing the pull request page yields: a rejected
      fetch (or body read), a parse failure, or the parsed document, of
      which only the result of the sidebar query matters. */
  datatype PageOutcome =
    | Unreachable(cause: string)
    | Unparsable(cause: string)
    | Document(heading: Option<Heading>)

  /** The errors getParticipants can throw; `cause` is the rendering of the
      wrapped foreign error. */
  datatype GithubError =
    | NotFetched(number: string, user: string, repository: string, status: nat)
    | FetchFailed(cause: string)
    | ParseFailed(url: string, cause: string)
    | NoParticipantString
    | NoParticipantCount

  /** The text of the thrown error. A wrapped foreign error ends the
      message, and a parse failure quotes the page URL. */
  function Message(e: GithubError): (m: string)
    ensures e.FetchFailed? || e.ParseFailed? ==> |e.cause| <= |m| && OccursAt(e.cause, m, |m| - |e.cause|)
    ensures e.ParseFailed? ==> OccursAt(Config.Quote(e.url), m, |"cannot parse Github PR page at "|)
  {
    match e
    case NotFetched(number, user, repository, status) =>
      "the Github PR #" + number + " on the " + user + "/" + repository
        + " repository could not be fetched (" + FromNat(status) + " error)"
    case FetchFailed(cause) =>
      OccursInConcat("cannot fetch Github PR HTML page: ", cause, []);
      "cannot fetch Github PR HTML page: " + cause
    case ParseFailed(url, cause) =>
      var m := "cannot parse Github PR page at " + Config.Quote(url) + ": " + cause;
      OccursInConcat("cannot parse Github PR page at ", Config.Quote(url), ": " + cause);
      OccursInConcat("cannot parse Github PR page at " + Config.Quote(url) + ": ", cause, []);
      m
    case NoParticipantString => "cannot parse participant string in Github Pull Request HTML page"
    case NoParticipantCount => "cannot parse number of participants in participant string"
  }

  // ---------------------------------------------------------------------
  // The page URL and its inverse

  /** Splits at the first `/`. */
  function SplitAtSlash(s: string): (r: Option<(string, string)>)
    ensures r.Some? ==> '/' !in r.value.0 && s == r.value.0 + "/" + r.value.1
    ensures r.None? ==> '/' !in s
  {
    if |s| == 0 then None
    else if s[0] == '/' then Some(([], s[1..]))
    else
      match SplitAtSlash(s[1..])
      case None => None
      case Some((a, b)) => Some(([s[0]] + a, b))
  }

  lemma {:induction false} SplitAtSlashJoin(a: string, b: string)
    requires '/' !in a
    ensures SplitAtSlash(a + "/" + b) == Some((a, b))
  {
    if |a| > 0 {
      assert (a + "/" + b)[1..] == a[1..] + "/" + b;
      SplitAtSlashJoin(a[1..], b);
      assert [a[0]] + a[1..] == a;
    }
  }

  /** Reads user, repository and number back out of a URL laid out as
      `prefix` `user` `/` `repository` `/` `segment` `number`. */
  function ParseUrl(prefix: string, segment: string, url: string): Option<(string, string, string)> {
    if |url| < |prefix| || url[..|prefix|] != prefix then None
    else
      match SplitAtSlash(url[|prefix|..])
      case None => None
      case Some((user, rest)) =>
        match SplitAtSlash(rest)
        case None => None
        case Some((repository, path)) =>
          if |path| < |segment| || path[..|segment|] != segment then None
          else Some((user, repository, path[|segment|..]))
  }

  function ParseApiUrl(url: string): Option<(string, string, string)> {
    ParseUrl(ApiPrefix, "pulls/", url)
  }

  function ParsePullRequestUrl(url: string): Option<(string, string, string)> {
    ParseUrl(PagePrefix, "pull/", url)
  }

  /** The layout of both URLs reads back as the triple it was built from,
      when user and repository hold no `/`. */
  lemma LayoutParsesBack(prefix: string, user: string, repository: string, segment: string, number: string)
    ensures '/' !in user && '/' !in repository ==>
      ParseUrl(prefix, segment, prefix + user + "/" + repository + "/" + segment + number)
        == Some((user, repository, number))
  {
    if '/' !in user && '/' !in repository {
      var url := prefix + user + "/" + repository + "/" + segment + number;
      var rest := repository + "/" + (segment + number);
      assert url[..|prefix|] == prefix;
      assert url[|prefix|..] == user + "/" + rest;
      SplitAtSlashJoin(user, rest);
      SplitAtSlashJoin(repository, segment + number);
      assert (segment + number)[..|segment|] == segment;
      assert (segment + number)[|segment|..] == number;
    }
  }

  lemma ValidNamesHaveNoSlash(user: string, repository: string)
    requires Config.ValidUsername(user) && Config.ValidRepository(repository)
    ensures '/' !in user && '/' !in repository
  {
  }

  /** Distinct validated pull requests are fetched from distinct pages. */
  lemma PullRequestUrlInjective(u1: string, r1: string, n1: string, u2: string, r2: string, n2: string)
    requires Config.ValidUsername(u1) && Config.ValidRepository(r1)
    requires Config.ValidUsername(u2) && Config.ValidRepository(r2)
    requires PullRequestUrl(u1, r1, n1) == PullRequestUrl(u2, r2, n2)
    ensures u1 == u2 && r1 == r2 && n1 == n2
  {
    ValidNamesHaveNoSlash(u1, r1);
    ValidNamesHaveNoSlash(u2, r2);
  }

  // ---------------------------------------------------------------------
  // The stages of getParticipants

  /** validateGithubPullRequest, given the status the probe answered. */
  function ValidatePullRequest(user: string, repository: string, number: string, status: nat): (r: Result<(), GithubError>)
    ensures r.Ok? <==> status == OkStatus
    ensures r.Err? ==> r.error == NotFetched(number, user, repository, status)
  {
    if status != OkStatus then Err(NotFetched(number, user, repository, status)) else Ok(())
  }

  /** parseGithubPullRequestPage (with fetchGithubPullRequestHTML) followed
      by the sidebar query. */
  function FetchHeading(user: string, repository: string, number: string, pageOf: string -> PageOutcome): (r: Result<Option<Heading>, GithubError>)
    ensures var page := pageOf(PullRequestUrl(user, repository, number));
      && (r.Ok? <==> page.Document?)
      && (r.Ok? ==> page == Document(r.value))
      && (page.Unreachable? ==> r == Err(FetchFailed(page.cause)))
      && (page.Unparsable? ==> r == Err(ParseFailed(PullRequestUrl(user, repository, number), page.cause)))
  {
    var url := PullRequestUrl(user, repository, number);
    match pageOf(url)
    case Unreachable(cause) => Err(FetchFailed(cause))
    case Unparsable(cause) => Err(ParseFailed(url, cause))
    case Document(heading) => Ok(heading)
  }

  /** The guard on the queried heading: it must exist, have a first child
      node, and that child must have text. */
  function ParticipantString(heading: Option<Heading>): (r: Result<string, GithubError>)
    ensures r.Err? ==> r.error == NoParticipantString
    ensures r.Err? <==>
      || heading.None?
      || |heading.value.childNodes| == 0
      || heading.value.childNodes[0].rawText.None?
    ensures r.Ok? ==> Some(r.value) == heading.value.childNodes[0].rawText
  {
    if heading.None? || |heading.value.childNodes| < 1 || heading.value.childNodes[0].rawText.None? then
      Err(NoParticipantString)
    else
      Ok(heading.value.childNodes[0].rawText.value)
  }

  /** The pattern applied to the heading text: the captured digits, or an
      error when nothing matches. */
  function ParticipantCount(text: string): (r: Result<string, GithubError>)
    ensures r.Ok? ==> 0 < |r.value| && AllDigits(r.value)
    ensures r.Ok? ==> exists i: nat, j: nat :: LeftmostMatch(text, i, j) && r.value == text[i + 1..j]
    ensures r.Err? <==> forall i: nat, j: nat :: !MatchAt(text, i, j)
    ensures r.Err? ==> r.error == NoParticipantCount
  {
    match Capture(text)
    case None => Err(NoParticipantCount)
    case Some(digits) =>
      CaptureShape(text);
      Ok(digits)
  }

  /** getParticipants: probe, then page, then heading, then pattern; the
      first stage to fail decides the error. */
  function GetParticipants(user: string, repository: string, number: string,
                           statusOf: string -> nat, pageOf: string -> PageOutcome): (r: Result<string, GithubError>)
    ensures var status := statusOf(ApiUrl(user, repository, number));
      status != OkStatus ==> r == Err(NotFetched(number, user, repository, status))
    ensures r.Err? && !r.error.NotFetched? ==> statusOf(ApiUrl(user, repository, number)) == OkStatus
    ensures r.Err? && (r.error.NoParticipantString? || r.error.NoParticipantCount?) ==>
      pageOf(PullRequestUrl(user, repository, number)).Document?
    ensures r.Err? && r.error.ParseFailed? ==> r.error.url == PullRequestUrl(user, repository, number)
    ensures r.Ok? ==>
      && statusOf(ApiUrl(user, repository, number)) == OkStatus
      && var page := pageOf(PullRequestUrl(user, repository, number));
      && page.Document?
      && ParticipantString(page.heading).Ok?
      && var text := ParticipantString(page.heading).value;
      && 0 < |r.value| && AllDigits(r.value)
      && exists i: nat, j: nat :: LeftmostMatch(text, i, j) && r.value == text[i + 1..j]
    ensures var page := pageOf(PullRequestUrl(user, repository, number));
      statusOf(ApiUrl(user, repository, number)) == OkStatus ==>
        && (page.Unreachable? ==> r == Err(FetchFailed(page.cause)))
        && (page.Unparsable? ==> r == Err(ParseFailed(PullRequestUrl(user, repository, number), page.cause)))
        && (page.Document? && ParticipantString(page.heading).Err? ==> r == Err(NoParticipantString))
        && (page.Document? && ParticipantString(page.heading).Ok? ==>
              var text := ParticipantString(page.heading).value;
              && (r.Ok? <==> exists i: nat, j: nat :: MatchAt(text, i, j))
              && (r.Err? ==> r.error == NoParticipantCount))
  {
    var _ :- ValidatePullRequest(user, repository, number, statusOf(ApiUrl(user, repository, number)));
    var heading :- FetchHeading(user, repository, number, pageOf);
    var text :- ParticipantString(heading);
    ParticipantCount(text)
  }

  /** The existence failure names the pull request as `#number`, the
      repository as `user/repository`, and the status in decimal. */
  lemma NotFetchedMessageNames(number: string, user: string, repository: string, status: nat)
    ensures var m := Message(NotFetched(number, user, repository, status));
      && Infix("#" + number, m)
      && Infix(user + "/" + repository, m)
      && Infix("(" + FromNat(status) + " error)", m)
  {
    var m := Message(NotFetched(number, user, repository, status));
    var n := "#" + number;
    var ur := user + "/" + repository;
    var st := "(" + FromNat(status) + " error)";
    var c := " repository could not be fetched ";
    assert m == "the Github PR " + n + (" on the " + ur + c + st);
    OccursInConcat("the Github PR ", n, " on the " + ur + c + st);
    assert m == ("the Github PR " + n + " on the ") + ur + (c + st);
    OccursInConcat("the Github PR " + n + " on the ", ur, c + st);
    assert m == ("the Github PR " + n + " on the " + ur + c) + st + [];
    OccursInConcat("the Github PR " + n + " on the " + ur + c, st, []);
  }

  /** A failed existence check decides the outcome whatever the page would
      have been: nothing after it is consulted. */
  lemma ExistenceFailurePreempts(user: string, repository: string, number: string,
                                 statusOf: string -> nat, pageOf1: string -> PageOutcome, pageOf2: string -> PageOutcome)
    requires statusOf(ApiUrl(user, repository, number)) != OkStatus
    ensures GetParticipants(user, repository, number, statusOf, pageOf1)
         == GetParticipants(user, repository, number, statusOf, pageOf2)
  {
  }

  /** Only the two URLs of this pull request are consulted. */
  lemma OnlyOwnUrlsConsulted(user: string, repository: string, number: string,
                             statusOf1: string -> nat, pageOf1: string -> PageOutcome,
                             statusOf2: string -> nat, pageOf2: string -> PageOutcome)
    requires statusOf1(ApiUrl(user, repository, number)) == statusOf2(ApiUrl(user, repository, number))
    requires pageOf1(PullRequestUrl(user, repository, number)) == pageOf2(PullRequestUrl(user, repository, number))
    ensures GetParticipants(user, repository, number, statusOf1, pageOf1)
         == GetParticipants(user, repository, number, statusOf2, pageOf2)
  {
  }

  /** The scenario of the missing repository: a 404 from the probe gives the
      error, and message, that the test expects. */
  lemma MissingRepositoryScenario(pageOf: string -> PageOutcome)
    ensures
      var statusOf := (url: string) => 404;
      var r := GetParticipants("just1not2", "fake-repository", "1", statusOf, pageOf);
      && r == Err(NotFetched("1", "just1not2", "fake-repository", 404))
      && Message(r.error) == "the Github PR #" + "1" + " on the " + "just1not2" + "/" + "fake-repository"
           + " repository could not be fetched (" + "404" + " error)"
  {
    assert FromNat(404) == FromNat(40) + [DigitChar(4)];
    assert FromNat(40) == FromNat(4) + [DigitChar(0)];
    assert FromNat(404) == "404";
  }

  /** The scenario of a real pull request: with the heading text reading
      "  104 participants" (the pattern needs the space before the digits),
      the count "104" comes back. */
  lemma KnownCountScenario(statusOf: string -> nat, pageOf: string -> PageOutcome)
    requires statusOf(ApiUrl("Xilinx", "llvm-project", "2")) == OkStatus
    requires pageOf(PullRequestUrl("Xilinx", "llvm-project", "2"))
          == Document(Some(Heading([ChildNode(Some("  104 participants"))])))
    ensures GetParticipants("Xilinx", "llvm-project", "2", statusOf, pageOf) == Ok("104")
  {
    CaptureOfKnownCount();
  }

  /** The pattern on the heading text of that scenario. */
  lemma CaptureOfKnownCount()
    ensures Capture("  104 participants") == Some("104")
  {
    var t := "  104 participants";
    assert t == "  104" + Tail + "s";
    OccursInConcat("  104", Tail, "s");
    assert t[1] == ' ' && t[2] == '1' && t[3] == '0' && t[4] == '4';
    assert t[2..5] == "104";
    assert MatchAt(t, 1, 5);
    assert forall j: nat :: !MatchAt(t, 0, j) by {
      assert !IsDigit(t[1]);
      forall j: nat | 1 < j <= |t| ensures !AllDigits(t[1..j]) {
        assert t[1..j][0] == t[1];
      }
    }
    LeftmostMatchCaptured(t, 1, 5);
  }

  /** A page without the sidebar heading fails at extraction, not before. */
  lemma MissingHeadingScenario(user: string, repository: string, number: string,
                               statusOf: string -> nat, pageOf: string -> PageOutcome)
    requires statusOf(ApiUrl(user, repository, number)) == OkStatus
    requires pageOf(PullRequestUrl(user, repository, number)) == Document(None)
    ensures GetParticipants(user, repository, number, statusOf, pageOf) == Err(NoParticipantString)
  {
  }
}
