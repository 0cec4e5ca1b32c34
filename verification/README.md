# GitHub PR counter — a Dafny model

The GitHub PR counter reads a GitHub user, a repository name and a pull
request number from the environment and validates them. It then confirms
through the GitHub REST API that the pull request exists, and scrapes the
pull request's HTML page for the participant count shown in its sidebar
heading.

This project models the two pieces of that pipeline that hold logic:

- **the configuration loader** (`config.js`), in module `Config`: three
  environment variables are checked in the order user, repository, number.
  Either the three raw strings come back unchanged, or the first failing
  check is thrown. The environment is an explicit `map<string, string>`;
  a missing key reads as JavaScript's `undefined` (`Option.None`).
- **the participant extraction** (`github.js`), in modules `Github` and
  `ParticipantPattern`. The stages are:
  - the existence probe, reduced to the status code it answers;
  - the page URL template;
  - fetch and parse of the page, reduced to what the sidebar query finds;
  - the guard on the heading's first text node;
  - the regular expression `/ (\d+) participant/`.

  The network enters as two functions from URL to response: `statusOf` for
  the probe and `pageOf` for the page. So the model also shows which URLs
  are consulted.

Supporting modules:

- `Wrappers`: `Option` and `Result`.
- `Strings`: ASCII digits, decimal values, the decimal rendering of a
  number, and substring occurrence.
- `CharClass`: bracketed character classes, and the anchored match
  `^[...]+$` in which they are used.

Behaviour worth knowing, all modelled and, except where noted, proved:

- The "not declared" guard of `getConfigurationKey` tests the key literal,
  never the value, so it cannot fire (`GetConfiguration` never returns
  `UndeclaredKey`).
  - A missing `GITHUB_USER` or `GITHUB_REPOSITORY` instead fails inside
    its validator. Calling `match` on `undefined` throws a `TypeError`,
    modelled as `MatchOnUndefined`.
  - A missing `GITHUB_PR_NUMBER` fails the number check quoting
    `"undefined"`, because `parseFloat(undefined)` parses the string
    `"undefined"`.
  - The source's own test expects otherwise; see Findings.
- In `[a-zA-Z\d-_]` the hyphen cannot form a range that starts at `\d`, so
  it is a literal. This reading of the class is how the model writes it
  down, not a proved fact. Given it, repository names allow letters,
  digits, `-` and `_`.
- `parseFloat` reads a numeric prefix, so `"12abc"` passes as a PR number
  and is stored as `"12abc"`. A digit string whose value is at least
  2^1024 - 2^970 (about 1.8 x 10^308) rounds to `Infinity` and fails
  `Number.isInteger`; leading zeros do not count towards that value.
- The participant pattern captures the maximal digit run of the leftmost
  match. Text appended after a match cannot change what is captured.

## Model

| member | source | states |
|---|---|---|
| `CharClass.FullMatchPlus` | config.js:30-31 | an anchored `^[class]+$` match holds iff the string is non-empty and every character is in the class |
| `Config.UsernameClassIsUsernameChar` | config.js:30 | `[a-zA-Z\d-]` contains exactly the ASCII letters, ASCII digits and `-` |
| `Config.RepositoryClassIsRepositoryChar` | config.js:38 | `[a-zA-Z\d-_]` contains exactly the ASCII letters, ASCII digits, `-` and `_` (the hyphen is literal) |
| `Config.UsernameRegexMatches` | config.js:29-31 | the username regular expression accepts a string iff it is non-empty and made of letters, digits and hyphens |
| `Config.RepositoryRegexMatches` | config.js:37-39 | the repository regular expression accepts a string iff it is non-empty and made of letters, digits, hyphens and underscores |
| `Config.NumberAccepted` | config.js:45-47 | the empty string fails; a plain digit string passes iff its value is at least 1 and below 2^1024 - 2^970, where parseFloat would round it to Infinity; a string opening with a visible ASCII character other than a digit, `+` or `.` fails |
| `Config.SmallDigitStringNumber` | config.js:45-46 | a digit string whose value is below 2^970 passes iff its value is at least 1 |
| `Config.LeadingDigitsNumber` | config.js:45-46 | digits followed by a character other than a digit, `.`, `e` or `E` are judged by the digits alone |
| `Config.DecimalNumberAccepted` | config.js:45-46 | the decimal rendering of every integer from 1 up to 2^970 passes |
| `Config.NumberExamples` | config.js:45-47 | "0", "-1", "abc" fail; "1", "42" pass; "12abc" passes as 12 |
| `Config.Validate` | config.js:28-49 | the user check passes iff the value is defined and a valid username, the repository check iff it is defined and a valid repository name; an undefined value gives the `undefined.match` TypeError, a defined invalid one the error quoting it. The number check passes iff the displayed value (`"undefined"` when missing) is accepted, and otherwise quotes that displayed value |
| `Config.ConfigurationKey` | config.js:14-20 | the guard fires only for an undefined key; otherwise the result is the validator's error, or else the environment value itself, unchanged |
| `Config.GetConfiguration` | config.js:27-52 | success iff user, repository and number are all present and valid; then the three raw strings come back unchanged. Otherwise the first failure in the order user, repository, number is reported: a missing user or repository is the `undefined.match` TypeError, a missing number is reported as `"undefined"`. "Not declared" never happens |
| `Config.UserFailureIgnoresLaterKeys` | config.js:28-36 | once the user check fails, repository, number and number check cannot change the result |
| `Config.RepositoryFailureIgnoresNumber` | config.js:36-44 | once the repository check fails, the number and the number check cannot change the result |
| `Config.Message` | config.js:16-47 | each validation message opens with the rejected value in double quotes; the "not declared" message quotes what stood for the key after `input key ` |
| `Config.MessageDeterminesError` | config.js:32-47 | two validation messages are equal only for the same check and the same value |
| `Config.ConfigurationKeyChecked` | config.js:15-17 | corrected guard: a key missing from the environment is reported by name, and the TypeError no longer occurs |
| `Config.GetConfigurationChecked` | config.js:27-52 | corrected loader: same successes as the original; the first missing key, in order, is reported by name |
| `Config.CheckedAgreesWhenDeclared` | config.js:15-19 | when all three variables are set, the corrected loader and the original agree |
| `Config.MissingRepositoryScenario` | test/config.test.js:10-14 | without `GITHUB_REPOSITORY` the original throws the TypeError, while the test expects the "not declared" error that only the corrected loader gives |
| `Config.NotANumberScenario` | test/config.test.js:16-21 | `GITHUB_PR_NUMBER = "NaN"` is rejected with the raw value quoted |
| `Config.ValidScenario` | test/config.test.js:23-28 | a valid environment yields exactly the three raw strings |
| `Strings.ValueOfFromNat` | github.js:21 | the decimal rendering of a status code reads back as that status |
| `ParticipantPattern.MatchEnd` | github.js:94 | at one start position the pattern matches iff a space, the maximal digit run and " participant" follow each other; no other end is possible |
| `ParticipantPattern.MatchEndUnique` | github.js:94 | a start position has at most one match end |
| `ParticipantPattern.Scan` | github.js:94 | trying start positions from left to right finds the first position that matches, or proves that none from there on does |
| `ParticipantPattern.Search` | github.js:94-95 | `match` reports the leftmost match, and returns null iff there is no match anywhere |
| `ParticipantPattern.Capture` | github.js:94-99 | the capture is absent iff the pattern matches nowhere; when present it is a non-empty string of ASCII digits |
| `ParticipantPattern.CaptureShape` | github.js:94-99 | the capture is a non-empty run of ASCII digits, preceded by a space and followed by " participant", taken from the leftmost match and maximal |
| `ParticipantPattern.LeftmostMatchCaptured` | github.js:94-99 | conversely, the digits of the leftmost match are exactly what is captured |
| `ParticipantPattern.CaptureStableUnderAppend` | github.js:94 | appending text after a match never changes the capture |
| `Github.ApiUrl` | github.js:19 | for user and repository without `/`, the probed API URL parses back to the same user, repository and number; it is never the page URL |
| `Github.PullRequestUrl` | github.js:33-35 | for user and repository without `/`, the page URL parses back to the same user, repository and number |
| `Github.PullRequestUrlInjective` | github.js:33-35 | validated users and repositories give distinct page URLs for distinct pull requests |
| `Github.ValidatePullRequest` | github.js:18-23 | the existence check passes iff the status is 200, and otherwise fails naming number, user, repository and status |
| `Github.Message` | github.js:21-96 | fetch and parse failures end with the wrapped error's text; the parse failure names the page URL in double quotes |
| `Github.NotFetchedMessageNames` | github.js:20-22 | the existence failure message contains `#number`, `user/repository` and `(status error)` |
| `Github.FetchHeading` | github.js:46-73 | only the page URL is fetched. A rejected fetch fails with its cause, a parse failure with the page URL and its cause; a parsed document succeeds with exactly its query result |
| `Github.ParticipantString` | github.js:87-92 | fails with "cannot parse participant string" iff the heading is absent, has no child node, or its first child has no text; otherwise yields that text |
| `Github.ParticipantCount` | github.js:94-99 | yields non-empty ASCII digits from the leftmost match; fails with "cannot parse number of participants" iff nothing matches |
| `Github.GetParticipants` | github.js:84-100 | a non-200 probe decides the result, whatever the page. After a 200: an unreachable page fails with its cause, an unparsable one with the page URL and cause, a missing heading text with "cannot parse participant string"; given the text, the result succeeds iff the pattern matches somewhere, and otherwise fails with "cannot parse number of participants". A success carries the leftmost match's digits from the heading's first text node |
| `Github.ExistenceFailurePreempts` | github.js:85-87 | after a failed existence check the page cannot affect the result |
| `Github.OnlyOwnUrlsConsulted` | github.js:19-49 | the result depends on the network only through this pull request's API URL and page URL |
| `Github.MissingRepositoryScenario` | src/test/github.test.js:13-19 | a 404 for `just1not2/fake-repository` #1 yields exactly the message the test expects |
| `Github.KnownCountScenario` | src/test/github.test.js:21-29 | a heading reading "  104 participants" yields "104" |
| `Github.MissingHeadingScenario` | github.js:87-91 | a parsed page without the sidebar heading fails at extraction with "cannot parse participant string" |

## Findings

| source | as written | input that shows it | evidently intended | confidence | as-written member | corrected member |
|---|---|---|---|---|---|---|
| config.js:15-17 | `typeof key === 'undefined'` tests the key, which is always a string literal, so the guard never fires | `GITHUB_USER=just1not2`, `GITHUB_PR_NUMBER=1`, `GITHUB_REPOSITORY` unset: the repository validator calls `match` on `undefined` and throws a TypeError | test the environment value and throw `input key "GITHUB_REPOSITORY" was not declared`, as test/config.test.js:13 expects | high (the project's own test expects the intended message); not executed | `Config.MissingRepositoryScenario` | `Config.GetConfigurationChecked` |

The rest of the model follows the code as written. `Config.GetConfiguration`
is the loader, and the corrected loader is a separate definition beside it.
Nothing downstream consumes either, because the entry point that feeds the
configuration to the scraper is not part of this model.

## Left out

- Network I/O is not modelled. The two `fetch` calls and `html.text()`
  (github.js:19, github.js:49-50) become the input functions `statusOf` and
  `pageOf`.
- A rejected API `fetch` at github.js:19 is not modelled. It propagates
  unwrapped, and `statusOf` always answers a status.
- The fetch and parse failures (github.js:52-54, github.js:68-72) are
  foreign errors. They are kept only as their rendered `cause` text.
- `node-html-parser` is a library outside this model. Its `parse` and the
  CSS selector of `querySelector` (github.js:69, github.js:87) are not
  modelled. The query result enters as `Option<Heading>`, with each child
  node's `rawText`.
- Config.NumberAccepted: decides exactly only the inputs whose verdict needs
  no binary floating point: the empty string, a digit run not continued by
  `.`, `e` or `E`, and a leading visible ASCII character other than a
  digit, `+` or `.`. Fractions, exponents, a leading `+` or `.`, and a
  leading white-space, control or non-ASCII character go to the
  caller-supplied `floatCheck`. That function
  stands for `parseFloat` with `Number.isInteger` (config.js:45-46).
- Config.NumberAccepted: ECMAScript lets an implementation round digit
  strings of more than 20 significant digits in one of two ways. The bound
  2^1024 - 2^970 assumes correct rounding, as V8 does. Near that bound
  another engine could differ.
- Config.ConfigurationKey: the `TypeError` text is V8's wording. The model
  does not distinguish a missing user from a missing repository by message,
  and neither does the program.
- `process.env` is ambient state. It is passed as an explicit map.
- index.js is left out: the top-level `await` and the `console.log` of the
  result are I/O glue.
- The async/Promise structure is left out. The model is sequential, and the
  order of the stages is preserved.
