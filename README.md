# Scan service model

A Dafny model of the core logic of a small repository-scanning service. The service
has two deployments:

- `cloud-run/index.js` keeps its scan jobs in a Firestore collection.
- `server.js` keeps them in an in-memory `Map`.

Both accept a GitHub repository URL and start a background job. The job clones the
repository, detects its main language, runs a CodeQL analysis and turns the SARIF
output into a severity-sorted findings report. Progress and the result are written
into a per-scan status record.

Modules, one file each:

- `Wrappers` (wrappers.dfy): `Option` and `Result`.
- `Strings` (strings.dfy): the JavaScript string operations the code uses, which are
  `trim`, `split`, `join`, `toLowerCase` and case-insensitive substring search.
- `RepoRef` (repo_ref.dfy): `parseGitHubRepoUrl` and `isValidGitHubUrl` of the
  Firestore deployment.
- `ServerUrl` (server_url.dfy): the regular-expression validator of server.js and
  the normalisation its POST handler applies.
- `ScanError` (scan_error.dfy): `friendlyScanError`, the classifier that turns raw
  failure text into one line for the user.
- `Language` (language.dfy): `detectLanguage`.
  - Specification functions over a directory tree.
  - A `Counter` class whose methods update the counts in place as the walk does.
- `Sarif` (sarif.dfy): `parseSarif`.
  - The rules dictionary is filled by a loop.
  - The in-place stable sort is specified by its result.
- `ScanRecord` (scan_record.dfy): the status record, the partial updates a job
  writes, merging (`{ ...scan, ...fields }` and Firestore `update`), and the shape
  of a job's write trace.
- `CloudScan` (cloud_scan.dfy): `runScan` of the Firestore deployment, including
  the GitHub access check and store writes that may fail silently.
- `ServerScan` (server_scan.dfy): the `scans` map of server.js as a class, with its
  POST, GET, `updateStatus` and `runScan`.

External effects become inputs:

- Outcomes of `mkdir`, `git clone`, the two `codeql` commands and reading the SARIF
  file are given as an oracle value (`CloudScan.Oracle`, `ServerScan.Job`).
- The GitHub API answer is a status code and a `private` flag, or a thrown message.
- The repository on disk is a tree value (`Language.Node`).
- Whether the n-th Firestore write succeeds is a function `writeOk`.
- The new scan id and the current time are parameters.
- Workspace removal in `finally` is a returned flag.

## Behaviour that the code fixes and a plain reading might not

- Severity: the result's `level` is used whenever the rule's score is below 4, not
  only when the score is absent.
  - So a score of 3.9 with level `error` gives `high`, while a score of 4.0 gives
    `medium` (`Sarif.ScoreNotMonotone`).
- Only one trailing `.git` is stripped, case-insensitively in `parseGitHubRepoUrl`.
  - Re-parsing the returned `repoUrl` gives the same record only when the repo
    name does not still end in `.git`.
- `detectLanguage` sorts `Object.entries(counts)` stably by count.
  - A tie therefore goes to the language that was counted first during the walk,
    not to the one listed first in the table.
- In the Firestore deployment, an access-check failure passes through
  `friendlyScanError` twice: once in the access check's own `catch`, once in the
  outer one.
  - For the canned texts this is harmless because they are fixed points.
  - A multi-line message can change on the second pass: "not\nfound" first becomes
    "not found", which the second pass classifies as not-found
    (`ScanError.SecondPassCanDiffer`).
- server.js records the raw error message, which may span several lines.
- server.js validates case-insensitively but builds `repoName` by removing the
  exact lower-case prefix. An upper-case URL is accepted and keeps its whole text
  as `repoName` (`ServerUrl.UpperPrefixKeptInName`).
- server.js validates before it normalises, so a stored `repoUrl` can fail
  validation. For example, `https://github.com/o/.git` is accepted and stored as
  `https://github.com/o/` (`ServerUrl.NormalUrlCanBeRejected`).
- The validator has no end anchor, so any trailing path after `owner/repo` is
  accepted (`ServerUrl.ExtraPathAccepted`).

## Model

| member | source | states |
|---|---|---|
| RepoRef.Prepare | cloud-run/index.js:28-29 | the text given to the URL parser always carries an http(s) scheme |
| RepoRef.ParseUrl | cloud-run/index.js:30 | a parsed URL has a non-empty host without '/', '?', '#' and a non-empty path without '?', '#' |
| RepoRef.StripGit | cloud-run/index.js:35 | exactly one case-insensitive ".git" suffix is removed when present, otherwise the name is unchanged |
| RepoRef.FromUrl | cloud-run/index.js:31-42 | on success owner and repo are non-empty single path segments and the record is rebuilt from them |
| RepoRef.Parse | cloud-run/index.js:27-43 | on success owner and repo are non-empty, repoName is owner/repo and repoUrl is https://github.com/owner/repo, never copied from the input |
| RepoRef.IsValid | cloud-run/index.js:45-52 | valid exactly when parsing does not throw |
| RepoRef.SegmentsArePlain | cloud-run/index.js:32 | every non-empty path segment is free of '/', '?' and '#' |
| RepoRef.ReparseCanonical | cloud-run/index.js:34-42 | re-parsing the returned repoUrl yields owner and the repo with one more ".git" stripped, or fails when that leaves it empty |
| RepoRef.ReparseIsIdentity | cloud-run/index.js:35-42 | re-parsing the returned repoUrl gives the same record when the repo no longer ends in ".git" |
| RepoRef.DefaultScheme | cloud-run/index.js:28-29 | input without a scheme parses as "https://" followed by the trimmed input |
| RepoRef.EquivalentSpellings | cloud-run/index.js:28-42 | the https, http, trailing-slash, ".git" and scheme-less spellings of owner/repo all parse to the same record |
| RepoRef.CanonicalSpelling | cloud-run/index.js:28-42 | http or https with or without a trailing slash parses to the canonical record |
| RepoRef.GitSpelling | cloud-run/index.js:35 | a ".git" suffix on the repo segment is dropped |
| RepoRef.SchemelessSpelling | cloud-run/index.js:29 | "github.com/owner/repo" parses like its https form |
| RepoRef.OtherHostRejected | cloud-run/index.js:31 | a host other than github.com in any case is rejected as unsupported |
| RepoRef.OwnerOnlyRejected | cloud-run/index.js:32-33 | an owner alone, or nothing, between any runs of slashes (at least one before), with or without a query or fragment, is rejected as an invalid path |
| RepoRef.FewSegmentsRejected | cloud-run/index.js:32-33 | any github.com path with fewer than two non-empty segments is rejected as an invalid path, whatever query or fragment follows |
| RepoRef.SlashRunSegments | cloud-run/index.js:32 | splitting runs of slashes around one owner and dropping empty parts leaves just the owner, or nothing |
| RepoRef.ParseUrlWithQuery | cloud-run/index.js:30 | the URL parser stops the path at a query or fragment and reads an empty path as "/" |
| RepoRef.BlankRejected | cloud-run/index.js:28-30 | blank input is rejected by the URL parser |
| ServerUrl.StripTrailingSlashes | server.js:16 | the result is the input minus its maximal run of trailing '/' |
| ServerUrl.WordRun | server.js:16 | the length of the longest prefix of word characters [A-Za-z0-9_.-] |
| ServerUrl.Matches | server.js:16 | agrees with the regular expression: case-insensitive "https://github.com/", a word run, '/', and at least one word character |
| ServerUrl.IsValid | server.js:15-17 | valid exactly when the slash-stripped URL has the pattern's shape; a valid URL starts with "https://github.com/" in any case |
| ServerUrl.WordRunIsLongest | server.js:16 | a word run followed by '/' is the longest word run |
| ServerUrl.ExtraPathAccepted | server.js:16 | with no end anchor, any text after owner/repo is accepted |
| ServerUrl.HttpRejected | server.js:16 | "http://" URLs are rejected |
| ServerUrl.SchemelessRejected | server.js:16 | scheme-less "github.com/..." input is rejected |
| ServerUrl.OwnerOnlyRejected | server.js:16 | an owner with trailing slashes and no repo is rejected |
| ServerUrl.UpperPrefixAccepted | server.js:16 | the prefix is matched case-insensitively: an upper-case prefix is accepted |
| ServerUrl.StripGit | server.js:123 | exactly one case-sensitive ".git" suffix is removed when present |
| ServerUrl.FindFirst | server.js:124 | returns the first position where the pattern occurs, or none when it never occurs |
| ServerUrl.NormalUrl | server.js:123 | the stored repoUrl is the input with its trailing slashes stripped and then one exact ".git" stripped; so it prefixes the input, and what is removed is a run of '/' or ".git" followed by a run of '/' |
| ServerUrl.RepoName | server.js:124 | the first exact occurrence of "https://github.com/" is cut out, and the text is unchanged exactly when the prefix occurs nowhere |
| ServerUrl.SlashesThenGitStripped | server.js:123-124 | trailing slashes go first, then one ".git"; repoName is owner/repo for a lower-case URL |
| ServerUrl.SlashesStripped | server.js:123 | text that does not end in ".git" only loses its trailing slashes |
| ServerUrl.TrailingSlashStripped | server.js:123-124 | "https://github.com/o/r/" is stored as "https://github.com/o/r", named "o/r" |
| ServerUrl.UpperGitKept | server.js:123 | an upper-case ".GIT" ending is not stripped |
| ServerUrl.NormalUrlCanBeRejected | server.js:123 | an accepted URL can normalise to one the validator rejects |
| ServerUrl.NameAfterLowerPrefix | server.js:124 | a repoUrl starting with the exact prefix gets repoName = the rest |
| ServerUrl.UpperPrefixKeptInName | server.js:124 | the prefix is removed case-sensitively, so an upper-case URL keeps its whole text as repoName |
| ScanError.FirstLines | cloud-run/index.js:65 | the fallback text is one line and trimmed |
| ScanError.FriendlyScanError | cloud-run/index.js:54-66 | the result is never empty and never spans lines |
| ScanError.AuthSignatureWins | cloud-run/index.js:56-57 | any text containing either authentication signature, in any case, gets the private-repository text, even when other signatures occur too |
| ScanError.NotFoundSignatureWins | cloud-run/index.js:59-60 | text containing "not found" in any case and no authentication signature gets the not-found text |
| ScanError.RateLimitSignatureWins | cloud-run/index.js:62-63 | text containing "rate limit" in any case and neither earlier signature gets the rate-limit text |
| ScanError.BlankGivesDefault | cloud-run/index.js:65 | blank text, including only newlines, gets the default text |
| ScanError.RepositoryAlternativeRedundant | cloud-run/index.js:59 | the not-found test is the same as searching for "not found" alone |
| ScanError.FallbackFixedPoint | cloud-run/index.js:65 | a trimmed one-line message matching no signature is returned unchanged |
| ScanError.AuthMessageIsFixedPoint | cloud-run/index.js:56-57 | the private-repository text maps to itself |
| ScanError.NotFoundMessageIsFixedPoint | cloud-run/index.js:59-60 | the not-found text maps to itself |
| ScanError.RateLimitMessageIsFixedPoint | cloud-run/index.js:62-63 | the rate-limit text maps to itself |
| ScanError.DefaultMessageIsFixedPoint | cloud-run/index.js:65 | the default text maps to itself |
| ScanError.PlainMessageIsFixedPoint | cloud-run/index.js:54-66 | a trimmed one-line message without the signature letters is returned unchanged |
| ScanError.SecondPassStable | cloud-run/index.js:245-272 | when the first pass yields a canned text or unmatched text, a second pass changes nothing |
| ScanError.SecondPassCanDiffer | cloud-run/index.js:59-65 | "not\nfound" becomes "not found" and then, on a second pass, the not-found text |
| ScanError.FirstLinesDropsTail | cloud-run/index.js:65 | lines after the sixth never affect the fallback |
| ScanError.OneLineFallback | cloud-run/index.js:65 | a one-line message falls back to itself, trimmed |
| Language.LastIndexOf | cloud-run/index.js:88 | returns the last position of the character, or none when absent |
| Language.ExtName | cloud-run/index.js:88 | the extension is empty or starts at the last '.', and is non-empty for a non-hidden name containing '.' |
| Language.BestIndex | cloud-run/index.js:97-98 | the first key in insertion order whose count is maximal |
| Language.Walk | cloud-run/index.js:80-95 | the walk never lowers or forgets a count and only appends to the key order |
| Language.Detect | cloud-run/index.js:96-98 | the detected language is always a table language |
| Language.LeaderIsMost | cloud-run/index.js:97-98 | the leader's count is maximal and strictly above every key counted before it |
| Language.Counter.constructor | cloud-run/index.js:79 | counts start empty |
| Language.Counter.Increment | cloud-run/index.js:90 | adds one to the language's count, appending it to the key order when new |
| Language.Counter.AddFile | cloud-run/index.js:88-91 | counts the file once for every language whose extensions include its lower-cased extension |
| Language.Counter.Visit | cloud-run/index.js:80-95 | leaves the counts the walk specification gives for the folder at that depth |
| Language.Counter.VisitEntry | cloud-run/index.js:84-92 | skips hidden and dependency entries, recurses into folders, counts files |
| Language.DetectLanguage | server.js:19-50 | returns the language the specification picks for the tree |
| Language.TableNamesDistinct | cloud-run/index.js:69-78 | the eight table keys are distinct |
| Language.WalkValid | cloud-run/index.js:80-95 | the walk only ever counts table languages, each key once in the order |
| Language.LeaderIsLanguage | cloud-run/index.js:97-98 | the leader is always a table language or the default |
| Language.DetectResult | cloud-run/index.js:97-98 | javascript when nothing matched; otherwise a counted language whose count is maximal and strictly above every key counted before it |
| Language.WalkIsFold | cloud-run/index.js:80-95 | the walk equals counting the visible files at depth at most 8 in walk order |
| Language.CountAllConcat | cloud-run/index.js:83-93 | counting two lists of files one after the other is counting their concatenation |
| Language.DetectCounts | server.js:40-42 | each language's count is the number of visible files whose extension it lists |
| Language.SkippedEntriesIgnored | cloud-run/index.js:84 | hidden entries, node_modules, vendor and __pycache__ never change the counts |
| Language.Visible | cloud-run/index.js:84 | an entry is kept exactly when it is in the folder and not skipped, and none kept is skipped |
| Language.VisibleConcat | cloud-run/index.js:83-84 | filtering a folder in two parts is filtering the whole, order kept |
| Language.VisibleAll | cloud-run/index.js:84 | a folder with nothing to skip is kept whole, in order |
| Sarif.CollectRules | cloud-run/index.js:118-128 | the loop builds the rules dictionary of its specification |
| Sarif.RuleTableKeys | cloud-run/index.js:120-121 | the dictionary has exactly the ids of the rules |
| Sarif.RuleTableLastWins | cloud-run/index.js:120-127 | for a repeated id the last rule with it wins |
| Sarif.SeverityOf | cloud-run/index.js:133-139 | critical exactly from score 9; high or above exactly from 7 or an error level below 4; medium or above exactly from 4 or an error or warning level |
| Sarif.ToFinding | cloud-run/index.js:130-151 | keeps the rule id and message; the score is the known rule's security-severity or 0 and decides the severity with the level; the name is the rule's name or else the rule id; a description exactly when the rule is known; file, line and column from the location, or empty and 0 |
| Sarif.ToFindings | cloud-run/index.js:130-152 | one finding per result, in order |
| Sarif.Filter | cloud-run/index.js:161-164 | keeps only findings of one severity |
| Sarif.ScoreDecidesFromFour | cloud-run/index.js:134-137 | from 4 upwards the score alone decides, a higher score never gives a lower severity, and low is impossible |
| Sarif.LevelDecidesBelowFour | cloud-run/index.js:133-139 | below 4 the level decides: error gives high, warning medium, anything else low |
| Sarif.ScoreNotMonotone | cloud-run/index.js:135-139 | score 3.9 with level error is high, score 4.0 with level error is medium |
| Sarif.UnscoredResult | cloud-run/index.js:131-133 | a missing rule or score counts as 0; a missing rule names the finding by its rule id |
| Sarif.FilterMultiset | cloud-run/index.js:161-164 | the four severity buckets together hold every finding exactly once |
| Sarif.SortByRank | cloud-run/index.js:154-155 | the result is a permutation of the findings, sorted by rank |
| Sarif.ParseLog | cloud-run/index.js:115-166 | no runs give no findings and zero counts; otherwise one finding per result of the first run, sorted, with the total equal to their number |
| Sarif.SortIsStable | server.js:102-103 | within a severity the findings keep their original order |
| Sarif.StableSortUnique | cloud-run/index.js:155 | any sorted order that keeps each severity's order is the sort's result |
| Sarif.ParseSarif | server.js:61-115 | returns the report of the specification for the log |
| Sarif.ReportProperties | cloud-run/index.js:115-166 | one finding per result, a sorted stable permutation, summary counts per severity that add up to the total |
| Sarif.SummaryAddsUp | server.js:105-114 | the four counts add up to the total |
| ScanRecord.CloseTrace | cloud-run/index.js:225-272 | forward progress writes closed by one terminal write form a proper trace |
| ScanRecord.Merge | server.js:143 | the empty update leaves the record, and merging into an empty record gives the update |
| ScanRecord.ReplayEndsTerminal | server.js:146-168 | after a proper trace the record shows its final status and step; after an error, its error and no completion time |
| ScanRecord.ReplayKeepsAbsent | server.js:149-163 | progress writes never set a completion time, results or an error |
| CloudScan.Firestore.constructor | cloud-run/index.js:12 | the collection starts with the given documents |
| CloudScan.Firestore.UpdateStatus | cloud-run/index.js:221-223 | a write that fails is swallowed: the document changes only when the write succeeds |
| CloudScan.Firestore.RunScan | cloud-run/index.js:213-276 | attempts exactly the writes of the trace specification, the store holds their accepted effect, and the workspace is always removed |
| CloudScan.Firestore.Pipeline | cloud-run/index.js:248-260 | clone, detect and build writes, stopping at the first failing step |
| CloudScan.Firestore.Analysis | cloud-run/index.js:258-270 | analyse, parse and complete writes, stopping at the first failing step |
| CloudScan.AccessCheck | cloud-run/index.js:229-246 | throws exactly for a failed fetch, a private 200 or a 404; what it throws is a non-empty single line |
| CloudScan.Writes | cloud-run/index.js:225-272 | a prefix of the progress writes closed by one terminal write, which is complete exactly when nothing throws |
| CloudScan.ProgressForward | cloud-run/index.js:228-262 | the progress writes never go back in status and are all in-progress writes |
| CloudScan.TraceIsProper | cloud-run/index.js:225-272 | a prefix of the progress writes closed by exactly one terminal write; results and completedAt only with complete, error exactly with error |
| CloudScan.CompletesIffAllSucceed | cloud-run/index.js:262-270 | the job completes exactly when every step succeeds, writing all progress and then the report |
| CloudScan.ErrorIsSimplified | cloud-run/index.js:271-272 | a failed job ends with a non-empty one-line error and no results or completion time |
| CloudScan.PrivateMessageIsFixedPoint | cloud-run/index.js:238-245 | the private-repository text survives simplification unchanged |
| CloudScan.MissingRepositoryMessage | cloud-run/index.js:240-245 | "Repository not found." simplifies to the not-found text |
| CloudScan.AccessBranches | cloud-run/index.js:236-246 | 200 and private, or 404, stop with an error; a thrown fetch is simplified twice; any other status goes on to clone |
| CloudScan.AccessStops | cloud-run/index.js:244-272 | an error thrown in the access check ends the job after the checking write |
| CloudScan.PrivateStops | cloud-run/index.js:236-238 | a private repository ends the job with the private-repository error |
| CloudScan.MissingStops | cloud-run/index.js:239-240 | a 404 ends the job with the not-found error |
| CloudScan.AccessPasses | cloud-run/index.js:241-243 | 403 and every other status go on to the cloning write |
| CloudScan.OtherDocsUnchanged | cloud-run/index.js:219-223 | a job's writes never touch another scan's document or add documents |
| CloudScan.DocIsReplayOfAccepted | cloud-run/index.js:221-222 | the document is its old value merged with exactly the writes that succeeded |
| CloudScan.FailedJobDocument | cloud-run/index.js:271-272 | when all writes succeed, a failed job's document shows error, the error text and no completion time |
| CloudScan.AllAccepted | cloud-run/index.js:222 | when every write succeeds, every write takes effect |
| ServerScan.Registry.constructor | server.js:13 | the map starts empty |
| ServerScan.Registry.Post | server.js:117-128 | an invalid URL gives the error and leaves the map unchanged; a valid one stores exactly one new normalised record under the new id |
| ServerScan.Registry.Get | server.js:130-134 | the stored record for a known id, "Scan not found" otherwise; the map is not modified |
| ServerScan.Registry.UpdateStatus | server.js:142-144 | only that scan's record changes, and only in the given fields |
| ServerScan.Registry.RunScan | server.js:136-172 | writes exactly the trace of the specification into that scan's record and always removes the workspace |
| ServerScan.Registry.Pipeline | server.js:149-157 | clone, detect and build writes, stopping at the first failing step |
| ServerScan.Registry.Analysis | server.js:159-166 | analyse, parse and complete writes, stopping at the first failing step |
| ServerScan.Registry.Write | server.js:142-144 | each write merges one more update into the replayed record |
| ServerScan.NewRecord | server.js:123-125 | status cloning, the start time, repoUrl the normalised input and repoName that URL without the prefix; step, language, owner, repo, error, results and completion time unset |
| ServerScan.Writes | server.js:146-168 | a prefix of the progress writes closed by one terminal write, which is complete exactly when nothing throws |
| ServerScan.PostAddsOne | server.js:125 | storing under a fresh id adds exactly one key |
| ServerScan.ProgressForward | server.js:149-163 | the progress writes never go back in status and are all in-progress writes |
| ServerScan.TraceIsProper | server.js:146-168 | a prefix of the progress writes closed by exactly one terminal write |
| ServerScan.CompletesIffAllSucceed | server.js:163-166 | the job completes exactly when every step succeeds, writing all progress and then the report |
| ServerScan.LanguageAfterDetecting | server.js:152-154 | the language is written only right after the detecting write, and it is the detected language |
| ServerScan.RawErrorKept | server.js:167-168 | a failed job's last write is the error write with the thrown message as it is: a failing command's stderr, or its message when stderr is empty |
| ServerScan.MultiLineErrorKept | server.js:167-168 | a multi-line stderr is recorded with its newlines |
| ServerScan.WritesLeaveIdentity | server.js:149-168 | no job write touches repoUrl, repoName or startedAt |
| ServerScan.JobKeepsIdentity | server.js:143 | merging such writes keeps those fields |
| ServerScan.SubmittedJobRecord | server.js:125-168 | after the job, the record keeps its submitted identity and start time and shows the final status; after an error, the error and no completion time |

## Left out

- HTTP handling: Express routing, CORS, static files, `app.listen` and the health
  route. Handlers are modelled as methods that return a response value.
- The cloud deployment's POST and GET handlers (`cloud-run/index.js:169-211`). They
  are Firestore SDK calls around `parseGitHubRepoUrl`, which is modelled. Only the
  document updates made by `runScan` are modelled.
- The Firestore client. Server timestamps are an opaque `ServerTimestamp` value,
  and the conversion `toDate().toISOString()` is not modelled.
- Which Firestore writes fail is an unconstrained input `writeOk`, so the model does
  not tie failure to a write's content. A finding whose rule is unknown carries
  `description: undefined` (cloud-run/index.js:144), and without
  `ignoreUndefinedProperties` (cloud-run/index.js:11-12) Firestore rejects such a
  value. So the `complete` write of such a report would most likely fail, its
  failure would be swallowed, and the document would stay at `parsing`. The model
  allows this outcome but does not single it out.
- `execAsync` and the `git` and `codeql` commands: each step's outcome is an input.
  The command strings, timeouts and buffer sizes are not modelled, nor is the
  start-up pack download of server.js.
- The `fetch` call and `r.json()`: their outcome is an input.
- Filesystem reads, `mkdir`, `rm`, `JSON.parse` of the SARIF file and
  `crypto.randomBytes`. The tree and the SARIF log are values, and the scan id is
  a parameter that the caller supplies fresh.
- `parseFloat` and floating point: the score arrives as an already-parsed
  `Option<real>`, with `None` for absent or NaN.
- The WHATWG URL parser: percent-encoding, IDN, ports, userinfo and
  normalisation of `.` segments are not modelled. The host ends at the first '/',
  '?' or '#', and the path runs to the first '?' or '#'. Three more differences:
  - A backslash is not read as a path separator, as WHATWG does for http(s), so
    `https://github.com\o\r` has host `github.com\o\r` here and is rejected as
    not GitHub.
  - Extra slashes after `https:` are not skipped, so `https:///github.com/o/r`
    has an empty host here and is rejected by the URL parser.
  - Tab and newline characters inside the text are not removed before parsing.
- Case folding is ASCII only, which is exact for the ASCII patterns the code tests.
  Whitespace for `trim` is the JavaScript set of space and line-terminator characters.
- Concurrency: the POST response and the background job are not interleaved, and
  nor are jobs with each other.
- `Array.prototype.sort` is modelled by its result, a stable sort by rank, and not
  as an in-place algorithm on an array.
- JavaScript object-key quirks in `rules` and `counts`: keys such as `__proto__`
  are not modelled. Every result carries a `ruleId` string; a result without one is
  not modelled.
- RepoRef.ReparseCanonical: requires the rebuilt repoUrl to be trimmed. The
  simplified URL split keeps whitespace inside path segments, which the WHATWG
  parser would percent-encode.
- RepoRef.ReparseIsIdentity: requires the rebuilt repoUrl to be trimmed, for the
  same reason.
