/**
 * The repository-reference parser of the Firestore deployment
 * (`parseGitHubRepoUrl` and `isValidGitHubUrl` in cloud-run/index.js). User text is
 * trimmed, given an `https://` scheme when it has none, split into host and path,
 * and turned into an (owner, repo, repoName, repoUrl) record whose URL is rebuilt
 * from the two path segments rather than copied from the input.
 *
 * `new URL` is modelled as a simplified split: the authority runs to the first
 * '/', '?' or '#', and the path runs from there to the first '?' or '#'.
 */
module RepoRef {
  import opened Wrappers
  import opened Strings

  /** The record `parseGitHubRepoUrl` returns. */
  datatype Repo = Repo(owner: string, repo: string, repoName: string, repoUrl: string)

  /** Why parsing throws: `new URL` rejects the text, the host is not GitHub, or the path lacks owner/repo. */
  datatype ParseError = InvalidUrl | UnsupportedHost | InvalidPath

  function Message(e: ParseError): string {
    match e
    case InvalidUrl => "Invalid URL"
    case UnsupportedHost => "Only GitHub URLs are supported."
    case InvalidPath => "Invalid GitHub URL. Use format: https://github.com/owner/repo"
  }

  /** The two parts of a parsed URL that the parser reads. */
  datatype Url = Url(host: string, pathname: string)

  const Http: string := "http://"
  const Https: string := "https://"
  const GitHubHost: string := "github.com"
  const GitSuffix: string := ".git"
  /** The fixed front of every rebuilt `repoUrl`. */
  const GitHubPrefix: string := "https://github.com/"

  lemma PrefixParts() ensures GitHubPrefix == Https + GitHubHost + "/" {}
  lemma HttpsLower() ensures LowerStr(Https) == Https {}
  lemma HttpLower() ensures LowerStr(Http) == Http {}

  /** `/^https?:\/\//i`. */
  predicate HasHttpScheme(s: string) {
    StartsWithCI(s, Http) || StartsWithCI(s, Https)
  }

  function SchemeLength(s: string): (n: nat)
    requires HasHttpScheme(s)
    ensures n <= |s|
  {
    if StartsWithCI(s, Http) then |Http| else |Https|
  }

  /** The text handed to `new URL`: trimmed, with `https://` put in front when no scheme is given. */
  function Prepare(input: string): (raw: string)
    ensures HasHttpScheme(raw)
  {
    var t := Trim(input);
    if HasHttpScheme(t) then t
    else
      HttpsPrefixed(t);
      Https + t
  }

  lemma HttpsPrefixed(t: string)
    ensures HasHttpScheme(Https + t)
    ensures IsTrimmed(t) ==> IsTrimmed(Https + t)
  {
    HttpsLower();
    assert (Https + t)[..|Https|] == Https;
    if t != [] {
      assert (Https + t)[|Https + t| - 1] == t[|t| - 1];
    }
  }

  /** The simplified `new URL`: `None` where it throws because the host is empty. */
  function ParseUrl(raw: string): (r: Option<Url>)
    requires HasHttpScheme(raw)
    ensures r.Some? ==> r.value.host != "" && Lacks(r.value.host, "/?#")
    ensures r.Some? ==> r.value.pathname != "" && Lacks(r.value.pathname, "?#")
  {
    var rest := raw[SchemeLength(raw)..];
    var h := FirstOf(rest, "/?#");
    if h == 0 then None
    else
      var tail := rest[h..];
      var p := FirstOf(tail, "?#");
      Some(Url(rest[..h], if p == 0 then "/" else tail[..p]))
  }

  /** `pathname.split('/').filter(Boolean)`. */
  function Segments(pathname: string): seq<string> {
    NonEmpty(Split(pathname, '/'))
  }

  /** `replace(/\.git$/i, '')`: one trailing ".git", in any case, is removed. */
  function StripGit(s: string): (r: string)
    ensures EndsWithCI(s, GitSuffix) ==> |r| + |GitSuffix| == |s| && s[..|r|] == r
    ensures !EndsWithCI(s, GitSuffix) ==> r == s
  {
    if EndsWithCI(s, GitSuffix) then s[..|s| - |GitSuffix|] else s
  }

  /** The record built from an owner and a repo name. */
  function Make(owner: string, repo: string): Repo {
    Repo(owner, repo, owner + "/" + repo, GitHubPrefix + owner + "/" + repo)
  }

  /** What the parser does with the output of `new URL`. */
  function FromUrl(u: Url): (r: Result<Repo, ParseError>)
    requires Lacks(u.pathname, "?#")
    ensures r.Success? ==>
              r.value.owner != "" && r.value.repo != "" &&
              Lacks(r.value.owner, "/?#") && Lacks(r.value.repo, "/?#") &&
              r.value == Make(r.value.owner, r.value.repo)
  {
    SegmentsArePlain(u.pathname);
    if LowerStr(u.host) != GitHubHost then Failure(UnsupportedHost)
    else
      var parts := Segments(u.pathname);
      if |parts| < 2 then Failure(InvalidPath)
      else
        var owner := parts[0];
        var repo := StripGit(parts[1]);
        if owner == "" || repo == "" then Failure(InvalidPath)
        else
          StripGitKeepsOut(parts[1], "/?#");
          Success(Make(owner, repo))
  }

  /**
   * `parseGitHubRepoUrl(input)`. On success owner and repo are non-empty, hold no
   * '/', '?' or '#', and the name and URL are rebuilt from them.
   */
  function Parse(input: string): (r: Result<Repo, ParseError>)
    ensures r.Success? ==>
              r.value.owner != "" && r.value.repo != "" &&
              Lacks(r.value.owner, "/?#") && Lacks(r.value.repo, "/?#") &&
              r.value.repoName == r.value.owner + "/" + r.value.repo &&
              r.value.repoUrl == GitHubPrefix + r.value.owner + "/" + r.value.repo
  {
    match ParseUrl(Prepare(input))
    case None => Failure(InvalidUrl)
    case Some(u) => FromUrl(u)
  }

  /** `isValidGitHubUrl(url)`: true exactly when parsing does not throw. */
  function IsValid(url: string): (valid: bool)
    ensures valid <==> Parse(url).Success?
  {
    match Parse(url)
    case Success(_) => true
    case Failure(_) => false
  }

  lemma SegmentsArePlain(pathname: string)
    requires Lacks(pathname, "?#")
    ensures forall i :: 0 <= i < |Segments(pathname)| ==> Lacks(Segments(pathname)[i], "/?#")
  {
    var parts := Split(pathname, '/');
    forall i | 0 <= i < |parts|
      ensures Lacks(parts[i], "/?#")
    {
      SplitPartLacks(pathname, '/', i, "?#");
    }
    var segs := Segments(pathname);
    forall i | 0 <= i < |segs|
      ensures Lacks(segs[i], "/?#")
    {
      assert segs[i] in parts;
    }
  }

  /** A piece of a split lacks whatever the whole lacks. */
  lemma {:induction false} SplitPartLacks(s: string, sep: char, i: nat, cs: string)
    requires Lacks(s, cs) && i < |Split(s, sep)|
    ensures Lacks(Split(s, sep)[i], cs)
  {
    var parts := Split(s, sep);
    if sep in s {
      var j := IndexOf(s, sep);
      if i > 0 {
        SplitPartLacks(s[j + 1..], sep, i - 1, cs);
      }
    }
  }

  lemma StripGitKeepsOut(s: string, cs: string)
    requires Lacks(s, cs)
    ensures Lacks(StripGit(s), cs)
  {
  }

  /** A piece without '/', '?' or '#': what an owner or repo segment can be. */
  predicate Plain(s: string) {
    s != "" && Lacks(s, "/?#")
  }

  /** The simplified `new URL` on a scheme, a host and a path. */
  lemma ParseUrlOf(scheme: string, host: string, path: string)
    requires scheme == Http || scheme == Https
    requires Plain(host)
    requires path == "" || (path[0] == '/' && Lacks(path, "?#"))
    ensures HasHttpScheme(scheme + host + path)
    ensures ParseUrl(scheme + host + path) == Some(Url(host, if path == "" then "/" else path))
  {
    var raw := scheme + host + path;
    assert raw[..|scheme|] == scheme;
    HttpsLower(); HttpLower();
    if scheme == Https {
      assert raw[4] == 's';
      assert !StartsWithCI(raw, Http) by { assert LowerStr(raw[..|Http|])[4] != Http[4]; }
    }
    assert raw[|scheme|..] == host + path;
    FirstOfConcat(host, path, "/?#");
    if path != "" {
      FirstOfConcat(path, [], "?#");
      assert path + [] == path;
    }
  }

  /** The path "/owner/repo", with or without a trailing slash, has exactly those two segments. */
  lemma SegmentsOf(owner: string, repo: string, tail: string)
    requires Plain(owner) && Plain(repo)
    requires tail == "" || tail == "/"
    ensures Segments("/" + owner + "/" + repo + tail) == [owner, repo]
  {
    if tail == "" {
      assert "/" + owner + "/" + repo + tail == "/" + owner + "/" + repo;
      SegmentsOfBare(owner, repo);
    } else {
      SegmentsOfSlash(owner, repo);
    }
  }

  lemma SegmentsOfBare(owner: string, repo: string)
    requires Plain(owner) && Plain(repo)
    ensures Segments("/" + owner + "/" + repo) == [owner, repo]
  {
    var parts := ["", owner, repo];
    JoinBare(owner, repo);
    SplitJoin(parts, '/');
    NonEmptyBare(owner, repo);
  }

  lemma JoinBare(owner: string, repo: string)
    ensures Join(["", owner, repo], "/") == "/" + owner + "/" + repo
  {
    var parts := ["", owner, repo];
    assert Join(parts[2..], "/") == repo;
    assert Join(parts[1..], "/") == owner + "/" + repo;
  }

  lemma NonEmptyBare(owner: string, repo: string)
    requires owner != "" && repo != ""
    ensures NonEmpty(["", owner, repo]) == [owner, repo]
  {
    var parts := ["", owner, repo];
    assert NonEmpty(parts[2..]) == [repo];
    assert NonEmpty(parts[1..]) == [owner, repo];
  }

  lemma SegmentsOfSlash(owner: string, repo: string)
    requires Plain(owner) && Plain(repo)
    ensures Segments("/" + owner + "/" + repo + "/") == [owner, repo]
  {
    var parts := ["", owner, repo, ""];
    JoinSlash(owner, repo);
    SplitJoin(parts, '/');
    NonEmptySlash(owner, repo);
  }

  lemma JoinSlash(owner: string, repo: string)
    ensures Join(["", owner, repo, ""], "/") == "/" + owner + "/" + repo + "/"
  {
    var parts := ["", owner, repo, ""];
    assert Join(parts[3..], "/") == "";
    assert Join(parts[2..], "/") == repo + "/";
    assert Join(parts[1..], "/") == owner + "/" + repo + "/";
  }

  lemma NonEmptySlash(owner: string, repo: string)
    requires owner != "" && repo != ""
    ensures NonEmpty(["", owner, repo, ""]) == [owner, repo]
  {
    var parts := ["", owner, repo, ""];
    assert NonEmpty(parts[3..]) == [];
    assert NonEmpty(parts[2..]) == [repo];
    assert NonEmpty(parts[1..]) == [owner, repo];
  }

  lemma GitHubHostLower()
    ensures LowerStr(GitHubHost) == GitHubHost
  {
  }

  lemma GitHubHostPlain()
    ensures Plain(GitHubHost)
  {
  }

  /** What the parser makes of host github.com and the path "/owner/seg". */
  lemma FromGitHubPath(owner: string, seg: string, tail: string)
    requires Plain(owner) && Plain(seg) && (tail == "" || tail == "/")
    ensures Lacks("/" + owner + "/" + seg + tail, "?#")
    ensures FromUrl(Url(GitHubHost, "/" + owner + "/" + seg + tail)) ==
              if StripGit(seg) == "" then Failure(InvalidPath) else Success(Make(owner, StripGit(seg)))
  {
    LacksConcat("/", owner, "?#");
    LacksConcat("/" + owner, "/", "?#");
    LacksConcat("/" + owner + "/", seg, "?#");
    LacksConcat("/" + owner + "/" + seg, tail, "?#");
    GitHubHostLower();
    SegmentsOf(owner, seg, tail);
  }

  /** A trimmed input with a scheme reaches `new URL` unchanged. */
  lemma PrepareTrimmed(input: string)
    requires IsTrimmed(input) && HasHttpScheme(input)
    ensures Prepare(input) == input
  {
    TrimOfTrimmed(input);
  }

  /** Parsing a trimmed GitHub URL with a scheme and the path "/owner/seg". */
  lemma ParseOfPath(scheme: string, owner: string, seg: string, tail: string)
    requires scheme == Http || scheme == Https
    requires Plain(owner) && Plain(seg) && (tail == "" || tail == "/")
    requires IsTrimmed(scheme + GitHubHost + "/" + owner + "/" + seg + tail)
    ensures Parse(scheme + GitHubHost + "/" + owner + "/" + seg + tail) ==
              if StripGit(seg) == "" then Failure(InvalidPath) else Success(Make(owner, StripGit(seg)))
  {
    var path := "/" + owner + "/" + seg + tail;
    var input := scheme + GitHubHost + "/" + owner + "/" + seg + tail;
    assert input == scheme + GitHubHost + path;
    FromGitHubPath(owner, seg, tail);
    assert path[0] == '/';
    GitHubHostPlain();
    ParseUrlOf(scheme, GitHubHost, path);
    PrepareTrimmed(input);
  }

  /** The rebuilt URL is trimmed unless the repo ends in white space. */
  lemma CanonicalTrimmed(owner: string, repo: string)
    requires Plain(repo) && !IsWhitespace(repo[|repo| - 1])
    ensures IsTrimmed(Https + GitHubHost + "/" + owner + "/" + repo + "")
  {
    var s := Https + GitHubHost + "/" + owner + "/" + repo + "";
    assert s[0] == 'h';
    assert s[|s| - 1] == repo[|repo| - 1];
  }

  /**
   * Re-parsing the rebuilt URL gives the same owner and repo unless the repo still
   * ends in ".git", which a second parse strips again (only one suffix goes per parse).
   */
  lemma ReparseCanonical(input: string)
    requires Parse(input).Success?
    requires IsTrimmed(Parse(input).value.repoUrl)
    ensures var rec := Parse(input).value;
      Parse(rec.repoUrl) ==
        if StripGit(rec.repo) == "" then Failure(InvalidPath)
        else Success(Make(rec.owner, StripGit(rec.repo)))
  {
    var rec := Parse(input).value;
    PrefixParts();
    assert rec.repoUrl == Https + GitHubHost + "/" + rec.owner + "/" + rec.repo + "";
    ParseOfPath(Https, rec.owner, rec.repo, "");
  }

  /** A parsed record whose repo no longer ends in ".git" parses back to itself from its own URL. */
  lemma ReparseIsIdentity(input: string)
    requires Parse(input).Success?
    requires IsTrimmed(Parse(input).value.repoUrl)
    requires !EndsWithCI(Parse(input).value.repo, GitSuffix)
    ensures Parse(Parse(input).value.repoUrl) == Success(Parse(input).value)
  {
    ReparseCanonical(input);
  }

  /** Input without `http://` or `https://` is read as `https://` followed by the trimmed input. */
  lemma DefaultScheme(input: string)
    requires !HasHttpScheme(Trim(input))
    ensures Parse(input) == Parse(Https + Trim(input))
  {
    var t := Trim(input);
    HttpsPrefixed(t);
    PrepareTrimmed(Https + t);
  }

  /**
   * Equivalent spellings of one repository parse to the same record: with or without
   * a scheme, `http` or `https`, with a trailing slash, or with a ".git" suffix.
   */
  lemma EquivalentSpellings(owner: string, repo: string)
    requires Plain(owner) && Plain(repo) && !EndsWithCI(repo, GitSuffix)
    requires !IsWhitespace(repo[|repo| - 1])
    ensures Parse(Https + GitHubHost + "/" + owner + "/" + repo) == Success(Make(owner, repo))
    ensures Parse(Http + GitHubHost + "/" + owner + "/" + repo) == Success(Make(owner, repo))
    ensures Parse(Https + GitHubHost + "/" + owner + "/" + repo + "/") == Success(Make(owner, repo))
    ensures Parse(Https + GitHubHost + "/" + owner + "/" + repo + GitSuffix) == Success(Make(owner, repo))
    ensures Parse(GitHubHost + "/" + owner + "/" + repo) == Success(Make(owner, repo))
  {
    CanonicalSpelling(owner, repo, Https, "");
    assert Https + GitHubHost + "/" + owner + "/" + repo + "" == Https + GitHubHost + "/" + owner + "/" + repo;
    CanonicalSpelling(owner, repo, Http, "");
    assert Http + GitHubHost + "/" + owner + "/" + repo + "" == Http + GitHubHost + "/" + owner + "/" + repo;
    CanonicalSpelling(owner, repo, Https, "/");
    GitSpelling(owner, repo);
    SchemelessSpelling(owner, repo);
  }

  lemma CanonicalSpelling(owner: string, repo: string, scheme: string, tail: string)
    requires Plain(owner) && Plain(repo) && !EndsWithCI(repo, GitSuffix)
    requires !IsWhitespace(repo[|repo| - 1])
    requires scheme == Http || scheme == Https
    requires tail == "" || tail == "/"
    ensures Parse(scheme + GitHubHost + "/" + owner + "/" + repo + tail) == Success(Make(owner, repo))
  {
    var input := scheme + GitHubHost + "/" + owner + "/" + repo + tail;
    assert IsTrimmed(input) by {
      assert input[0] == 'h';
      assert input[|input| - 1] == if tail == "" then repo[|repo| - 1] else '/';
    }
    ParseOfPath(scheme, owner, repo, tail);
  }

  lemma GitSpelling(owner: string, repo: string)
    requires Plain(owner) && Plain(repo) && !EndsWithCI(repo, GitSuffix)
    ensures Parse(Https + GitHubHost + "/" + owner + "/" + repo + GitSuffix) == Success(Make(owner, repo))
  {
    var seg := repo + GitSuffix;
    var input := Https + GitHubHost + "/" + owner + "/" + seg + "";
    assert input == Https + GitHubHost + "/" + owner + "/" + repo + GitSuffix;
    assert IsTrimmed(input) by {
      assert input[0] == 'h';
      assert input[|input| - 1] == 't';
    }
    assert Plain(seg) by {
      LacksConcat(repo, GitSuffix, "/?#");
    }
    assert EndsWithCI(seg, GitSuffix) by {
      assert seg[|seg| - |GitSuffix|..] == GitSuffix;
    }
    assert StripGit(seg) == repo;
    ParseOfPath(Https, owner, seg, "");
  }

  lemma SchemelessSpelling(owner: string, repo: string)
    requires Plain(owner) && Plain(repo) && !EndsWithCI(repo, GitSuffix)
    requires !IsWhitespace(repo[|repo| - 1])
    ensures Parse(GitHubHost + "/" + owner + "/" + repo) == Success(Make(owner, repo))
  {
    var input := GitHubHost + "/" + owner + "/" + repo;
    SchemelessInput(owner, repo);
    TrimOfTrimmed(input);
    DefaultScheme(input);
    PrefixedSpelling(owner, repo);
  }

  lemma PrefixedSpelling(owner: string, repo: string)
    requires Plain(owner) && Plain(repo) && !EndsWithCI(repo, GitSuffix)
    requires !IsWhitespace(repo[|repo| - 1])
    ensures Parse(Https + (GitHubHost + "/" + owner + "/" + repo)) == Success(Make(owner, repo))
  {
    PrependAssoc(Https, GitHubHost, "/", owner, "/", repo);
    CanonicalSpelling(owner, repo, Https, "");
  }

  lemma SchemelessInput(owner: string, repo: string)
    requires repo != [] && !IsWhitespace(repo[|repo| - 1])
    ensures IsTrimmed(GitHubHost + "/" + owner + "/" + repo)
    ensures !HasHttpScheme(GitHubHost + "/" + owner + "/" + repo)
  {
    var input := GitHubHost + "/" + owner + "/" + repo;
    assert input[0] == 'g';
    assert input[|input| - 1] == repo[|repo| - 1];
    assert LowerStr(input[..|Http|])[0] != Http[0];
    assert LowerStr(input[..|Https|])[0] != Https[0];
  }

  lemma PrependAssoc(s: string, a: string, b: string, c: string, d: string, e: string)
    ensures s + (a + b + c + d + e) == s + a + b + c + d + e + ""
  {
  }

  /** Any host other than github.com, in any case, is refused. */
  lemma OtherHostRejected(scheme: string, host: string, path: string)
    requires scheme == Http || scheme == Https
    requires Plain(host) && LowerStr(host) != GitHubHost
    requires path == "" || (path[0] == '/' && Lacks(path, "?#"))
    requires IsTrimmed(scheme + host + path)
    ensures Parse(scheme + host + path) == Failure(UnsupportedHost)
  {
    ParseUrlOf(scheme, host, path);
    PrepareTrimmed(scheme + host + path);
  }

  /** The simplified `new URL` on a scheme, a host, a path and a query or fragment after it. */
  lemma ParseUrlWithQuery(scheme: string, host: string, path: string, query: string)
    requires scheme == Http || scheme == Https
    requires Plain(host)
    requires path == "" || (path[0] == '/' && Lacks(path, "?#"))
    requires query == "" || query[0] == '?' || query[0] == '#'
    ensures HasHttpScheme(scheme + host + path + query)
    ensures ParseUrl(scheme + host + path + query) == Some(Url(host, if path == "" then "/" else path))
  {
    var rest := host + (path + query);
    assert scheme + host + path + query == scheme + rest;
    SchemeSplit(scheme, rest);
    FirstOfConcat(host, path + query, "/?#");
    assert rest[|host|..] == path + query;
    FirstOfConcat(path, query, "?#");
  }

  /** After an explicit scheme, `new URL` reads the rest as authority and path. */
  lemma SchemeSplit(scheme: string, rest: string)
    requires scheme == Http || scheme == Https
    ensures HasHttpScheme(scheme + rest)
    ensures SchemeLength(scheme + rest) == |scheme| && (scheme + rest)[|scheme|..] == rest
  {
    var raw := scheme + rest;
    assert raw[..|scheme|] == scheme;
    HttpsLower(); HttpLower();
    if scheme == Https {
      assert raw[4] == 's';
      assert !StartsWithCI(raw, Http) by { assert LowerStr(raw[..|Http|])[4] != Http[4]; }
    }
  }

  /**
   * A GitHub URL whose path has fewer than two non-empty segments is refused,
   * whatever query or fragment follows the path.
   */
  lemma FewSegmentsRejected(scheme: string, path: string, query: string)
    requires scheme == Http || scheme == Https
    requires path == "" || (path[0] == '/' && Lacks(path, "?#"))
    requires |Segments(if path == "" then "/" else path)| < 2
    requires query == "" || query[0] == '?' || query[0] == '#'
    requires IsTrimmed(scheme + GitHubHost + path + query)
    ensures Parse(scheme + GitHubHost + path + query) == Failure(InvalidPath)
  {
    GitHubHostPlain();
    ParseUrlWithQuery(scheme, GitHubHost, path, query);
    PrepareTrimmed(scheme + GitHubHost + path + query);
    GitHubHostLower();
  }

  /** `n` slashes in a row. */
  function Slashes(n: nat): (r: string)
    ensures |r| == n && forall k :: 0 <= k < n ==> r[k] == '/'
  {
    seq(n, k => '/')
  }

  /** `n` empty strings: what `split('/')` makes of the gaps in a run of slashes. */
  function Empties(n: nat): (r: seq<string>)
    ensures |r| == n && forall k :: 0 <= k < n ==> r[k] == ""
  {
    seq(n, k => "")
  }

  /**
   * A path made of slash runs around at most one owner has at most that owner as
   * its segment: "/", "/owner", "/owner/" and "//owner//" all count as one or none.
   */
  lemma SlashRunSegments(a: nat, owner: string, b: nat)
    requires owner == "" || Plain(owner)
    ensures Segments(Slashes(a) + owner + Slashes(b)) == if owner == "" then [] else [owner]
  {
    var parts := Empties(a) + [owner] + Empties(b);
    JoinRuns(a, owner, b);
    forall i | 0 <= i < |parts|
      ensures '/' !in parts[i]
    {
      if parts[i] == owner && owner != "" {
        assert forall k :: 0 <= k < |owner| ==> owner[k] != '/';
      }
    }
    SplitJoin(parts, '/');
    NonEmptyRuns(a, owner, b);
  }

  lemma {:induction false} JoinRuns(a: nat, owner: string, b: nat)
    ensures Join(Empties(a) + [owner] + Empties(b), "/") == Slashes(a) + owner + Slashes(b)
  {
    var parts := Empties(a) + [owner] + Empties(b);
    if a == 0 {
      assert parts == [owner] + Empties(b);
      JoinOwnerRun(owner, b);
    } else {
      assert parts[1..] == Empties(a - 1) + [owner] + Empties(b);
      JoinRuns(a - 1, owner, b);
      assert Slashes(a) + owner + Slashes(b) == "" + "/" + (Slashes(a - 1) + owner + Slashes(b));
    }
  }

  lemma {:induction false} JoinOwnerRun(owner: string, b: nat)
    ensures Join([owner] + Empties(b), "/") == owner + Slashes(b)
  {
    var parts := [owner] + Empties(b);
    if b == 0 {
      assert parts == [owner];
    } else {
      assert parts[1..] == Empties(b);
      JoinGaps(b);
      assert owner + Slashes(b) == owner + "/" + Slashes(b - 1);
    }
  }

  lemma {:induction false} JoinGaps(b: nat)
    requires b >= 1
    ensures Join(Empties(b), "/") == Slashes(b - 1)
  {
    if b > 1 {
      assert Empties(b)[1..] == Empties(b - 1);
      JoinGaps(b - 1);
      assert Slashes(b - 1) == "" + "/" + Slashes(b - 2);
    }
  }

  lemma {:induction false} NonEmptyRuns(a: nat, owner: string, b: nat)
    ensures NonEmpty(Empties(a) + [owner] + Empties(b)) == if owner == "" then [] else [owner]
  {
    var parts := Empties(a) + [owner] + Empties(b);
    if a == 0 {
      assert parts == [owner] + Empties(b);
      assert parts[1..] == Empties(b);
      NonEmptyGaps(b);
    } else {
      assert parts[1..] == Empties(a - 1) + [owner] + Empties(b);
      NonEmptyRuns(a - 1, owner, b);
    }
  }

  lemma {:induction false} NonEmptyGaps(b: nat)
    ensures NonEmpty(Empties(b)) == []
  {
    if b > 0 {
      assert Empties(b)[1..] == Empties(b - 1);
      NonEmptyGaps(b - 1);
    }
  }

  lemma SlashRunPath(a: nat, owner: string, b: nat)
    requires a >= 1 && (owner == "" || Plain(owner))
    ensures var path := Slashes(a) + owner + Slashes(b);
      path != "" && path[0] == '/' && Lacks(path, "?#")
  {
    assert Lacks(Slashes(a), "?#");
    assert Lacks(Slashes(b), "?#");
    LacksConcat(Slashes(a), owner, "?#");
    LacksConcat(Slashes(a) + owner, Slashes(b), "?#");
  }

  lemma Regroup(s: string, h: string, x: string, o: string, y: string, q: string)
    ensures s + h + x + o + y + q == s + h + (x + o + y) + q
  {
  }

  /**
   * A GitHub URL naming only an owner, or nothing, is refused: "https://github.com/",
   * "https://github.com/owner", "https://github.com/owner/", "https://github.com//owner//"
   * and any of these followed by a query or fragment such as "?x".
   */
  lemma OwnerOnlyRejected(scheme: string, a: nat, owner: string, b: nat, query: string)
    requires scheme == Http || scheme == Https
    requires a >= 1 && (owner == "" || Plain(owner))
    requires query == "" || query[0] == '?' || query[0] == '#'
    requires IsTrimmed(scheme + GitHubHost + Slashes(a) + owner + Slashes(b) + query)
    ensures Parse(scheme + GitHubHost + Slashes(a) + owner + Slashes(b) + query) == Failure(InvalidPath)
  {
    var path := Slashes(a) + owner + Slashes(b);
    SlashRunPath(a, owner, b);
    SlashRunSegments(a, owner, b);
    Regroup(scheme, GitHubHost, Slashes(a), owner, Slashes(b), query);
    FewSegmentsRejected(scheme, path, query);
  }

  /** Empty or blank input is refused: the URL `https://` has no host. */
  lemma BlankRejected(input: string)
    requires AllWhitespace(input)
    ensures Parse(input) == Failure(InvalidUrl)
  {
    BlankTrimsToEmpty(input);
    assert Prepare(input) == Https;
  }

  lemma BlankTrimsToEmpty(s: string)
    requires AllWhitespace(s)
    ensures Trim(s) == ""
  {
  }
}
