/**
 * URL handling of the in-memory deployment (server.js): the regular-expression
 * validator `isValidGitHubUrl` and the normalisation the POST handler applies
 * before it stores a scan (`repoUrl` without trailing slashes and one ".git",
 * `repoName` without the first literal "https://github.com/").
 */
module ServerUrl {
  import opened Wrappers
  import opened Strings

  const Prefix: string := "https://github.com/"
  const GitSuffix: string := ".git"

  lemma PrefixLength() ensures |Prefix| == 19 && Prefix[0] == 'h' && Prefix[4] == 's' {}
  lemma PrefixLower() ensures LowerStr(Prefix) == Prefix {}

  /** The character class `[\w.-]`; with the `i` flag it still holds only ASCII letters. */
  predicate IsWordChar(c: char) {
    'a' <= c <= 'z' || 'A' <= c <= 'Z' || '0' <= c <= '9' || c == '_' || c == '.' || c == '-'
  }

  predicate AllWord(s: string) {
    forall k :: 0 <= k < |s| ==> IsWordChar(s[k])
  }

  /** `s.replace(/\/+$/, '')`: the run of slashes at the end is removed. */
  function StripTrailingSlashes(s: string): (r: string)
    ensures |r| <= |s| && r == s[..|r|]
    ensures forall k :: |r| <= k < |s| ==> s[k] == '/'
    ensures r == [] || r[|r| - 1] != '/'
  {
    if s == [] || s[|s| - 1] != '/' then s
    else StripTrailingSlashes(s[..|s| - 1])
  }

  /** Length of the run of `[\w.-]` characters at the start of `s`. */
  function WordRun(s: string): (n: nat)
    ensures n <= |s| && AllWord(s[..n])
    ensures n < |s| ==> !IsWordChar(s[n])
  {
    if s == [] || !IsWordChar(s[0]) then 0
    else
      var n := WordRun(s[1..]);
      assert s[..n + 1] == [s[0]] + s[1..][..n];
      1 + n
  }

  /** `rest` starts with `n` word characters, a slash and one more word character. */
  predicate RunThenSlash(rest: string, n: nat) {
    1 <= n && n + 1 < |rest| && AllWord(rest[..n]) && rest[n] == '/' && IsWordChar(rest[n + 1])
  }

  /**
   * What `/^https:\/\/github\.com\/[\w.-]+\/[\w.-]+/i` accepts: the prefix in any
   * case, some word characters, a slash and one more word character. Nothing is
   * required after that, since the pattern has no end anchor.
   */
  ghost predicate PatternAccepts(u: string) {
    StartsWithCI(u, Prefix) && exists n: nat :: RunThenSlash(u[|Prefix|..], n)
  }

  /** The regular-expression test, computed by reading the longest word run. */
  function Matches(u: string): (b: bool)
    ensures b <==> PatternAccepts(u)
  {
    if !StartsWithCI(u, Prefix) then false
    else
      var rest := u[|Prefix|..];
      var n := WordRun(rest);
      if 1 <= n && n + 1 < |rest| && rest[n] == '/' && IsWordChar(rest[n + 1]) then
        assert RunThenSlash(rest, n);
        true
      else
        forall m: nat | RunThenSlash(rest, m)
          ensures false
        {
          WordRunIsLongest(rest, m);
        }
        false
  }

  /** A word run followed by a slash is exactly the longest word run. */
  lemma WordRunIsLongest(s: string, m: nat)
    requires m < |s| && AllWord(s[..m]) && s[m] == '/'
    ensures WordRun(s) == m
  {
  }

  /**
   * `isValidGitHubUrl(url)` of server.js: the pattern is tested once trailing slashes
   * are gone, so an accepted URL starts with the prefix in some case.
   */
  function IsValid(url: string): (valid: bool)
    ensures valid <==> PatternAccepts(StripTrailingSlashes(url))
    ensures valid ==> StartsWithCI(url, Prefix)
  {
    var u := StripTrailingSlashes(url);
    if Matches(u) then
      assert url[..|Prefix|] == u[..|Prefix|];
      true
    else false
  }

  /** `s.replace(/\.git$/, '')`: one ".git", in this exact case, is removed from the end. */
  function StripGit(s: string): (r: string)
    ensures EndsWith(s, GitSuffix) ==> r + GitSuffix == s
    ensures !EndsWith(s, GitSuffix) ==> r == s
  {
    if EndsWith(s, GitSuffix) then s[..|s| - |GitSuffix|] else s
  }

  /** `p` occurs in `s` at offset `j`, comparing exactly. */
  predicate OccursAt(s: string, p: string, j: nat) {
    j + |p| <= |s| && s[j..j + |p|] == p
  }

  /** The first offset where `p` occurs in `s`. */
  function FindFirst(s: string, p: string): (r: Option<nat>)
    ensures r.Some? ==> OccursAt(s, p, r.value) && forall j: nat :: j < r.value ==> !OccursAt(s, p, j)
    ensures r.None? ==> forall j: nat :: !OccursAt(s, p, j)
    decreases |s|
  {
    if |s| < |p| then None
    else if s[..|p|] == p then Some(0)
    else
      assert !OccursAt(s, p, 0) by { assert s[0..|p|] == s[..|p|]; }
      ShiftOccurs(s, p);
      match FindFirst(s[1..], p)
      case None => None
      case Some(k) => Some(k + 1)
  }

  /** Occurrences in `s` past the first position are the occurrences in `s[1..]`, shifted. */
  lemma ShiftOccurs(s: string, p: string)
    requires s != []
    ensures forall j: nat :: 1 <= j ==> (OccursAt(s, p, j) <==> OccursAt(s[1..], p, j - 1))
  {
    forall j: nat | 1 <= j
      ensures OccursAt(s, p, j) <==> OccursAt(s[1..], p, j - 1)
    {
      if j + |p| <= |s| {
        assert s[j..j + |p|] == s[1..][j - 1..j - 1 + |p|];
      }
    }
  }

  /** `s.replace(p, '')` with a string pattern: the first occurrence is removed. */
  function RemoveFirst(s: string, p: string): string {
    match FindFirst(s, p)
    case None => s
    case Some(k) => s[..k] + s[k + |p|..]
  }

  /**
   * The stored `repoUrl`: the front of the submitted text, minus a run of trailing
   * slashes and, before that run, at most one ".git".
   */
  function NormalUrl(raw: string): (r: string)
    ensures r == StripGit(StripTrailingSlashes(raw))
    ensures |r| <= |raw| && r == raw[..|r|]
    ensures (forall k :: |r| <= k < |raw| ==> raw[k] == '/') ||
            (|r| + |GitSuffix| <= |raw| && raw[|r|..|r| + |GitSuffix|] == GitSuffix &&
             forall k :: |r| + |GitSuffix| <= k < |raw| ==> raw[k] == '/')
  {
    var t := StripTrailingSlashes(raw);
    var r := StripGit(t);
    assert EndsWith(t, GitSuffix) ==> raw[|r|..|r| + |GitSuffix|] == t[|r|..];
    r
  }

  /**
   * The stored `repoName`: the first exact occurrence of the prefix removed, so the
   * text is unchanged exactly when the prefix never occurs in it.
   */
  function RepoName(repoUrl: string): (r: string)
    ensures match FindFirst(repoUrl, Prefix)
              case None => r == repoUrl
              case Some(k) => r == repoUrl[..k] + repoUrl[k + |Prefix|..]
    ensures r == repoUrl <==> forall j: nat :: !OccursAt(repoUrl, Prefix, j)
    ensures r != repoUrl ==> |r| + |Prefix| == |repoUrl|
  {
    PrefixLength();
    RemoveFirst(repoUrl, Prefix)
  }

  // ---- Properties of the validator ----

  /** Any trailing text after "owner/r" is accepted: the pattern has no end anchor. */
  lemma ExtraPathAccepted(owner: string, repo: string, extra: string)
    requires owner != "" && AllWord(owner) && repo != "" && AllWord(repo)
    ensures IsValid(Prefix + owner + "/" + repo + extra)
  {
    PrefixLower();
    AcceptedFront(Prefix, owner, repo, extra);
  }

  /**
   * A text that starts with some spelling of the prefix, an owner, '/' and a word
   * character keeps that front once trailing slashes are gone, and is accepted.
   */
  lemma AcceptedFront(pre: string, owner: string, repo: string, extra: string)
    requires LowerStr(pre) == Prefix
    requires owner != "" && AllWord(owner) && repo != "" && AllWord(repo)
    ensures IsValid(pre + owner + "/" + repo + extra)
  {
    var s := pre + owner + "/" + repo + extra;
    var at := |pre| + |owner| + 1;
    assert s[at] == repo[0];
    KeepsNonSlash(s, at);
    assert s[..at + 1] == pre + owner + "/" + [repo[0]];
    FrontMatches(StripTrailingSlashes(s), pre, owner, repo[0]);
  }

  lemma FrontMatches(u: string, pre: string, owner: string, c: char)
    requires LowerStr(pre) == Prefix && owner != "" && AllWord(owner) && IsWordChar(c)
    requires |pre + owner + "/" + [c]| <= |u| && u[..|pre + owner + "/" + [c]|] == pre + owner + "/" + [c]
    ensures PatternAccepts(u)
  {
    var f := pre + owner + "/" + [c];
    assert u[..|Prefix|] == pre by {
      assert f[..|pre|] == pre;
    }
    var rest := u[|Prefix|..];
    assert rest[..|owner|] == owner by {
      assert rest[..|owner|] == f[|pre|..|pre| + |owner|];
    }
    assert rest[|owner|] == f[|pre| + |owner|];
    assert rest[|owner| + 1] == f[|pre| + |owner| + 1];
    assert RunThenSlash(rest, |owner|);
  }

  /** Stripping trailing slashes keeps every character up to the last one that is not a slash. */
  lemma KeepsNonSlash(s: string, i: nat)
    requires i < |s| && s[i] != '/'
    ensures i < |StripTrailingSlashes(s)| && StripTrailingSlashes(s)[..i + 1] == s[..i + 1]
  {
    var r := StripTrailingSlashes(s);
    assert s[..i + 1] == r[..i + 1] by {
      assert r == s[..|r|];
    }
  }

  /** The scheme must be `https`: `http://` is refused, whatever follows. */
  lemma HttpRejected(rest: string)
    ensures !IsValid("http://" + rest)
  {
    var s := "http://" + rest;
    assert s[4] == ':';
    KeepsNonSlash(s, 4);
    var u := StripTrailingSlashes(s);
    assert u[4] == ':';
    PrefixLength();
    assert |Prefix| <= |u| ==> LowerStr(u[..|Prefix|])[4] == ':';
  }

  /** A URL without a scheme is refused. */
  lemma SchemelessRejected(rest: string)
    ensures !IsValid("github.com/" + rest)
  {
    var s := "github.com/" + rest;
    assert s[0] == 'g';
    KeepsNonSlash(s, 0);
    var u := StripTrailingSlashes(s);
    PrefixLength();
    assert |Prefix| <= |u| ==> LowerStr(u[..|Prefix|])[0] == 'g';
  }

  /** A URL naming only an owner is refused, with or without trailing slashes. */
  lemma OwnerOnlyRejected(owner: string, slashes: nat)
    requires AllWord(owner)
    ensures !IsValid(Prefix + owner + seq(slashes, _ => '/'))
  {
    var s := Prefix + owner + seq(slashes, _ => '/');
    var u := StripTrailingSlashes(s);
    assert |u| <= |Prefix| + |owner|;
  }

  // ---- Properties of the normalisation ----

  /** For a URL given with the lower-case prefix, the name is what follows the prefix. */
  lemma NameAfterLowerPrefix(repoUrl: string)
    requires StartsWith(repoUrl, Prefix)
    ensures RepoName(repoUrl) == repoUrl[|Prefix|..]
  {
  }

  /** Trailing slashes go first, then one ".git": "https://github.com/o/r.git//" is stored as ".../o/r", named "o/r". */
  lemma SlashesThenGitStripped(owner: string, repo: string, slashes: nat)
    ensures NormalUrl(Prefix + owner + "/" + repo + GitSuffix + seq(slashes, _ => '/')) == Prefix + owner + "/" + repo
    ensures RepoName(Prefix + owner + "/" + repo) == owner + "/" + repo
  {
    var stem := Prefix + owner + "/" + repo;
    GitThenSlashes(stem, slashes);
    assert stem + GitSuffix + seq(slashes, _ => '/') == Prefix + owner + "/" + repo + GitSuffix + seq(slashes, _ => '/');
    NameAfterLowerPrefix(stem);
  }

  lemma GitThenSlashes(stem: string, slashes: nat)
    ensures NormalUrl(stem + GitSuffix + seq(slashes, _ => '/')) == stem
  {
    var base := stem + GitSuffix;
    var s := base + seq(slashes, _ => '/');
    GitSuffixFacts();
    KeepsNonSlash(s, |base| - 1);
    assert s[..|base|] == base;
    assert StripTrailingSlashes(s) == base;
    assert base[|base| - |GitSuffix|..] == GitSuffix;
    assert base[..|base| - |GitSuffix|] == stem;
  }

  lemma GitSuffixFacts() ensures |GitSuffix| == 4 && GitSuffix[3] == 't' {}

  /**
   * The common case: a URL that does not end in ".git" only loses its trailing
   * slashes, so "https://github.com/o/r/" is stored as "https://github.com/o/r".
   */
  lemma SlashesStripped(stem: string, slashes: nat)
    requires stem == [] || stem[|stem| - 1] != '/'
    requires !EndsWith(stem, GitSuffix)
    ensures NormalUrl(stem + seq(slashes, _ => '/')) == stem
  {
    var s := stem + seq(slashes, _ => '/');
    if stem != [] {
      KeepsNonSlash(s, |stem| - 1);
      assert s[..|stem|] == stem;
    }
    assert StripTrailingSlashes(s) == stem;
  }

  /** For example, one trailing slash after owner/repo is removed and nothing else. */
  lemma TrailingSlashStripped()
    ensures NormalUrl("https://github.com/o/r/") == "https://github.com/o/r"
    ensures RepoName(NormalUrl("https://github.com/o/r/")) == "o/r"
  {
    var stem := "https://github.com/o/r";
    assert stem[|stem| - |GitSuffix|..] != GitSuffix by { assert stem[|stem| - 1] == 'r'; }
    SlashesStripped(stem, 1);
    assert stem + seq(1, _ => '/') == "https://github.com/o/r/";
    assert stem == Prefix + "o/r";
    NameAfterLowerPrefix(stem);
  }

  /**
   * Normalising can turn an accepted URL into one the validator refuses: the
   * repo segment ".git" is accepted by `[\w.-]+` and then removed whole.
   */
  lemma NormalUrlCanBeRejected(owner: string)
    requires owner != "" && AllWord(owner)
    ensures IsValid(Prefix + owner + "/" + GitSuffix)
    ensures NormalUrl(Prefix + owner + "/" + GitSuffix) == Prefix + owner + "/"
    ensures !IsValid(NormalUrl(Prefix + owner + "/" + GitSuffix))
  {
    GitSuffixWord();
    ExtraPathAccepted(owner, GitSuffix, "");
    assert Prefix + owner + "/" + GitSuffix + "" == Prefix + owner + "/" + GitSuffix;
    SlashesThenGitStripped(owner, "", 0);
    OwnerOnlyRejected(owner, 1);
    assert Prefix + owner + seq(1, _ => '/') == Prefix + owner + "/";
  }

  lemma GitSuffixWord() ensures GitSuffix != "" && AllWord(GitSuffix) {}

  /** Only a lower-case ".git" is removed: "o/r.GIT" is stored as submitted. */
  lemma UpperGitKept(s: string)
    ensures NormalUrl(s + ".GIT") == s + ".GIT"
  {
    var t := s + ".GIT";
    KeepsNonSlash(t, |t| - 1);
    assert StripTrailingSlashes(t) == t;
    GitSuffixFacts();
    assert t[|t| - 1] == 'T';
  }

  const UpperPrefix: string := "HTTPS://GITHUB.COM/"

  lemma UpperPrefixFacts()
    ensures |UpperPrefix| == |Prefix| && Lacks(UpperPrefix, "h") && LowerStr(UpperPrefix) == Prefix
  {
  }

  /**
   * The prefix is validated in any case but removed only in lower case, so a URL
   * given in upper case keeps its whole text as the name.
   */
  lemma UpperPrefixKeptInName(rest: string)
    requires FindFirst(rest, Prefix).None?
    ensures RepoName(UpperPrefix + rest) == UpperPrefix + rest
  {
    var s := UpperPrefix + rest;
    forall j: nat
      ensures !OccursAt(s, Prefix, j)
    {
      if j < |UpperPrefix| {
        EarlyWindowDiffers(rest, j);
      } else {
        LateWindow(rest, j);
      }
    }
  }

  lemma EarlyWindowDiffers(rest: string, j: nat)
    requires j < |UpperPrefix|
    ensures !OccursAt(UpperPrefix + rest, Prefix, j)
  {
    var s := UpperPrefix + rest;
    UpperPrefixFacts();
    PrefixLength();
    if j + |Prefix| <= |s| {
      assert s[j..j + |Prefix|][0] == UpperPrefix[j];
    }
  }

  lemma LateWindow(rest: string, j: nat)
    requires |UpperPrefix| <= j
    ensures OccursAt(UpperPrefix + rest, Prefix, j) == OccursAt(rest, Prefix, j - |UpperPrefix|)
  {
    var s := UpperPrefix + rest;
    if j + |Prefix| <= |s| {
      assert s[j..j + |Prefix|] == rest[j - |UpperPrefix|..j - |UpperPrefix| + |Prefix|];
    }
  }

  /** ... while the validator accepts the same URL. */
  lemma UpperPrefixAccepted(owner: string, repo: string)
    requires owner != "" && AllWord(owner) && repo != "" && AllWord(repo)
    ensures IsValid(UpperPrefix + owner + "/" + repo)
  {
    UpperPrefixFacts();
    AcceptedFront(UpperPrefix, owner, repo, "");
    assert UpperPrefix + owner + "/" + repo + "" == UpperPrefix + owner + "/" + repo;
  }
}
