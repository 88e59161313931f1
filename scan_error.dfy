/**
 * `friendlyScanError` (cloud-run/index.js): turns a raw failure message from git,
 * CodeQL or the access check into the one line shown to the user. Known failure
 * signatures are tested in a fixed priority order, case-insensitively; anything
 * else falls back to the first six lines of the message, or a default text.
 */
module ScanError {
  import opened Strings

  // The canned messages, assembled from short pieces so that facts about their
  // characters can be checked one piece at a time.
  const Auth1: string := "This repository appears to be "
  const Auth2: string := "private or requires "
  const Auth3: string := "authentication. Only public "
  const Auth4: string := "GitHub repositories are "
  const Auth5: string := "supported right now."
  const AuthMessage: string := Auth1 + Auth2 + Auth3 + Auth4 + Auth5

  const NotFound1: string := "Repository not found. "
  const NotFound2: string := "Please check the URL and make "
  const NotFound3: string := "sure the repository is pu"
  const NotFound4: string := "lic."
  const NotFoundMessage: string := NotFound1 + NotFound2 + NotFound3 + "b" + NotFound4

  const Rate1: string := "GitHub rate limit reached. "
  const Rate2: string := "Please try again in a few minutes."
  const RateLimitMessage: string := Rate1 + Rate2

  const Default1: string := "Scan failed. "
  const Default2: string := "Please try again."
  const DefaultMessage: string := Default1 + Default2

  // The patterns, in lower case (the source's regular expressions carry the `i` flag).
  const UsernamePrompt: string := "could not read username for 'https://github.com'"
  const PromptsDisabled: string := "terminal prompts disabled"
  const RepositoryNotFound: string := "repository not found"
  const NotFound: string := "not found"
  const RateLimit: string := "rate limit"

  /** Number of lines kept by the fallback (`slice(0, 6)`). */
  const MaxLines: nat := 6

  predicate IsAuthFailure(msg: string) {
    ContainsCI(msg, UsernamePrompt) || ContainsCI(msg, PromptsDisabled)
  }

  predicate IsNotFound(msg: string) {
    ContainsCI(msg, RepositoryNotFound) || ContainsCI(msg, NotFound)
  }

  predicate IsRateLimited(msg: string) {
    ContainsCI(msg, RateLimit)
  }

  function Take(parts: seq<string>, n: nat): seq<string> {
    if |parts| <= n then parts else parts[..n]
  }

  lemma {:induction false} JoinKeepsOut(parts: seq<string>, sep: string, c: char)
    requires c !in sep
    requires forall i :: 0 <= i < |parts| ==> c !in parts[i]
    ensures c !in Join(parts, sep)
  {
    if |parts| > 1 {
      JoinKeepsOut(parts[1..], sep, c);
    }
  }

  /** The fallback text: the first six lines joined by spaces, then trimmed. */
  function FirstLines(msg: string): (r: string)
    ensures '\n' !in r && IsTrimmed(r)
  {
    var lines := Take(Split(msg, '\n'), MaxLines);
    JoinKeepsOut(lines, " ", '\n');
    TrimKeepsOut(Join(lines, " "), '\n');
    Trim(Join(lines, " "))
  }

  // Which characters the canned messages lack, one piece at a time.

  predicate InAuthSet(c: char) { c == '\n' || c == '\'' || c == 'm' || c == 'M' || c == 'f' || c == 'F' }
  lemma Auth1Lacks() ensures Lacks(Auth1, "\n'mMfF") {
    assert forall k :: 0 <= k < |Auth1| ==> !InAuthSet(Auth1[k]);
  }
  lemma Auth2Lacks() ensures Lacks(Auth2, "\n'mMfF") {
    assert forall k :: 0 <= k < |Auth2| ==> !InAuthSet(Auth2[k]);
  }
  lemma Auth3Lacks() ensures Lacks(Auth3, "\n'mMfF") {
    assert forall k :: 0 <= k < |Auth3| ==> !InAuthSet(Auth3[k]);
  }
  lemma Auth4Lacks() ensures Lacks(Auth4, "\n'mMfF") {
    assert forall k :: 0 <= k < |Auth4| ==> !InAuthSet(Auth4[k]);
  }
  lemma Auth5Lacks() ensures Lacks(Auth5, "\n'mMfF") {
    assert forall k :: 0 <= k < |Auth5| ==> !InAuthSet(Auth5[k]);
  }

  predicate InNotFoundSet(c: char) { c == '\n' || c == '\'' || c == 'b' || c == 'B' }
  lemma NotFound1Lacks() ensures Lacks(NotFound1, "\n'bB") {
    assert forall k :: 0 <= k < |NotFound1| ==> !InNotFoundSet(NotFound1[k]);
  }
  lemma NotFound2Lacks() ensures Lacks(NotFound2, "\n'bB") {
    assert forall k :: 0 <= k < |NotFound2| ==> !InNotFoundSet(NotFound2[k]);
  }
  lemma NotFound3Lacks() ensures Lacks(NotFound3, "\n'bB") {
    assert forall k :: 0 <= k < |NotFound3| ==> !InNotFoundSet(NotFound3[k]);
  }
  lemma NotFound4Lacks() ensures Lacks(NotFound4, "\n'bB") {
    assert forall k :: 0 <= k < |NotFound4| ==> !InNotFoundSet(NotFound4[k]);
  }

  predicate InRateSet(c: char) { c == '\n' || c == '\'' || c == 'o' || c == 'O' }
  lemma Rate1Lacks() ensures Lacks(Rate1, "\n'oO") {
    assert forall k :: 0 <= k < |Rate1| ==> !InRateSet(Rate1[k]);
  }
  lemma Rate2Lacks() ensures Lacks(Rate2, "\n'oO") {
    assert forall k :: 0 <= k < |Rate2| ==> !InRateSet(Rate2[k]);
  }

  predicate InDefaultSet(c: char) { c == '\n' || c == '\'' || c == 'o' || c == 'O' || c == 'm' || c == 'M' }
  lemma Default1Lacks() ensures Lacks(Default1, "\n'oOmM") {
    assert forall k :: 0 <= k < |Default1| ==> !InDefaultSet(Default1[k]);
  }
  lemma Default2Lacks() ensures Lacks(Default2, "\n'oOmM") {
    assert forall k :: 0 <= k < |Default2| ==> !InDefaultSet(Default2[k]);
  }

  lemma AuthLacks()
    ensures Lacks(AuthMessage, "\n'mMfF")
  {
    var cs := "\n'mMfF";
    Auth1Lacks(); Auth2Lacks(); Auth3Lacks(); Auth4Lacks(); Auth5Lacks();
    LacksConcat(Auth1, Auth2, cs);
    LacksConcat(Auth1 + Auth2, Auth3, cs);
    LacksConcat(Auth1 + Auth2 + Auth3, Auth4, cs);
    LacksConcat(Auth1 + Auth2 + Auth3 + Auth4, Auth5, cs);
  }

  lemma NotFoundLacks()
    ensures Lacks(NotFoundMessage, "\n'")
    ensures Lacks(NotFound1 + NotFound2 + NotFound3, "bB") && Lacks(NotFound4, "bB")
  {
    var cs := "\n'bB";
    NotFound1Lacks(); NotFound2Lacks(); NotFound3Lacks(); NotFound4Lacks();
    LacksConcat(NotFound1, NotFound2, cs);
    LacksConcat(NotFound1 + NotFound2, NotFound3, cs);
    LacksConcat(NotFound1 + NotFound2 + NotFound3, "b", "\n'");
    LacksConcat(NotFound1 + NotFound2 + NotFound3 + "b", NotFound4, "\n'");
  }

  lemma RateLacks()
    ensures Lacks(RateLimitMessage, "\n'oO")
  {
    Rate1Lacks(); Rate2Lacks();
    LacksConcat(Rate1, Rate2, "\n'oO");
  }

  lemma DefaultLacks()
    ensures Lacks(DefaultMessage, "\n'oOmM")
  {
    Default1Lacks(); Default2Lacks();
    LacksConcat(Default1, Default2, "\n'oOmM");
  }

  /**
   * `friendlyScanError(message)`. The authentication prompt wins over "not found",
   * which wins over "rate limit"; the result is never empty and is a single line.
   */
  function FriendlyScanError(msg: string): (r: string)
    ensures r != "" && '\n' !in r
  {
    AuthLacks();
    NotFoundLacks();
    RateLacks();
    DefaultLacks();
    if IsAuthFailure(msg) then AuthMessage
    else if IsNotFound(msg) then NotFoundMessage
    else if IsRateLimited(msg) then RateLimitMessage
    else
      var lines := FirstLines(msg);
      if lines == "" then DefaultMessage else lines
  }

  /** A word that spells a pattern in any mix of cases, placed anywhere in a message, is found there. */
  lemma SpelledOut(p: string, w: string, q: string, pat: string)
    requires LowerStr(w) == pat
    ensures Occurs(p + w + q, pat)
  {
    var s := p + w + q;
    assert forall j :: 0 <= j < |pat| ==> s[|p| + j] == w[j];
    assert MatchesAt(s, pat, |p|);
  }

  /**
   * An authentication prompt, in any case and anywhere in the message, gives the
   * private-repository text, whatever else the message says ("not found" and
   * "rate limit" included).
   */
  lemma AuthSignatureWins(p: string, w: string, q: string)
    requires LowerStr(w) == UsernamePrompt || LowerStr(w) == PromptsDisabled
    ensures FriendlyScanError(p + w + q) == AuthMessage
  {
    SpelledOut(p, w, q, LowerStr(w));
  }

  /**
   * Without an authentication prompt, "not found" or "repository not found", in any
   * case and anywhere, gives the not-found text, even when "rate limit" also appears.
   */
  lemma NotFoundSignatureWins(p: string, w: string, q: string)
    requires LowerStr(w) == NotFound || LowerStr(w) == RepositoryNotFound
    requires !Occurs(p + w + q, UsernamePrompt) && !Occurs(p + w + q, PromptsDisabled)
    ensures FriendlyScanError(p + w + q) == NotFoundMessage
  {
    SpelledOut(p, w, q, LowerStr(w));
  }

  /** With neither an authentication prompt nor "not found", "rate limit" in any case gives the rate-limit text. */
  lemma RateLimitSignatureWins(p: string, w: string, q: string)
    requires LowerStr(w) == RateLimit
    requires !Occurs(p + w + q, UsernamePrompt) && !Occurs(p + w + q, PromptsDisabled)
    requires !Occurs(p + w + q, NotFound)
    ensures FriendlyScanError(p + w + q) == RateLimitMessage
  {
    SpelledOut(p, w, q, RateLimit);
    RepositoryAlternativeRedundant(p + w + q);
  }

  /** An empty or blank message gives the default text. */
  lemma BlankGivesDefault(msg: string)
    requires AllWhitespace(msg)
    ensures FriendlyScanError(msg) == DefaultMessage
  {
    UsernamePromptChars(); PromptsDisabledChars(); RepositoryNotFoundChars();
    NotFoundChars(); RateLimitChars();
    BlankMatches(msg, UsernamePrompt, 28);
    BlankMatches(msg, PromptsDisabled, 3);
    BlankMatches(msg, RepositoryNotFound, 3);
    BlankMatches(msg, NotFound, 1);
    BlankMatches(msg, RateLimit, 7);
    var lines := Take(Split(msg, '\n'), MaxLines);
    SplitBlank(msg, '\n');
    JoinBlank(lines, " ");
  }

  /** White space never spells a pattern that holds a character other than white space. */
  lemma BlankMatches(msg: string, pat: string, i: nat)
    requires AllWhitespace(msg) && i < |pat| && !IsWhitespace(pat[i])
    ensures !Occurs(msg, pat)
  {
    forall k: nat | k + |pat| <= |msg|
      ensures !MatchesAt(msg, pat, k)
    {
      assert Lower(msg[k + i]) == msg[k + i];
    }
  }

  lemma {:induction false} SplitBlank(s: string, sep: char)
    requires AllWhitespace(s)
    ensures forall i :: 0 <= i < |Split(s, sep)| ==> AllWhitespace(Split(s, sep)[i])
  {
    if sep in s {
      var j := IndexOf(s, sep);
      SplitBlank(s[j + 1..], sep);
      assert Split(s, sep) == [s[..j]] + Split(s[j + 1..], sep);
    }
  }

  lemma {:induction false} JoinBlank(parts: seq<string>, sep: string)
    requires AllWhitespace(sep)
    requires forall i :: 0 <= i < |parts| ==> AllWhitespace(parts[i])
    ensures AllWhitespace(Join(parts, sep))
  {
    if |parts| > 1 {
      JoinBlank(parts[1..], sep);
    }
  }

  /** The first alternative of `/Repository not found|not found/i` adds nothing. */
  lemma RepositoryAlternativeRedundant(msg: string)
    ensures IsNotFound(msg) <==> Occurs(msg, NotFound)
  {
    if Occurs(msg, RepositoryNotFound) {
      OccursInner(msg, RepositoryNotFound, 11, NotFound);
    }
  }

  /** A one-line, trimmed message that matches no signature is returned unchanged. */
  lemma {:induction false} FallbackFixedPoint(msg: string)
    requires msg != "" && '\n' !in msg && IsTrimmed(msg)
    requires !IsAuthFailure(msg) && !IsNotFound(msg) && !IsRateLimited(msg)
    ensures FriendlyScanError(msg) == msg
  {
    assert Split(msg, '\n') == [msg];
    TrimOfTrimmed(msg);
  }

  // The pattern characters the refutations below rest on.
  lemma UsernamePromptChars() ensures |UsernamePrompt| == 48 && UsernamePrompt[28] == '\'' {}
  lemma PromptsDisabledChars()
    ensures |PromptsDisabled| == 25 && PromptsDisabled[3] == 'm' && PromptsDisabled[11] == 'o'
    ensures PromptsDisabled[21] == 'b'
  {}
  lemma RepositoryNotFoundChars()
    ensures |RepositoryNotFound| == 20 && RepositoryNotFound[3] == 'o' && RepositoryNotFound[15] == 'f'
  {}
  lemma NotFoundChars() ensures |NotFound| == 9 && NotFound[1] == 'o' && NotFound[4] == 'f' {}
  lemma RateLimitChars() ensures |RateLimit| == 10 && RateLimit[7] == 'm' {}

  // Which signatures the canned messages carry, one message and pattern at a time.
  lemma AuthNotUsernamePrompt() ensures !Occurs(AuthMessage, UsernamePrompt) {
    AuthLacks(); UsernamePromptChars();
    AbsentCharRefutes(AuthMessage, UsernamePrompt, 28);
  }
  lemma AuthNotPromptsDisabled() ensures !Occurs(AuthMessage, PromptsDisabled) {
    AuthLacks(); PromptsDisabledChars();
    AbsentCharRefutes(AuthMessage, PromptsDisabled, 3);
  }
  lemma AuthNotRepositoryNotFound() ensures !Occurs(AuthMessage, RepositoryNotFound) {
    AuthLacks(); RepositoryNotFoundChars();
    AbsentCharRefutes(AuthMessage, RepositoryNotFound, 15);
  }
  lemma AuthNotNotFound() ensures !Occurs(AuthMessage, NotFound) {
    AuthLacks(); NotFoundChars();
    AbsentCharRefutes(AuthMessage, NotFound, 4);
  }
  lemma AuthNotRateLimit() ensures !Occurs(AuthMessage, RateLimit) {
    AuthLacks(); RateLimitChars();
    AbsentCharRefutes(AuthMessage, RateLimit, 7);
  }
  lemma NotFoundNotUsernamePrompt() ensures !Occurs(NotFoundMessage, UsernamePrompt) {
    NotFoundLacks(); UsernamePromptChars();
    AbsentCharRefutes(NotFoundMessage, UsernamePrompt, 28);
  }
  lemma NotFoundNotPromptsDisabled() ensures !Occurs(NotFoundMessage, PromptsDisabled) {
    NotFoundLacks(); PromptsDisabledChars();
    var x := NotFound1 + NotFound2 + NotFound3;
    assert NotFoundMessage == x + ['b'] + NotFound4;
    assert |x| == 77;
    assert !MatchesAt(NotFoundMessage, PromptsDisabled, 56) by {
      assert Lower(NotFoundMessage[56]) != PromptsDisabled[0];
    }
    UniqueCharRefutes(x, 'b', NotFound4, PromptsDisabled, 21);
  }
  lemma RateNotUsernamePrompt() ensures !Occurs(RateLimitMessage, UsernamePrompt) {
    RateLacks(); UsernamePromptChars();
    AbsentCharRefutes(RateLimitMessage, UsernamePrompt, 28);
  }
  lemma RateNotPromptsDisabled() ensures !Occurs(RateLimitMessage, PromptsDisabled) {
    RateLacks(); PromptsDisabledChars();
    AbsentCharRefutes(RateLimitMessage, PromptsDisabled, 11);
  }
  lemma RateNotRepositoryNotFound() ensures !Occurs(RateLimitMessage, RepositoryNotFound) {
    RateLacks(); RepositoryNotFoundChars();
    AbsentCharRefutes(RateLimitMessage, RepositoryNotFound, 3);
  }
  lemma RateNotNotFound() ensures !Occurs(RateLimitMessage, NotFound) {
    RateLacks(); NotFoundChars();
    AbsentCharRefutes(RateLimitMessage, NotFound, 1);
  }
  lemma DefaultNotUsernamePrompt() ensures !Occurs(DefaultMessage, UsernamePrompt) {
    DefaultLacks(); UsernamePromptChars();
    AbsentCharRefutes(DefaultMessage, UsernamePrompt, 28);
  }
  lemma DefaultNotPromptsDisabled() ensures !Occurs(DefaultMessage, PromptsDisabled) {
    DefaultLacks(); PromptsDisabledChars();
    AbsentCharRefutes(DefaultMessage, PromptsDisabled, 11);
  }
  lemma DefaultNotRepositoryNotFound() ensures !Occurs(DefaultMessage, RepositoryNotFound) {
    DefaultLacks(); RepositoryNotFoundChars();
    AbsentCharRefutes(DefaultMessage, RepositoryNotFound, 3);
  }
  lemma DefaultNotNotFound() ensures !Occurs(DefaultMessage, NotFound) {
    DefaultLacks(); NotFoundChars();
    AbsentCharRefutes(DefaultMessage, NotFound, 1);
  }
  lemma DefaultNotRateLimit() ensures !Occurs(DefaultMessage, RateLimit) {
    DefaultLacks(); RateLimitChars();
    AbsentCharRefutes(DefaultMessage, RateLimit, 7);
  }

  // Each canned message, fed back in, comes out unchanged; the access check in
  // cloud-run/index.js simplifies its own errors before `runScan` simplifies them again.

  lemma AuthMessageIsFixedPoint()
    ensures FriendlyScanError(AuthMessage) == AuthMessage
  {
    AuthLacks();
    AuthNotUsernamePrompt(); AuthNotPromptsDisabled();
    AuthNotRepositoryNotFound(); AuthNotNotFound();
    AuthNotRateLimit();
    FallbackFixedPoint(AuthMessage);
  }

  lemma NotFoundMessageIsFixedPoint()
    ensures FriendlyScanError(NotFoundMessage) == NotFoundMessage
  {
    NotFoundNotUsernamePrompt(); NotFoundNotPromptsDisabled();
    assert MatchesAt(NotFoundMessage, NotFound, 11);
  }

  lemma RateLimitMessageIsFixedPoint()
    ensures FriendlyScanError(RateLimitMessage) == RateLimitMessage
  {
    RateNotUsernamePrompt(); RateNotPromptsDisabled();
    RateNotRepositoryNotFound(); RateNotNotFound();
    assert MatchesAt(RateLimitMessage, RateLimit, 7);
  }

  lemma DefaultMatchesNothing()
    ensures !IsAuthFailure(DefaultMessage) && !IsNotFound(DefaultMessage) && !IsRateLimited(DefaultMessage)
  {
    DefaultNotUsernamePrompt(); DefaultNotPromptsDisabled();
    DefaultNotRepositoryNotFound(); DefaultNotNotFound();
    DefaultNotRateLimit();
  }

  lemma DefaultIsOneTrimmedLine()
    ensures DefaultMessage != "" && '\n' !in DefaultMessage && IsTrimmed(DefaultMessage)
  {
    DefaultLacks();
  }

  lemma DefaultMessageIsFixedPoint()
    ensures FriendlyScanError(DefaultMessage) == DefaultMessage
  {
    DefaultIsOneTrimmedLine();
    DefaultMatchesNothing();
    FallbackFixedPoint(DefaultMessage);
  }

  /**
   * A one-line, trimmed message without an apostrophe, an `m` or an `f` (in
   * either case) cannot carry a signature, so it is its own simplification.
   */
  lemma PlainMessageIsFixedPoint(msg: string)
    requires msg != "" && IsTrimmed(msg) && Lacks(msg, "\n'mMfF")
    ensures FriendlyScanError(msg) == msg
  {
    UsernamePromptChars(); PromptsDisabledChars(); RepositoryNotFoundChars();
    NotFoundChars(); RateLimitChars();
    AbsentCharRefutes(msg, UsernamePrompt, 28);
    AbsentCharRefutes(msg, PromptsDisabled, 3);
    AbsentCharRefutes(msg, RepositoryNotFound, 15);
    AbsentCharRefutes(msg, NotFound, 4);
    AbsentCharRefutes(msg, RateLimit, 7);
    assert '\n' !in msg by {
      assert forall k :: 0 <= k < |msg| ==> msg[k] != '\n';
    }
    FallbackFixedPoint(msg);
  }

  /** Simplifying twice is the same as once unless the fallback text itself carries a signature. */
  lemma SecondPassStable(msg: string)
    requires var r := FriendlyScanError(msg);
      r == AuthMessage || r == NotFoundMessage || r == RateLimitMessage || r == DefaultMessage ||
      (!IsAuthFailure(r) && !IsNotFound(r) && !IsRateLimited(r))
    ensures FriendlyScanError(FriendlyScanError(msg)) == FriendlyScanError(msg)
  {
    var r := FriendlyScanError(msg);
    if r == AuthMessage {
      AuthMessageIsFixedPoint();
    } else if r == NotFoundMessage {
      NotFoundMessageIsFixedPoint();
    } else if r == RateLimitMessage {
      RateLimitMessageIsFixedPoint();
    } else if r == DefaultMessage {
      DefaultMessageIsFixedPoint();
    } else {
      FallbackFixedPoint(r);
    }
  }

  /**
   * The fallback joins lines with spaces, so a signature split across two lines is
   * found only on the second pass: "not" and "found" on separate lines come out as
   * "not found" the first time and as the not-found message the second time.
   */
  lemma SecondPassCanDiffer()
    ensures FriendlyScanError("not\nfound") == "not found"
    ensures FriendlyScanError(FriendlyScanError("not\nfound")) == NotFoundMessage
  {
    SplitNotFoundUnmatched();
    SplitNotFoundFallback();
    JoinedNotFoundMatches();
  }

  lemma SplitNotFoundUnmatched()
    ensures !IsAuthFailure("not\nfound") && !IsNotFound("not\nfound") && !IsRateLimited("not\nfound")
  {
    var m := "not\nfound";
    UsernamePromptChars(); PromptsDisabledChars(); RepositoryNotFoundChars(); RateLimitChars();
    NotFoundChars();
    assert !MatchesAt(m, NotFound, 0) by { assert Lower(m[3]) != NotFound[3]; }
  }

  lemma SplitNotFoundFallback()
    ensures FirstLines("not\nfound") == "not found"
  {
    SplitNotFound();
    assert Take(["not", "found"], MaxLines) == ["not", "found"];
    assert Join(["not", "found"], " ") == "not found";
    TrimOfTrimmed("not found");
  }

  lemma SplitNotFound()
    ensures Split("not\nfound", '\n') == ["not", "found"]
  {
    assert Join(["not", "found"], "\n") == "not\nfound";
    SplitJoin(["not", "found"], '\n');
  }

  lemma JoinedNotFoundMatches()
    ensures !IsAuthFailure("not found") && IsNotFound("not found")
  {
    UsernamePromptChars(); PromptsDisabledChars(); NotFoundChars();
    assert MatchesAt("not found", NotFound, 0);
  }

  /** Lines after the sixth never reach the user. */
  lemma FirstLinesDropsTail(lines: seq<string>)
    requires |lines| >= MaxLines
    requires forall i :: 0 <= i < |lines| ==> '\n' !in lines[i]
    ensures FirstLines(Join(lines, "\n")) == FirstLines(Join(lines[..MaxLines], "\n"))
  {
    var head := lines[..MaxLines];
    LeadingLines(lines, head);
    AllLines(head);
    SameLeadingLines(Join(lines, "\n"), Join(head, "\n"), head);
  }

  lemma LeadingLines(lines: seq<string>, head: seq<string>)
    requires |lines| >= MaxLines && head == lines[..MaxLines]
    requires forall i :: 0 <= i < |lines| ==> '\n' !in lines[i]
    ensures Take(Split(Join(lines, "\n"), '\n'), MaxLines) == head
  {
    SplitJoin(lines, '\n');
    var parts := Split(Join(lines, ['\n']), '\n');
    assert parts == lines;
    if |lines| == MaxLines {
      assert lines[..MaxLines] == lines;
    }
  }

  lemma AllLines(head: seq<string>)
    requires |head| == MaxLines
    requires forall i :: 0 <= i < |head| ==> '\n' !in head[i]
    ensures Take(Split(Join(head, "\n"), '\n'), MaxLines) == head
  {
    SplitJoin(head, '\n');
  }

  /** Messages whose first six lines agree fall back to the same text. */
  lemma SameLeadingLines(m1: string, m2: string, head: seq<string>)
    requires Take(Split(m1, '\n'), MaxLines) == head
    requires Take(Split(m2, '\n'), MaxLines) == head
    ensures FirstLines(m1) == FirstLines(m2)
  {
  }

  /** A message of one line falls back to itself, trimmed. */
  lemma OneLineFallback(msg: string)
    requires '\n' !in msg
    ensures FirstLines(msg) == Trim(msg)
  {
    assert Split(msg, '\n') == [msg];
    assert Take([msg], MaxLines) == [msg];
  }
}
