/**
 * The string operations the service performs on user input and on error text:
 * JavaScript's `String.prototype.trim`, `split`/`join`, and the case-insensitive
 * tests its regular expressions make against ASCII patterns.
 */
module Strings {

  /** The characters `String.prototype.trim` removes: WhiteSpace and LineTerminator. */
  predicate IsWhitespace(c: char) {
    var n := c as int;
    n == 0x09 || n == 0x0A || n == 0x0B || n == 0x0C || n == 0x0D || n == 0x20 ||
    n == 0xA0 || n == 0x1680 || (0x2000 <= n <= 0x200A) || n == 0x2028 ||
    n == 0x2029 || n == 0x202F || n == 0x205F || n == 0x3000 || n == 0xFEFF
  }

  predicate AllWhitespace(s: string) {
    forall k :: 0 <= k < |s| ==> IsWhitespace(s[k])
  }

  /** A string that `trim` leaves alone. */
  predicate IsTrimmed(s: string) {
    s == [] || (!IsWhitespace(s[0]) && !IsWhitespace(s[|s| - 1]))
  }

  function TrimStart(s: string): (r: string)
    ensures |r| <= |s| && r == s[|s| - |r|..]
    ensures forall k :: 0 <= k < |s| - |r| ==> IsWhitespace(s[k])
    ensures r == [] || !IsWhitespace(r[0])
    decreases |s|
  {
    if |s| > 0 && IsWhitespace(s[0]) then TrimStart(s[1..]) else s
  }

  function TrimEnd(s: string): (r: string)
    ensures |r| <= |s| && r == s[..|r|]
    ensures forall k :: |r| <= k < |s| ==> IsWhitespace(s[k])
    ensures r == [] || !IsWhitespace(r[|r| - 1])
    decreases |s|
  {
    if |s| > 0 && IsWhitespace(s[|s| - 1]) then TrimEnd(s[..|s| - 1]) else s
  }

  /** `s.trim()`: the slice of `s` left after dropping whitespace at both ends. */
  function Trim(s: string): (r: string)
    ensures IsTrimmed(r)
  {
    var t := TrimStart(s);
    var r := TrimEnd(t);
    TrimmedSlice(s, t, r);
    r
  }

  /** What `trim` keeps is the middle of `s`, with only whitespace around it. */
  lemma TrimIsSlice(s: string)
    ensures exists i :: 0 <= i <= |s| - |Trim(s)| && Trim(s) == s[i..i + |Trim(s)|]
                        && AllWhitespace(s[..i]) && AllWhitespace(s[i + |Trim(s)|..])
  {
    var t := TrimStart(s);
    SliceAroundTrimmed(s, t, Trim(s));
  }

  lemma TrimmedSlice(s: string, t: string, r: string)
    requires |t| <= |s| && t == s[|s| - |t|..]
    requires |r| <= |t| && r == t[..|r|]
    requires (t == [] || !IsWhitespace(t[0])) && (r == [] || !IsWhitespace(r[|r| - 1]))
    ensures IsTrimmed(r)
  {
    assert r != [] ==> r[0] == t[0];
  }

  lemma SliceAroundTrimmed(s: string, t: string, r: string)
    requires |t| <= |s| && t == s[|s| - |t|..] && forall k :: 0 <= k < |s| - |t| ==> IsWhitespace(s[k])
    requires |r| <= |t| && r == t[..|r|] && forall k :: |r| <= k < |t| ==> IsWhitespace(t[k])
    ensures exists i :: 0 <= i <= |s| - |r| && r == s[i..i + |r|]
                        && AllWhitespace(s[..i]) && AllWhitespace(s[i + |r|..])
  {
    var i := |s| - |t|;
    assert s[i..i + |r|] == t[..|r|];
    assert AllWhitespace(s[..i]);
    var tail := s[i + |r|..];
    assert tail == t[|r|..];
  }

  lemma TrimOfTrimmed(s: string)
    requires IsTrimmed(s)
    ensures Trim(s) == s
  {
  }

  lemma TrimKeepsOut(s: string, c: char)
    requires c !in s
    ensures c !in Trim(s)
  {
  }

  /** ASCII lower-casing: the case folding the source's `/i` patterns need. */
  function Lower(c: char): char {
    if 'A' <= c <= 'Z' then (c as int + 32) as char else c
  }

  function Upper(c: char): char {
    if 'a' <= c <= 'z' then (c as int - 32) as char else c
  }

  function LowerStr(s: string): (r: string)
    ensures |r| == |s| && forall k :: 0 <= k < |s| ==> r[k] == Lower(s[k])
  {
    seq(|s|, k requires 0 <= k < |s| => Lower(s[k]))
  }

  predicate StartsWith(s: string, p: string) {
    |p| <= |s| && s[..|p|] == p
  }

  predicate EndsWith(s: string, p: string) {
    |p| <= |s| && s[|s| - |p|..] == p
  }

  /** `p` (given in lower case) begins `s`, ignoring ASCII case. */
  predicate StartsWithCI(s: string, p: string) {
    |p| <= |s| && LowerStr(s[..|p|]) == p
  }

  /** `p` (given in lower case) ends `s`, ignoring ASCII case. */
  predicate EndsWithCI(s: string, p: string) {
    |p| <= |s| && LowerStr(s[|s| - |p|..]) == p
  }

  /** `p` (given in lower case) occurs in `s` at offset `k`, ignoring ASCII case. */
  predicate MatchesAt(s: string, p: string, k: nat)
    requires k + |p| <= |s|
  {
    forall j :: 0 <= j < |p| ==> Lower(s[k + j]) == p[j]
  }

  predicate Occurs(s: string, p: string) {
    exists k: nat :: k + |p| <= |s| && MatchesAt(s, p, k)
  }

  /** The test `/p/i.test(s)` for an ASCII pattern `p` without metacharacters. */
  function ContainsCI(s: string, p: string): (found: bool)
    ensures found <==> Occurs(s, p)
    decreases |s|
  {
    if |s| < |p| then false
    else if MatchesAt(s, p, 0) then true
    else
      var rest := ContainsCI(s[1..], p);
      if rest then
        var k: nat :| k + |p| <= |s| - 1 && MatchesAt(s[1..], p, k);
        assert MatchesAt(s, p, k + 1);
        true
      else
        assert forall k: nat :: 1 <= k && k + |p| <= |s| && MatchesAt(s, p, k) ==> MatchesAt(s[1..], p, k - 1);
        false
  }

  /** A match inside a longer match: `q` occurs in `s` wherever `p` does, at offset `t`. */
  lemma OccursInner(s: string, p: string, t: nat, q: string)
    requires t + |q| <= |p| && p[t..t + |q|] == q
    requires Occurs(s, p)
    ensures Occurs(s, q)
  {
    var k: nat :| k + |p| <= |s| && MatchesAt(s, p, k);
    forall j | 0 <= j < |q|
      ensures Lower(s[k + t + j]) == q[j]
    {
      assert q[j] == p[t + j];
    }
    assert MatchesAt(s, q, k + t);
  }

  /** No character of `cs` occurs in `s`. */
  predicate Lacks(s: string, cs: string) {
    forall k :: 0 <= k < |s| ==> s[k] !in cs
  }

  lemma LacksConcat(a: string, b: string, cs: string)
    requires Lacks(a, cs) && Lacks(b, cs)
    ensures Lacks(a + b, cs)
  {
  }

  /** A pattern holding a letter that `s` lacks in both cases does not occur in `s`. */
  lemma AbsentCharRefutes(s: string, p: string, t: nat)
    requires t < |p| && Lacks(s, [p[t], Upper(p[t])])
    ensures !Occurs(s, p)
  {
    forall k: nat | k + |p| <= |s|
      ensures !MatchesAt(s, p, k)
    {
      assert s[k + t] !in [p[t], Upper(p[t])];
    }
  }

  /**
   * When a pattern character occurs in `s` exactly once (as `mid`, between `x`
   * and `y`), the only place `p` could occur is where that character lines up.
   */
  lemma UniqueCharRefutes(x: string, mid: char, y: string, p: string, t: nat)
    requires t < |p| && Lacks(x, [p[t], Upper(p[t])]) && Lacks(y, [p[t], Upper(p[t])])
    requires t <= |x| && |x| - t + |p| <= |x| + 1 + |y| ==> !MatchesAt(x + [mid] + y, p, |x| - t)
    ensures !Occurs(x + [mid] + y, p)
  {
    var s := x + [mid] + y;
    forall k: nat | k + |p| <= |s| && k + t != |x|
      ensures !MatchesAt(s, p, k)
    {
      if k + t < |x| {
        assert s[k + t] == x[k + t];
      } else {
        assert s[k + t] == y[k + t - |x| - 1];
      }
    }
  }

  /** Position of the first `c` in `s`. */
  function IndexOf(s: string, c: char): (i: nat)
    requires c in s
    ensures i < |s| && s[i] == c && c !in s[..i]
  {
    if s[0] == c then 0
    else
      var j := IndexOf(s[1..], c);
      assert s[..j + 1] == [s[0]] + s[1..][..j];
      j + 1
  }

  /** Index of the first character of `s` that is in `cs`, or `|s|` when there is none. */
  function FirstOf(s: string, cs: string): (i: nat)
    ensures i <= |s| && Lacks(s[..i], cs)
    ensures i < |s| ==> s[i] in cs
  {
    if |s| == 0 then 0
    else if s[0] in cs then 0
    else
      var j := FirstOf(s[1..], cs);
      assert s[..j + 1] == [s[0]] + s[1..][..j];
      j + 1
  }

  lemma {:induction false} FirstOfConcat(a: string, b: string, cs: string)
    requires Lacks(a, cs) && (b == [] || b[0] in cs)
    ensures FirstOf(a + b, cs) == |a|
  {
    if a != [] {
      assert (a + b)[1..] == a[1..] + b;
      FirstOfConcat(a[1..], b, cs);
    }
  }

  /** `parts.join(sep)`. */
  function Join(parts: seq<string>, sep: string): string {
    if |parts| == 0 then ""
    else if |parts| == 1 then parts[0]
    else parts[0] + sep + Join(parts[1..], sep)
  }

  /** `s.split(sep)` for a one-character separator: joining the pieces gives `s` back. */
  function Split(s: string, sep: char): (parts: seq<string>)
    ensures |parts| >= 1
    ensures forall i :: 0 <= i < |parts| ==> sep !in parts[i]
    ensures Join(parts, [sep]) == s
    decreases |s|
  {
    if sep !in s then [s]
    else
      var i := IndexOf(s, sep);
      var rest := Split(s[i + 1..], sep);
      assert s == s[..i] + [sep] + s[i + 1..];
      [s[..i]] + rest
  }

  /** Splitting undoes joining, when no piece holds the separator. */
  lemma {:induction false} SplitJoin(parts: seq<string>, sep: char)
    requires |parts| >= 1
    requires forall i :: 0 <= i < |parts| ==> sep !in parts[i]
    ensures Split(Join(parts, [sep]), sep) == parts
  {
    if |parts| == 1 {
    } else {
      var s := Join(parts, [sep]);
      var tail := Join(parts[1..], [sep]);
      assert s == parts[0] + [sep] + tail;
      assert s[..|parts[0]|] == parts[0];
      assert sep in s by { assert s[|parts[0]|] == sep; }
      var i := IndexOf(s, sep);
      assert i == |parts[0]|;
      assert s[i + 1..] == tail;
      SplitJoin(parts[1..], sep);
    }
  }

  /** `parts.filter(Boolean)` on strings: drop the empty ones. */
  function NonEmpty(parts: seq<string>): (r: seq<string>)
    ensures forall i :: 0 <= i < |r| ==> r[i] != ""
    ensures forall x :: x in r <==> x in parts && x != ""
    ensures |r| <= |parts|
  {
    if |parts| == 0 then []
    else if parts[0] == "" then NonEmpty(parts[1..])
    else [parts[0]] + NonEmpty(parts[1..])
  }
}
