/**
 * `parseSarif` (cloud-run/index.js, with an identical copy in server.js): turns
 * the first run of a SARIF 2.1.0 log into a findings report. Every result becomes
 * one finding whose severity comes from the GitHub `security-severity` score of
 * its rule, or from the result's `level` when that score is below 4; the findings
 * are sorted stably from critical to low, and a summary counts them per severity.
 *
 * The log arrives already parsed: a property that is absent is `None` (or an
 * empty list, where the code treats absence and emptiness alike), and a score
 * that is absent or does not parse as a number is `None`.
 */
module Sarif {
  import opened Wrappers

  /** A `reportingDescriptor` of `tool.driver.rules` (section 3.49 of SARIF 2.1.0). */
  datatype Rule = Rule(
    id: string,
    shortDescription: Option<string>,
    name: Option<string>,
    fullDescription: Option<string>,
    score: Option<real>,
    tags: seq<string>)

  /** `physicalLocation` of a result's first location. */
  datatype Location = Location(uri: Option<string>, startLine: Option<int>, startColumn: Option<int>)

  /** A `result` object (section 3.27 of SARIF 2.1.0). */
  datatype SarifResult = SarifResult(
    ruleId: string,
    level: Option<string>,
    message: Option<string>,
    location: Option<Location>)

  /** A `run` object (section 3.14 of SARIF 2.1.0): its rules and its results. */
  datatype Run = Run(rules: seq<Rule>, results: seq<SarifResult>)

  datatype Log = Log(runs: seq<Run>)

  /** An entry of the `rules` dictionary; `severity` is `None` where `parseFloat` gives NaN. */
  datatype RuleInfo = RuleInfo(name: string, description: string, severity: Option<real>, tags: seq<string>)

  datatype Severity = Critical | High | Medium | Low

  datatype Finding = Finding(
    ruleId: string,
    name: string,
    description: Option<string>,
    message: string,
    severity: Severity,
    securitySeverity: real,
    file: string,
    line: int,
    column: int)

  datatype Summary = Summary(total: nat, critical: nat, high: nat, medium: nat, low: nat)

  datatype Report = Report(findings: seq<Finding>, summary: Summary)

  /** `a || b` on strings: the empty string counts as missing. */
  function OrElse(a: Option<string>, b: string): string {
    if a.Some? && a.value != "" then a.value else b
  }

  /** The dictionary entry built for one rule. */
  function Info(r: Rule): RuleInfo {
    RuleInfo(OrElse(r.shortDescription, OrElse(r.name, r.id)), OrElse(r.fullDescription, ""), r.score, r.tags)
  }

  /** The `rules` dictionary after the loop has seen `rules`. */
  function RuleTable(rules: seq<Rule>): map<string, RuleInfo> {
    if rules == [] then map[]
    else RuleTable(rules[..|rules| - 1])[rules[|rules| - 1].id := Info(rules[|rules| - 1])]
  }

  /** The rule ids are exactly the keys of the dictionary. */
  lemma {:induction false} RuleTableKeys(rules: seq<Rule>, k: string)
    ensures k in RuleTable(rules) <==> exists i :: 0 <= i < |rules| && rules[i].id == k
  {
    if rules != [] {
      var p := rules[..|rules| - 1];
      RuleTableKeys(p, k);
      if k in RuleTable(p) {
        var i :| 0 <= i < |p| && p[i].id == k;
        assert rules[i].id == k;
      }
      if exists i :: 0 <= i < |rules| && rules[i].id == k {
        var i :| 0 <= i < |rules| && rules[i].id == k;
        if i < |p| {
          assert p[i].id == k;
        }
      }
    }
  }

  /** No later rule has the id of `rules[i]`. */
  predicate LastWithId(rules: seq<Rule>, i: nat)
    requires i < |rules|
  {
    forall j :: i < j < |rules| ==> rules[j].id != rules[i].id
  }

  /** The entry for an id is built from the last rule with that id. */
  lemma {:induction false} RuleTableLastWins(rules: seq<Rule>, i: nat)
    requires i < |rules| && LastWithId(rules, i)
    ensures rules[i].id in RuleTable(rules) && RuleTable(rules)[rules[i].id] == Info(rules[i])
  {
    var p := rules[..|rules| - 1];
    if i < |p| {
      assert rules[|rules| - 1].id != rules[i].id;
      assert LastWithId(p, i) by {
        assert forall j :: i < j < |p| ==> p[j] == rules[j];
      }
      RuleTableLastWins(p, i);
    }
  }

  /** The `for` loop that fills `rules`. */
  method CollectRules(rules: seq<Rule>) returns (table: map<string, RuleInfo>)
    ensures table == RuleTable(rules)
  {
    table := map[];
    for i := 0 to |rules|
      invariant table == RuleTable(rules[..i])
    {
      assert rules[..i + 1][..i] == rules[..i];
      table := table[rules[i].id := Info(rules[i])];
    }
    assert rules[..|rules|] == rules;
  }

  function Rank(s: Severity): nat {
    match s
    case Critical => 0
    case High => 1
    case Medium => 2
    case Low => 3
  }

  /** The severity of a finding: score thresholds first, then the result's level below 4. */
  function SeverityOf(score: real, level: Option<string>): (r: Severity)
    ensures r == Critical <==> score >= 9.0
    ensures Rank(r) <= Rank(High) <==> score >= 7.0 || (score < 4.0 && level == Some("error"))
    ensures Rank(r) <= Rank(Medium) <==> score >= 4.0 || level == Some("error") || level == Some("warning")
  {
    if score >= 9.0 then Critical
    else if score >= 7.0 then High
    else if score >= 4.0 then Medium
    else if level == Some("error") then High
    else if level == Some("warning") then Medium
    else Low
  }

  /** The finding one result maps to, given the `rules` dictionary. */
  function ToFinding(rules: map<string, RuleInfo>, res: SarifResult): (f: Finding)
    ensures f.ruleId == res.ruleId && f.message == res.message.GetOr("")
    ensures f.severity == SeverityOf(f.securitySeverity, res.level)
    ensures f.securitySeverity == if res.ruleId in rules then rules[res.ruleId].severity.GetOr(0.0) else 0.0
    ensures f.description.Some? <==> res.ruleId in rules
    ensures res.ruleId in rules ==> f.description == Some(rules[res.ruleId].description)
    ensures f.name == if res.ruleId in rules && rules[res.ruleId].name != "" then rules[res.ruleId].name else res.ruleId
    ensures f.name == "" ==> res.ruleId == ""
    ensures res.location.None? ==> f.file == "" && f.line == 0 && f.column == 0
    ensures res.location.Some? ==>
              f.file == OrElse(res.location.value.uri, "") &&
              f.line == res.location.value.startLine.GetOr(0) && f.column == res.location.value.startColumn.GetOr(0)
  {
    var known := res.ruleId in rules;
    var secSev := if known then rules[res.ruleId].severity.GetOr(0.0) else 0.0;
    var loc := res.location;
    Finding(
      res.ruleId,
      if known && rules[res.ruleId].name != "" then rules[res.ruleId].name else res.ruleId,
      if known then Some(rules[res.ruleId].description) else None,
      res.message.GetOr(""),
      SeverityOf(secSev, res.level),
      secSev,
      if loc.Some? then OrElse(loc.value.uri, "") else "",
      if loc.Some? then loc.value.startLine.GetOr(0) else 0,
      if loc.Some? then loc.value.startColumn.GetOr(0) else 0)
  }

  /** `(run.results || []).map(...)`. */
  function ToFindings(rules: map<string, RuleInfo>, results: seq<SarifResult>): (fs: seq<Finding>)
    ensures |fs| == |results| && forall i :: 0 <= i < |results| ==> fs[i] == ToFinding(rules, results[i])
  {
    seq(|results|, i requires 0 <= i < |results| => ToFinding(rules, results[i]))
  }

  /** `findings.filter(f => f.severity === s)`. */
  function Filter(fs: seq<Finding>, s: Severity): (r: seq<Finding>)
    ensures |r| <= |fs|
    ensures forall k :: 0 <= k < |r| ==> r[k].severity == s
  {
    if fs == [] then []
    else (if fs[0].severity == s then [fs[0]] else []) + Filter(fs[1..], s)
  }

  predicate Sorted(fs: seq<Finding>) {
    forall i, j :: 0 <= i < j < |fs| ==> Rank(fs[i].severity) <= Rank(fs[j].severity)
  }

  /**
   * The findings in the order a stable sort by rank leaves them: the same findings,
   * running from critical to low.
   */
  function SortByRank(fs: seq<Finding>): (r: seq<Finding>)
    ensures multiset(r) == multiset(fs) && |r| == |fs|
    ensures Sorted(r)
  {
    BucketsPermutation(fs);
    BucketsSorted(fs);
    Filter(fs, Critical) + Filter(fs, High) + Filter(fs, Medium) + Filter(fs, Low)
  }

  lemma BucketsPermutation(fs: seq<Finding>)
    ensures var r := Filter(fs, Critical) + Filter(fs, High) + Filter(fs, Medium) + Filter(fs, Low);
      multiset(r) == multiset(fs) && |r| == |fs|
  {
    var r := Filter(fs, Critical) + Filter(fs, High) + Filter(fs, Medium) + Filter(fs, Low);
    FilterMultiset(fs);
    assert multiset(r) == multiset(fs);
    assert |multiset(r)| == |multiset(fs)|;
  }

  lemma BucketsSorted(fs: seq<Finding>)
    ensures Sorted(Filter(fs, Critical) + Filter(fs, High) + Filter(fs, Medium) + Filter(fs, Low))
  {
    var a, b, c, d := Filter(fs, Critical), Filter(fs, High), Filter(fs, Medium), Filter(fs, Low);
    var r := a + b + c + d;
    assert forall k :: 0 <= k < |r| ==>
      Rank(r[k].severity) == if k < |a| then 0 else if k < |a| + |b| then 1 else if k < |a| + |b| + |c| then 2 else 3;
  }

  function Summarize(fs: seq<Finding>): Summary {
    Summary(|fs|, |Filter(fs, Critical)|, |Filter(fs, High)|, |Filter(fs, Medium)|, |Filter(fs, Low)|)
  }

  const EmptyReport: Report := Report([], Summary(0, 0, 0, 0, 0))

  /**
   * `parseSarif` on an already-parsed log: nothing for a log without runs, else one
   * sorted finding per result of the first run, as many as the summary's total.
   */
  function ParseLog(log: Log): (rep: Report)
    ensures log.runs == [] ==> rep.findings == [] && rep.summary == Summary(0, 0, 0, 0, 0)
    ensures log.runs != [] ==> |rep.findings| == |log.runs[0].results|
    ensures |rep.findings| == rep.summary.total && Sorted(rep.findings)
  {
    if log.runs == [] then EmptyReport
    else
      var run := log.runs[0];
      var findings := SortByRank(ToFindings(RuleTable(run.rules), run.results));
      Report(findings, Summarize(findings))
  }

  /** `parseSarif`, with the dictionary filled by its loop. */
  method ParseSarif(log: Log) returns (report: Report)
    ensures report == ParseLog(log)
  {
    if log.runs == [] {
      return EmptyReport;
    }
    var run := log.runs[0];
    var rules := CollectRules(run.rules);
    var findings := ToFindings(rules, run.results);
    findings := SortByRank(findings);
    report := Report(findings, Summarize(findings));
  }

  // ---------------------------------------------------------------- severity

  /** At or above 4 the score alone decides, and a higher score never ranks lower. */
  lemma ScoreDecidesFromFour(s1: real, s2: real, l1: Option<string>, l2: Option<string>)
    requires 4.0 <= s1 <= s2
    ensures SeverityOf(s1, l1) == SeverityOf(s1, l2)
    ensures Rank(SeverityOf(s2, l2)) <= Rank(SeverityOf(s1, l1))
    ensures SeverityOf(s1, l1) != Low
  {
  }

  /** Below 4 every score, not only a missing one, falls back to the level. */
  lemma LevelDecidesBelowFour(score: real, level: Option<string>)
    requires score < 4.0
    ensures SeverityOf(score, level) == SeverityOf(0.0, level)
    ensures SeverityOf(score, level) == High <==> level == Some("error")
    ensures SeverityOf(score, level) == Medium <==> level == Some("warning")
    ensures SeverityOf(score, level) == Low <==> level != Some("error") && level != Some("warning")
  {
  }

  /** So an `error` result scored 3.9 ranks above one scored 4. */
  lemma ScoreNotMonotone()
    ensures SeverityOf(3.9, Some("error")) == High
    ensures SeverityOf(4.0, Some("error")) == Medium
  {
  }

  /** A result whose rule is unknown, or has no usable score, is scored 0. */
  lemma UnscoredResult(rules: map<string, RuleInfo>, r: SarifResult)
    requires r.ruleId !in rules || rules[r.ruleId].severity.None?
    ensures ToFinding(rules, r).securitySeverity == 0.0
    ensures ToFinding(rules, r).severity == SeverityOf(0.0, r.level)
    ensures r.ruleId !in rules ==> ToFinding(rules, r).name == r.ruleId && ToFinding(rules, r).description.None?
  {
  }

  // -------------------------------------------------------------------- sort

  lemma {:induction false} FilterConcat(a: seq<Finding>, b: seq<Finding>, s: Severity)
    ensures Filter(a + b, s) == Filter(a, s) + Filter(b, s)
  {
    if a == [] {
      assert a + b == b;
    } else {
      assert (a + b)[1..] == a[1..] + b;
      FilterConcat(a[1..], b, s);
    }
  }

  /** A list of one severity filters to itself for that severity and to nothing for the others. */
  lemma {:induction false} FilterUniform(fs: seq<Finding>, u: Severity, s: Severity)
    requires forall k :: 0 <= k < |fs| ==> fs[k].severity == u
    ensures Filter(fs, s) == if s == u then fs else []
  {
    if fs != [] {
      FilterUniform(fs[1..], u, s);
      if s == u {
        assert [fs[0]] + fs[1..] == fs;
      }
    }
  }

  lemma {:induction false} FilterMultiset(fs: seq<Finding>)
    ensures multiset(Filter(fs, Critical)) + multiset(Filter(fs, High))
            + multiset(Filter(fs, Medium)) + multiset(Filter(fs, Low)) == multiset(fs)
  {
    if fs != [] {
      var x, t := fs[0], fs[1..];
      FilterMultiset(t);
      assert multiset(fs) == multiset{x} + multiset(t) by {
        assert fs == [x] + t;
      }
      var a, b, c, d := Filter(t, Critical), Filter(t, High), Filter(t, Medium), Filter(t, Low);
      FilterStep(fs, Critical);
      FilterStep(fs, High);
      FilterStep(fs, Medium);
      FilterStep(fs, Low);
      AddOneOfFour(multiset{x}, multiset(a), multiset(b), multiset(c), multiset(d), Rank(x.severity));
    }
  }

  lemma FilterStep(fs: seq<Finding>, s: Severity)
    requires fs != []
    ensures multiset(Filter(fs, s))
            == (if fs[0].severity == s then multiset{fs[0]} else multiset{}) + multiset(Filter(fs[1..], s))
  {
  }

  /** Adding an element to one of four multisets adds it to their sum. */
  lemma AddOneOfFour<T>(m: multiset<T>, a: multiset<T>, b: multiset<T>, c: multiset<T>, d: multiset<T>, k: nat)
    requires k < 4
    ensures ((if k == 0 then m else multiset{}) + a) + ((if k == 1 then m else multiset{}) + b)
            + ((if k == 2 then m else multiset{}) + c) + ((if k == 3 then m else multiset{}) + d)
            == m + (a + b + c + d)
  {
  }

  /** Stability: the findings of each severity keep their relative order. */
  lemma SortIsStable(fs: seq<Finding>, s: Severity)
    ensures Filter(SortByRank(fs), s) == Filter(fs, s)
  {
    BucketsStable(fs, s);
  }

  lemma BucketsStable(fs: seq<Finding>, s: Severity)
    ensures Filter(Filter(fs, Critical) + Filter(fs, High) + Filter(fs, Medium) + Filter(fs, Low), s) == Filter(fs, s)
  {
    var a, b, c, d := Filter(fs, Critical), Filter(fs, High), Filter(fs, Medium), Filter(fs, Low);
    FilterOfBuckets(a, b, c, d, s);
    if s == Critical {
      assert a + [] + [] + [] == a;
    } else if s == High {
      assert [] + b + [] + [] == b;
    } else if s == Medium {
      assert [] + [] + c + [] == c;
    } else {
      assert [] + [] + [] + d == d;
    }
  }

  lemma FilterOfBuckets(a: seq<Finding>, b: seq<Finding>, c: seq<Finding>, d: seq<Finding>, s: Severity)
    requires forall k :: 0 <= k < |a| ==> a[k].severity == Critical
    requires forall k :: 0 <= k < |b| ==> b[k].severity == High
    requires forall k :: 0 <= k < |c| ==> c[k].severity == Medium
    requires forall k :: 0 <= k < |d| ==> d[k].severity == Low
    ensures Filter(a + b + c + d, s)
            == (if s == Critical then a else []) + (if s == High then b else [])
               + (if s == Medium then c else []) + (if s == Low then d else [])
  {
    FilterConcat(a + b + c, d, s);
    FilterConcat(a + b, c, s);
    FilterConcat(a, b, s);
    FilterUniform(a, Critical, s);
    FilterUniform(b, High, s);
    FilterUniform(c, Medium, s);
    FilterUniform(d, Low, s);
  }

  /** A sorted list is the concatenation of its severity classes. */
  lemma {:induction false} SortedIsBuckets(r: seq<Finding>)
    requires Sorted(r)
    ensures r == SortByRank(r)
  {
    if r != [] {
      var rest := r[1..];
      SortedTail(r);
      SortedIsBuckets(rest);
      BucketsCons(r[0], rest);
      assert r == [r[0]] + rest;
    }
  }

  lemma SortedTail(r: seq<Finding>)
    requires Sorted(r) && r != []
    ensures Sorted(r[1..])
    ensures forall k :: 0 <= k < |r| - 1 ==> Rank(r[0].severity) <= Rank(r[1..][k].severity)
  {
    var rest := r[1..];
    assert forall i :: 0 <= i < |rest| ==> rest[i] == r[i + 1];
  }

  /** Putting a finding of the smallest rank in front of a sorted list keeps it the concatenation of its classes. */
  lemma BucketsCons(x: Finding, rest: seq<Finding>)
    requires forall k :: 0 <= k < |rest| ==> Rank(x.severity) <= Rank(rest[k].severity)
    requires rest == SortByRank(rest)
    ensures [x] + rest == SortByRank([x] + rest)
  {
    var a, b, c, d := Filter(rest, Critical), Filter(rest, High), Filter(rest, Medium), Filter(rest, Low);
    var u := x.severity;
    FilterCons(x, rest, Critical);
    FilterCons(x, rest, High);
    FilterCons(x, rest, Medium);
    FilterCons(x, rest, Low);
    if Rank(u) > 0 { FilterUniformAbove(rest, u, Critical); }
    if Rank(u) > 1 { FilterUniformAbove(rest, u, High); }
    if Rank(u) > 2 { FilterUniformAbove(rest, u, Medium); }
    ConsOntoBucket([x], a, b, c, d, Rank(u));
  }

  lemma FilterCons(x: Finding, rest: seq<Finding>, s: Severity)
    ensures Filter([x] + rest, s) == (if x.severity == s then [x] else []) + Filter(rest, s)
  {
    assert ([x] + rest)[1..] == rest;
  }

  /** Prepending to the first non-empty-able bucket `k` of four, when the buckets before it are empty. */
  lemma ConsOntoBucket<T>(m: seq<T>, a: seq<T>, b: seq<T>, c: seq<T>, d: seq<T>, k: nat)
    requires k < 4
    requires k > 0 ==> a == []
    requires k > 1 ==> b == []
    requires k > 2 ==> c == []
    ensures ((if k == 0 then m else []) + a) + ((if k == 1 then m else []) + b)
            + ((if k == 2 then m else []) + c) + ((if k == 3 then m else []) + d)
            == m + (a + b + c + d)
  {
  }

  lemma {:induction false} FilterUniformAbove(fs: seq<Finding>, u: Severity, s: Severity)
    requires forall k :: 0 <= k < |fs| ==> Rank(u) <= Rank(fs[k].severity)
    requires Rank(s) < Rank(u)
    ensures Filter(fs, s) == []
  {
    if fs != [] {
      FilterUniformAbove(fs[1..], u, s);
    }
  }

  /**
   * The stable sort is unique: a sorted list with the same findings of each
   * severity, in the same order, is exactly `SortByRank(fs)`.
   */
  lemma StableSortUnique(fs: seq<Finding>, r: seq<Finding>)
    requires Sorted(r)
    requires forall s :: Filter(r, s) == Filter(fs, s)
    ensures r == SortByRank(fs)
  {
    SortedIsBuckets(r);
  }

  // ------------------------------------------------------------------ report

  /**
   * The report: one finding per result of the first run, sorted stably by rank,
   * and a summary whose per-severity counts are those of the findings and add
   * up to the total.
   */
  lemma ReportProperties(log: Log)
    requires log.runs != []
    ensures var run := log.runs[0];
            var mapped := ToFindings(RuleTable(run.rules), run.results);
            var rep := ParseLog(log);
            && multiset(rep.findings) == multiset(mapped)
            && |rep.findings| == |run.results| == rep.summary.total
            && Sorted(rep.findings)
            && (forall s :: Filter(rep.findings, s) == Filter(mapped, s))
            && rep.summary.critical == |Filter(mapped, Critical)|
            && rep.summary.high == |Filter(mapped, High)|
            && rep.summary.medium == |Filter(mapped, Medium)|
            && rep.summary.low == |Filter(mapped, Low)|
            && rep.summary.critical + rep.summary.high + rep.summary.medium + rep.summary.low == rep.summary.total
  {
    var run := log.runs[0];
    var mapped := ToFindings(RuleTable(run.rules), run.results);
    forall s
      ensures Filter(SortByRank(mapped), s) == Filter(mapped, s)
    {
      SortIsStable(mapped, s);
    }
    SummaryAddsUp(SortByRank(mapped));
  }

  lemma SummaryAddsUp(fs: seq<Finding>)
    ensures var m := Summarize(fs); m.critical + m.high + m.medium + m.low == m.total
  {
    FilterMultiset(fs);
    assert |multiset(fs)| == |fs|;
  }
}
