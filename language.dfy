/**
 * `detectLanguage` (cloud-run/index.js, with an identical copy in server.js): a
 * walk over the cloned repository that counts, per language of a fixed table, the
 * files whose extension the table lists, and picks the language with the most
 * files. Hidden entries and three dependency folders are skipped, folders deeper
 * than eight levels are not read, and folders that cannot be read add nothing.
 */
module Language {
  import opened Wrappers
  import opened Strings

  /** A directory entry: a file, a folder, or a folder that cannot be listed. */
  datatype Node = File(name: string) | Dir(name: string, children: seq<Node>) | Unreadable(name: string)

  /** The `counts` object: counts per language, and the order in which its keys were added. */
  datatype Tally = Tally(counts: map<string, nat>, order: seq<string>)

  const Empty: Tally := Tally(map[], [])

  const MaxDepth: nat := 8
  const DefaultLanguage: string := "javascript"

  /** `langMap`, in its declaration order. */
  const Table: seq<(string, seq<string>)> := [
    ("javascript", [".js", ".jsx", ".ts", ".tsx", ".mjs", ".cjs"]),
    ("python", [".py"]),
    ("java", [".java"]),
    ("csharp", [".cs"]),
    ("go", [".go"]),
    ("ruby", [".rb"]),
    ("cpp", [".cpp", ".c", ".cc", ".h", ".hpp"]),
    ("swift", [".swift"])
  ]

  predicate IsLanguage(lang: string) {
    exists i :: 0 <= i < |Table| && Table[i].0 == lang
  }

  lemma TableShape()
    ensures |Table| == 8 && Table[0].0 == DefaultLanguage
  {
  }

  lemma TableNamesDistinct()
    ensures forall i, j :: 0 <= i < j < |Table| ==> Table[i].0 != Table[j].0
  {
  }

  /** Entries the walk passes over: hidden names and three dependency folders. */
  predicate Skipped(name: string) {
    (|name| > 0 && name[0] == '.') || name == "node_modules" || name == "vendor" || name == "__pycache__"
  }

  /** The last position of `c` in `s`. */
  function LastIndexOf(s: string, c: char): (r: Option<nat>)
    ensures r.Some? ==> r.value < |s| && s[r.value] == c && c !in s[r.value + 1..]
    ensures r.None? ==> c !in s
  {
    if s == [] then None
    else if s[|s| - 1] == c then Some(|s| - 1)
    else
      var r := LastIndexOf(s[..|s| - 1], c);
      if r.Some? then
        assert s[r.value + 1..] == s[..|s| - 1][r.value + 1..] + [s[|s| - 1]];
        r
      else
        assert s == s[..|s| - 1] + [s[|s| - 1]];
        r
  }

  /** `path.extname(name)`: from the last '.' to the end, or "" when there is no dot or it starts the name. */
  function ExtName(name: string): (ext: string)
    ensures ext == [] || (ext[0] == '.' && '.' !in ext[1..] && EndsWith(name, ext) && |ext| < |name|)
    ensures '.' in name && name[0] != '.' ==> ext != []
  {
    match LastIndexOf(name, '.')
    case None => ""
    case Some(i) =>
      if i == 0 then ""
      else
        assert name[i..][1..] == name[i + 1..];
        name[i..]
  }

  /** The case-folded extension the table is searched for. */
  function FileExt(name: string): string {
    LowerStr(ExtName(name))
  }

  function Get(m: map<string, nat>, k: string): nat {
    if k in m then m[k] else 0
  }

  /** `counts[lang] = (counts[lang] || 0) + 1`: a new key goes to the end of the key order. */
  /** `u` extends `t`: no count is lost or lowered, and the key order is only appended to. */
  predicate Grows(t: Tally, u: Tally) {
    (forall k :: k in t.counts ==> k in u.counts && t.counts[k] <= u.counts[k])
    && |t.order| <= |u.order| && (forall i :: 0 <= i < |t.order| ==> u.order[i] == t.order[i])
  }

  function Bump(t: Tally, lang: string): (u: Tally)
    ensures Grows(t, u)
  {
    Tally(t.counts[lang := Get(t.counts, lang) + 1], if lang in t.counts then t.order else t.order + [lang])
  }

  /** The loop over `Object.entries(langMap)` for one file, after the first `n` table rows. */
  function CountRows(t: Tally, ext: string, n: nat): (u: Tally)
    requires n <= |Table|
    ensures Grows(t, u)
  {
    if n == 0 then t
    else
      var t' := CountRows(t, ext, n - 1);
      if ext in Table[n - 1].1 then Bump(t', Table[n - 1].0) else t'
  }

  /** What one counted file does to the tally. */
  function CountFile(t: Tally, name: string): (u: Tally)
    ensures Grows(t, u)
  {
    CountRows(t, FileExt(name), |Table|)
  }

  function Size(n: Node): (s: nat)
    ensures s >= 1
    decreases n
  {
    match n
    case Dir(_, ch) => 1 + SizeSeq(ch)
    case _ => 1
  }

  function SizeSeq(ch: seq<Node>): nat
    decreases ch
  {
    if ch == [] then 0 else SizeSeq(ch[..|ch| - 1]) + Size(ch[|ch| - 1])
  }

  /** `walk(dir, depth)`: nothing happens below depth 8, or where listing the folder throws. */
  function Walk(t: Tally, dir: Node, depth: nat): (u: Tally)
    ensures Grows(t, u)
    decreases Size(dir), 0
  {
    if depth > MaxDepth then t
    else
      match dir
      case Dir(_, ch) => Entries(t, ch, depth)
      case _ => t
  }

  /** The `for` loop of `walk` over the entries `ch` of a folder at `depth`. */
  function Entries(t: Tally, ch: seq<Node>, depth: nat): (u: Tally)
    ensures Grows(t, u)
    decreases SizeSeq(ch), 2
  {
    if ch == [] then t
    else Entry(Entries(t, ch[..|ch| - 1], depth), ch[|ch| - 1], depth)
  }

  /** One pass of that loop: the entry `e` of a folder at `depth`. */
  function Entry(t: Tally, e: Node, depth: nat): (u: Tally)
    ensures Grows(t, u)
    decreases Size(e), 1
  {
    if Skipped(e.name) then t
    else
      match e
      case File(name) => CountFile(t, name)
      case _ => Walk(t, e, depth + 1)
  }

  /** The index `sorted[0]` comes from: the first key, in key order, with the largest count. */
  function BestIndex(t: Tally, n: nat): (b: nat)
    requires 1 <= n <= |t.order|
    ensures b < n
    ensures forall j :: 0 <= j < n ==> Get(t.counts, t.order[j]) <= Get(t.counts, t.order[b])
    ensures forall j :: 0 <= j < b ==> Get(t.counts, t.order[j]) < Get(t.counts, t.order[b])
  {
    if n == 1 then 0
    else
      var b := BestIndex(t, n - 1);
      if Get(t.counts, t.order[n - 1]) > Get(t.counts, t.order[b]) then n - 1 else b
  }

  /**
   * `sorted.length > 0 ? sorted[0][0] : 'javascript'`: the entries sorted stably by
   * descending count start with the first key that has the largest count.
   */
  function Leader(t: Tally): string {
    if t.order == [] then DefaultLanguage else t.order[BestIndex(t, |t.order|)]
  }

  /** `detectLanguage(repoDir)`: always one of the table's languages. */
  function Detect(root: Node): (lang: string)
    ensures IsLanguage(lang)
  {
    var t := Walk(Empty, root, 0);
    WalkValid(Empty, root, 0);
    LeaderIsLanguage(t);
    Leader(t)
  }

  /** The `counts` object and the walk that fills it. */
  class Counter {
    var counts: map<string, nat>
    var order: seq<string>

    function State(): Tally
      reads this
    {
      Tally(counts, order)
    }

    constructor ()
      ensures State() == Empty
    {
      counts := map[];
      order := [];
    }

    method Increment(lang: string)
      modifies this
      ensures State() == Bump(old(State()), lang)
    {
      if lang !in counts {
        order := order + [lang];
      }
      counts := counts[lang := Get(counts, lang) + 1];
    }

    method AddFile(name: string)
      modifies this
      ensures State() == CountFile(old(State()), name)
    {
      var ext := FileExt(name);
      for i := 0 to |Table|
        invariant State() == CountRows(old(State()), ext, i)
      {
        if ext in Table[i].1 {
          Increment(Table[i].0);
        }
      }
    }

    /** `walk(dir, depth)`, one entry at a time. */
    method Visit(dir: Node, depth: nat)
      modifies this
      ensures State() == Walk(old(State()), dir, depth)
      decreases Size(dir), 0
    {
      if depth > MaxDepth {
        return;
      }
      match dir {
        case Dir(_, ch) =>
          for i := 0 to |ch|
            invariant State() == Entries(old(State()), ch[..i], depth)
          {
            assert ch[..i + 1][..i] == ch[..i];
            ElementSmaller(ch, i);
            VisitEntry(ch[i], depth);
          }
          assert ch[..|ch|] == ch;
        case File(_) =>
        case Unreadable(_) =>
      }
    }

    /** One pass of the loop in `walk`. */
    method VisitEntry(e: Node, depth: nat)
      modifies this
      ensures State() == Entry(old(State()), e, depth)
      decreases Size(e), 1
    {
      if Skipped(e.name) {
      } else if e.File? {
        AddFile(e.name);
      } else {
        Visit(e, depth + 1);
      }
    }
  }

  /** `detectLanguage(repoDir)`, run. */
  method DetectLanguage(root: Node) returns (lang: string)
    ensures lang == Detect(root)
  {
    var c := new Counter();
    c.Visit(root, 0);
    lang := Leader(c.State());
  }

  /**
   * What the walk keeps true of `counts`: the keys are exactly the languages of
   * the key order, each listed once, each a table language with a positive count.
   */
  ghost predicate Valid(t: Tally) {
    (forall k :: k in t.counts <==> k in t.order)
    && (forall k :: k in t.counts ==> IsLanguage(k) && t.counts[k] >= 1)
    && (forall i, j :: 0 <= i < j < |t.order| ==> t.order[i] != t.order[j])
  }

  lemma BumpValid(t: Tally, lang: string)
    requires Valid(t) && IsLanguage(lang)
    ensures Valid(Bump(t, lang))
  {
  }

  lemma {:induction false} CountRowsValid(t: Tally, ext: string, n: nat)
    requires Valid(t) && n <= |Table|
    ensures Valid(CountRows(t, ext, n))
  {
    if n > 0 {
      CountRowsValid(t, ext, n - 1);
      if ext in Table[n - 1].1 {
        BumpValid(CountRows(t, ext, n - 1), Table[n - 1].0);
      }
    }
  }

  lemma {:induction false} WalkValid(t: Tally, dir: Node, depth: nat)
    requires Valid(t)
    ensures Valid(Walk(t, dir, depth))
    decreases Size(dir), 0
  {
    if depth <= MaxDepth && dir.Dir? {
      EntriesValid(t, dir.children, depth);
    }
  }

  lemma {:induction false} EntriesValid(t: Tally, ch: seq<Node>, depth: nat)
    requires Valid(t)
    ensures Valid(Entries(t, ch, depth))
    decreases SizeSeq(ch), 1
  {
    if ch != [] {
      var p := ch[..|ch| - 1];
      var e := ch[|ch| - 1];
      EntriesValid(t, p, depth);
      var t' := Entries(t, p, depth);
      if !Skipped(e.name) {
        if e.File? {
          CountRowsValid(t', FileExt(e.name), |Table|);
        } else {
          WalkValid(t', e, depth + 1);
        }
      }
    }
  }

  lemma LeaderIsLanguage(t: Tally)
    requires Valid(t)
    ensures IsLanguage(Leader(t))
  {
    if t.order == [] {
      TableShape();
    } else {
      var b := BestIndex(t, |t.order|);
      assert t.order[b] in t.counts;
    }
  }

  /**
   * The detected language is a table language. With nothing counted it is
   * `javascript`; otherwise it has the largest count, and every language counted
   * before it for the first time has a strictly smaller one (ties go to the
   * language met first).
   */
  lemma DetectResult(root: Node)
    ensures IsLanguage(Detect(root))
    ensures var t := Walk(Empty, root, 0);
      (t.counts == map[] ==> Detect(root) == DefaultLanguage)
      && (t.counts != map[] ==>
            exists b :: 0 <= b < |t.order| && t.order[b] == Detect(root) && Detect(root) in t.counts
              && (forall k :: k in t.counts ==> t.counts[k] <= t.counts[Detect(root)])
              && (forall j :: 0 <= j < b ==> t.order[j] in t.counts && t.counts[t.order[j]] < t.counts[Detect(root)]))
  {
    WalkValid(Empty, root, 0);
    LeaderIsMost(Walk(Empty, root, 0));
  }

  /** The leader of a valid tally: the default when it is empty, else the first key with the largest count. */
  lemma LeaderIsMost(t: Tally)
    requires Valid(t)
    ensures (t.counts == map[] ==> Leader(t) == DefaultLanguage)
      && (t.counts != map[] ==>
            exists b :: 0 <= b < |t.order| && t.order[b] == Leader(t) && Leader(t) in t.counts
              && (forall k :: k in t.counts ==> t.counts[k] <= t.counts[Leader(t)])
              && (forall j :: 0 <= j < b ==> t.order[j] in t.counts && t.counts[t.order[j]] < t.counts[Leader(t)]))
  {
    if t.order != [] {
      assert t.order[0] in t.counts;
      var b := BestIndex(t, |t.order|);
      assert t.order[b] in t.counts;
      forall k | k in t.counts
        ensures t.counts[k] <= t.counts[t.order[b]]
      {
        var j :| 0 <= j < |t.order| && t.order[j] == k;
      }
      forall j | 0 <= j < b
        ensures t.counts[t.order[j]] < t.counts[t.order[b]]
      {
        assert t.order[j] in t.counts;
      }
    }
  }

  /** The files the walk counts, in the order it meets them. */
  function Files(dir: Node, depth: nat): seq<string>
    decreases Size(dir), 0
  {
    if depth > MaxDepth then []
    else
      match dir
      case Dir(_, ch) => FilesIn(ch, depth)
      case _ => []
  }

  function FilesIn(ch: seq<Node>, depth: nat): seq<string>
    decreases SizeSeq(ch), 1
  {
    if ch == [] then []
    else
      var e := ch[|ch| - 1];
      FilesIn(ch[..|ch| - 1], depth)
        + if Skipped(e.name) then []
          else match e
            case File(name) => [name]
            case _ => Files(e, depth + 1)
  }

  /** Counting the files `names`, one after the other. */
  function CountAll(t: Tally, names: seq<string>): Tally {
    if names == [] then t else CountFile(CountAll(t, names[..|names| - 1]), names[|names| - 1])
  }

  lemma {:induction false} CountAllConcat(t: Tally, a: seq<string>, b: seq<string>)
    ensures CountAll(t, a + b) == CountAll(CountAll(t, a), b)
  {
    if b == [] {
      assert a + b == a;
    } else {
      assert (a + b)[..|a + b| - 1] == a + b[..|b| - 1];
      CountAllConcat(t, a, b[..|b| - 1]);
    }
  }

  /** The walk is the same as counting the list of files it reaches, in order. */
  lemma {:induction false} WalkIsFold(t: Tally, dir: Node, depth: nat)
    ensures Walk(t, dir, depth) == CountAll(t, Files(dir, depth))
    decreases Size(dir), 0
  {
    if depth <= MaxDepth && dir.Dir? {
      EntriesIsFold(t, dir.children, depth);
    }
  }

  lemma {:induction false} EntriesIsFold(t: Tally, ch: seq<Node>, depth: nat)
    ensures Entries(t, ch, depth) == CountAll(t, FilesIn(ch, depth))
    decreases SizeSeq(ch), 1
  {
    if ch != [] {
      var p := ch[..|ch| - 1];
      var e := ch[|ch| - 1];
      var fp := FilesIn(p, depth);
      EntriesIsFold(t, p, depth);
      if Skipped(e.name) {
        assert FilesIn(ch, depth) == fp + [];
        assert fp + [] == fp;
      } else if e.File? {
        assert FilesIn(ch, depth) == fp + [e.name];
        assert (fp + [e.name])[..|fp|] == fp;
      } else {
        WalkIsFold(Entries(t, p, depth), e, depth + 1);
        CountAllConcat(t, fp, Files(e, depth + 1));
      }
    }
  }

  /** How many of `names` have, case-folded, an extension among `exts`. */
  function Matching(names: seq<string>, exts: seq<string>): nat {
    if names == [] then 0
    else Matching(names[..|names| - 1], exts) + if FileExt(names[|names| - 1]) in exts then 1 else 0
  }

  lemma {:induction false} CountRowsGet(t: Tally, ext: string, n: nat, i: nat)
    requires n <= |Table| && i < |Table|
    ensures Get(CountRows(t, ext, n).counts, Table[i].0)
            == Get(t.counts, Table[i].0) + if i < n && ext in Table[i].1 then 1 else 0
  {
    if n > 0 {
      CountRowsGet(t, ext, n - 1, i);
      TableNamesDistinct();
    }
  }

  lemma {:induction false} CountAllGet(t: Tally, names: seq<string>, i: nat)
    requires i < |Table|
    ensures Get(CountAll(t, names).counts, Table[i].0) == Get(t.counts, Table[i].0) + Matching(names, Table[i].1)
  {
    if names != [] {
      var p := names[..|names| - 1];
      CountAllGet(t, p, i);
      CountRowsGet(CountAll(t, p), FileExt(names[|names| - 1]), |Table|, i);
    }
  }

  /**
   * The count the walk ends with for a table language is the number of reached
   * files whose case-folded extension that language lists.
   */
  lemma DetectCounts(root: Node, i: nat)
    requires i < |Table|
    ensures Get(Walk(Empty, root, 0).counts, Table[i].0) == Matching(Files(root, 0), Table[i].1)
  {
    WalkIsFold(Empty, root, 0);
    CountAllGet(Empty, Files(root, 0), i);
  }

  /** The entries of `ch` the walk does not pass over, in order. */
  function Visible(ch: seq<Node>): (r: seq<Node>)
    ensures forall k :: 0 <= k < |r| ==> !Skipped(r[k].name)
    ensures forall x :: x in r <==> x in ch && !Skipped(x.name)
    ensures |r| <= |ch|
  {
    if ch == [] then []
    else if Skipped(ch[|ch| - 1].name) then Visible(ch[..|ch| - 1])
    else Visible(ch[..|ch| - 1]) + [ch[|ch| - 1]]
  }

  /** Filtering keeps order: the kept entries of two runs of a folder, one after the other. */
  lemma {:induction false} VisibleConcat(a: seq<Node>, b: seq<Node>)
    ensures Visible(a + b) == Visible(a) + Visible(b)
  {
    if b == [] {
      assert a + b == a;
    } else {
      var last := b[|b| - 1];
      assert (a + b)[..|a + b| - 1] == a + b[..|b| - 1];
      assert (a + b)[|a + b| - 1] == last;
      VisibleConcat(a, b[..|b| - 1]);
    }
  }

  /** A folder with no hidden or dependency entries is walked whole. */
  lemma {:induction false} VisibleAll(ch: seq<Node>)
    requires forall k :: 0 <= k < |ch| ==> !Skipped(ch[k].name)
    ensures Visible(ch) == ch
  {
    if ch != [] {
      VisibleAll(ch[..|ch| - 1]);
      assert ch[..|ch| - 1] + [ch[|ch| - 1]] == ch;
    }
  }

  /** Hidden and dependency entries make no difference to the count. */
  lemma {:induction false} SkippedEntriesIgnored(t: Tally, ch: seq<Node>, depth: nat)
    ensures Entries(t, ch, depth) == Entries(t, Visible(ch), depth)
  {
    if ch != [] {
      var p := ch[..|ch| - 1];
      var e := ch[|ch| - 1];
      SkippedEntriesIgnored(t, p, depth);
      if !Skipped(e.name) {
        var v := Visible(p);
        assert (v + [e])[..|v|] == v;
      }
    }
  }

  lemma {:induction false} ElementSmaller(ch: seq<Node>, i: nat)
    requires i < |ch|
    ensures Size(ch[i]) <= SizeSeq(ch)
    decreases |ch|
  {
    if i < |ch| - 1 {
      ElementSmaller(ch[..|ch| - 1], i);
    }
  }
}
