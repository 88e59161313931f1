/**
 * `runScan` of cloud-run/index.js: the status writes one scan job makes to its
 * Firestore document. The job checks repository access through the GitHub API,
 * clones, detects the language, builds and analyses a CodeQL database and parses
 * the SARIF results; any failure ends it with one `error` write carrying the
 * simplified message, and the workspace is removed on every path. A failed write
 * is swallowed and never changes what the job does next.
 *
 * Each external step is an outcome given in advance (an `Oracle`); whether the
 * n-th write reaches the store is `writeOk(n)`.
 */
module CloudScan {
  import opened Wrappers
  import opened Strings
  import opened ScanError
  import Language
  import Sarif
  import opened ScanRecord

  /** The access check's view of the GitHub API: a status and the `private` flag of the body, or a thrown error. */
  datatype Access = Response(status: int, isPrivate: bool) | FetchThrew(message: string)

  datatype Oracle = Oracle(
    mkdir: Step,
    access: Access,
    clone: Exec,
    tree: Language.Node,
    createDb: Exec,
    analyze: Exec,
    sarif: SarifFile)

  const CheckingStep: string := "Checking repository access..."

  const Private1: string := "Private repositories "
  const Private2: string := "are not supported."
  const PrivateMessage: string := Private1 + Private2
  const RepositoryMissing: string := "Repository not found."

  /** The error the access check throws inside its own `try`, if any: private and missing repositories stop the job. */
  function AccessThrows(a: Access): Option<string> {
    match a
    case FetchThrew(m) => Some(m)
    case Response(status, isPrivate) =>
      if status == 200 && isPrivate then Some(PrivateMessage)
      else if status == 404 then Some(RepositoryMissing)
      else None
  }

  /** The access check: its own `catch` rethrows the error with the simplified message; every other answer lets the job go on. */
  function AccessCheck(a: Access): (r: Step)
    ensures r.Threw? <==> a.FetchThrew? || (a.Response? && ((a.status == 200 && a.isPrivate) || a.status == 404))
    ensures r.Threw? ==> r.message != "" && '\n' !in r.message
  {
    match AccessThrows(a)
    case Some(m) => Threw(FriendlyScanError(m))
    case None => Ok
  }

  /** The progress writes of a job that runs to the end, in order. */
  function Progress(lang: string): seq<Fields> {
    [StatusStep(Cloning, CheckingStep), StatusStep(Cloning, CloningStep), StatusStep(Detecting, DetectingStep),
     LanguageField(lang), StatusStep(CreatingDb, BuildingStep), StatusStep(Analyzing, AnalyzingStep),
     StatusStep(Parsing, ParsingStep)]
  }

  /** The message of the error the job's `try` block throws, if any, before the `catch` simplifies it. */
  function Thrown(o: Oracle): Option<string> {
    if o.mkdir.Threw? then Some(o.mkdir.message)
    else
      match AccessCheck(o.access)
      case Threw(m) => Some(m)
      case Ok =>
        if o.clone.ExecFailed? then Some(ExecMessage(o.clone.stderr, o.clone.message))
        else if o.createDb.ExecFailed? then Some(ExecMessage(o.createDb.stderr, o.createDb.message))
        else if o.analyze.ExecFailed? then Some(ExecMessage(o.analyze.stderr, o.analyze.message))
        else
          match o.sarif
          case Unreadable(m) => Some(m)
          case Parsed(_) => None
  }

  /** How many progress writes the job makes before it throws or completes. */
  function Reached(o: Oracle): nat {
    if o.mkdir.Threw? then 0
    else if AccessCheck(o.access).Threw? then 1
    else if o.clone.ExecFailed? then 2
    else if o.createDb.ExecFailed? then 5
    else if o.analyze.ExecFailed? then 6
    else 7
  }

  /** The write that ends the job: the simplified error, or the report with the completion time. */
  function Final(o: Oracle): Fields {
    match Thrown(o)
    case Some(m) => Failed(FriendlyScanError(m))
    case None => Completed(Sarif.ParseLog(o.sarif.log), Some(ServerTimestamp))
  }

  /**
   * The writes `runScan` attempts, in order: a prefix of the progress writes, then one
   * terminal write, which is the completion exactly when nothing threw.
   */
  function Writes(o: Oracle): (ws: seq<Fields>)
    ensures 1 <= |ws| <= |Progress(Language.Detect(o.tree))| + 1
    ensures ws[..|ws| - 1] == Progress(Language.Detect(o.tree))[..|ws| - 1]
    ensures Terminal(ws[|ws| - 1]) && (ws[|ws| - 1].status == Some(Complete) <==> Thrown(o).None?)
  {
    Progress(Language.Detect(o.tree))[..Reached(o)] + [Final(o)]
  }

  /** Every step succeeds and every check passes. */
  predicate Succeeds(o: Oracle) {
    o.mkdir.Ok? && AccessCheck(o.access).Ok? && o.clone.Done? && o.createDb.Done? && o.analyze.Done? && o.sarif.Parsed?
  }

  /** `docRef.update(fields)`: applied when the write goes through and the document exists; a failure is swallowed. */
  function UpdateDoc(docs: map<string, Fields>, id: string, f: Fields, ok: bool): map<string, Fields> {
    if ok && id in docs then docs[id := Merge(docs[id], f)] else docs
  }

  /** The documents after the writes `ws` to `id`, the n-th of which goes through when `writeOk(n)`. */
  function Apply(docs: map<string, Fields>, id: string, ws: seq<Fields>, writeOk: nat -> bool): map<string, Fields> {
    if ws == [] then docs
    else UpdateDoc(Apply(docs, id, ws[..|ws| - 1], writeOk), id, ws[|ws| - 1], writeOk(|ws| - 1))
  }

  /** The `scans` collection. */
  class Firestore {
    var docs: map<string, Fields>

    constructor (initial: map<string, Fields>)
      ensures docs == initial
    {
      docs := initial;
    }

    /** `updateStatus(fields)`, recording the attempt in `done`. */
    method UpdateStatus(id: string, f: Fields, writeOk: nat -> bool, ghost start: map<string, Fields>, done: seq<Fields>)
      returns (done': seq<Fields>)
      requires docs == Apply(start, id, done, writeOk)
      modifies this
      ensures done' == done + [f]
      ensures docs == Apply(start, id, done', writeOk)
    {
      docs := UpdateDoc(docs, id, f, writeOk(|done|));
      done' := done + [f];
      assert done'[..|done|] == done;
    }

    /** `runScan(scanId, parsed)`: the writes it attempts, and whether the workspace was removed. */
    method RunScan(id: string, o: Oracle, writeOk: nat -> bool) returns (attempted: seq<Fields>, removed: bool)
      modifies this
      ensures attempted == Writes(o)
      ensures docs == Apply(old(docs), id, attempted, writeOk)
      ensures removed
    {
      ghost var start := docs;
      ghost var p := Progress(Language.Detect(o.tree));
      attempted := [];
      var failure: Option<string> := None;
      if o.mkdir.Threw? {
        failure := Some(o.mkdir.message);
        assert attempted == p[..Reached(o)] && failure == Thrown(o);
      } else {
        attempted := UpdateStatus(id, StatusStep(Cloning, CheckingStep), writeOk, start, attempted);
        var access := AccessCheck(o.access);
        if access.Threw? {
          failure := Some(access.message);
          assert attempted == p[..Reached(o)] && failure == Thrown(o);
        } else {
          attempted, failure := Pipeline(id, o, writeOk, start, attempted);
        }
      }
      if failure.Some? {
        attempted := UpdateStatus(id, Failed(FriendlyScanError(failure.value)), writeOk, start, attempted);
      }
      removed := true;
    }
    /** What follows a passed access check: clone, detect, build, analyse, parse; `failure` is the message thrown, if any. */
    method Pipeline(id: string, o: Oracle, writeOk: nat -> bool, ghost start: map<string, Fields>, done: seq<Fields>)
      returns (done': seq<Fields>, failure: Option<string>)
      requires o.mkdir.Ok? && AccessCheck(o.access).Ok?
      requires done == [StatusStep(Cloning, CheckingStep)] && docs == Apply(start, id, done, writeOk)
      modifies this
      ensures docs == Apply(start, id, done', writeOk)
      ensures failure.None? ==> done' == Writes(o)
      ensures failure.Some? ==> done' + [Failed(FriendlyScanError(failure.value))] == Writes(o)
    {
      failure := None;
      done' := UpdateStatus(id, StatusStep(Cloning, CloningStep), writeOk, start, done);
      if o.clone.ExecFailed? {
        failure := Some(ExecMessage(o.clone.stderr, o.clone.message));
        return;
      }
      done' := UpdateStatus(id, StatusStep(Detecting, DetectingStep), writeOk, start, done');
      var lang := Language.DetectLanguage(o.tree);
      done' := UpdateStatus(id, LanguageField(lang), writeOk, start, done');
      done' := UpdateStatus(id, StatusStep(CreatingDb, BuildingStep), writeOk, start, done');
      done', failure := Analysis(id, o, writeOk, start, done');
    }

    /** From the database build on: build, analyse, parse. */
    method Analysis(id: string, o: Oracle, writeOk: nat -> bool, ghost start: map<string, Fields>, done: seq<Fields>)
      returns (done': seq<Fields>, failure: Option<string>)
      requires o.mkdir.Ok? && AccessCheck(o.access).Ok? && o.clone.Done?
      requires done == Progress(Language.Detect(o.tree))[..5] && docs == Apply(start, id, done, writeOk)
      modifies this
      ensures docs == Apply(start, id, done', writeOk)
      ensures failure.None? ==> done' == Writes(o)
      ensures failure.Some? ==> done' + [Failed(FriendlyScanError(failure.value))] == Writes(o)
    {
      AnalysisWrites(o);
      ghost var p := Progress(Language.Detect(o.tree));
      failure := None;
      done' := done;
      if o.createDb.ExecFailed? {
        failure := Some(ExecMessage(o.createDb.stderr, o.createDb.message));
        return;
      }
      done' := UpdateStatus(id, StatusStep(Analyzing, AnalyzingStep), writeOk, start, done');
      assert done' == p[..6];
      if o.analyze.ExecFailed? {
        failure := Some(ExecMessage(o.analyze.stderr, o.analyze.message));
        return;
      }
      done' := UpdateStatus(id, StatusStep(Parsing, ParsingStep), writeOk, start, done');
      assert done' == p;
      match o.sarif {
        case Unreadable(m) =>
          failure := Some(m);
        case Parsed(log) =>
          var results := Sarif.ParseSarif(log);
          done' := UpdateStatus(id, Completed(results, Some(ServerTimestamp)), writeOk, start, done');
      }
    }
  }

  /** The writes of a job that got past the clone, by how the rest of it ends. */
  lemma AnalysisWrites(o: Oracle)
    requires o.mkdir.Ok? && AccessCheck(o.access).Ok? && o.clone.Done?
    ensures var p := Progress(Language.Detect(o.tree));
      if o.createDb.ExecFailed? then
        Writes(o) == p[..5] + [Failed(FriendlyScanError(ExecMessage(o.createDb.stderr, o.createDb.message)))]
      else if o.analyze.ExecFailed? then
        Writes(o) == p[..6] + [Failed(FriendlyScanError(ExecMessage(o.analyze.stderr, o.analyze.message)))]
      else if o.sarif.Unreadable? then Writes(o) == p + [Failed(FriendlyScanError(o.sarif.message))]
      else Writes(o) == p + [Completed(Sarif.ParseLog(o.sarif.log), Some(ServerTimestamp))]
  {
    assert Progress(Language.Detect(o.tree))[..7] == Progress(Language.Detect(o.tree));
  }

  // ------------------------------------------------------------ properties

  lemma ProgressForward(lang: string)
    ensures Forward(Progress(lang))
    ensures forall i :: 0 <= i < |Progress(lang)| ==> InProgress(Progress(lang)[i])
  {
  }

  /**
   * Every job writes a proper trace: statuses cloning, cloning, detecting,
   * creating_db, analyzing, parsing in that order as far as it gets, then exactly
   * one `complete` or `error` write, which is the last.
   */
  lemma TraceIsProper(o: Oracle)
    ensures ProperTrace(Writes(o))
    ensures exists k :: 0 <= k <= 7 && Writes(o)[..|Writes(o)| - 1] == Progress(Language.Detect(o.tree))[..k]
  {
    var p := Progress(Language.Detect(o.tree));
    ProgressForward(Language.Detect(o.tree));
    var ws := Writes(o);
    var t := ws[|ws| - 1];
    var k := |ws| - 1;
    assert ws == p[..k] + [t];
    assert Closing(t);
    CloseTrace(p, k, t);
    assert ws[..k] == p[..k];
  }

  /** The job completes exactly when every step succeeds; it then writes the full sequence. */
  lemma CompletesIffAllSucceed(o: Oracle)
    ensures Writes(o)[|Writes(o)| - 1].status == Some(Complete) <==> Succeeds(o)
    ensures Succeeds(o) ==>
      Writes(o) == Progress(Language.Detect(o.tree)) + [Completed(Sarif.ParseLog(o.sarif.log), Some(ServerTimestamp))]
  {
  }

  /** A failed job's error is the simplified message: non-empty and on one line. */
  lemma ErrorIsSimplified(o: Oracle)
    requires !Succeeds(o)
    ensures var t := Writes(o)[|Writes(o)| - 1];
      t.status == Some(Error) && t.error.Some? && t.error.value != "" && '\n' !in t.error.value
      && t.completedAt.None? && t.results.None?
  {
  }

  lemma PrivateMessageLacks()
    ensures Lacks(PrivateMessage, "\n'mMfF")
  {
    var cs := "\n'mMfF";
    assert Lacks(Private1, cs);
    assert Lacks(Private2, cs);
    LacksConcat(Private1, Private2, cs);
  }

  /** The private-repository message passes through the simplifier unchanged. */
  lemma PrivateMessageIsFixedPoint()
    ensures FriendlyScanError(PrivateMessage) == PrivateMessage
  {
    PrivateMessageLacks();
    assert IsTrimmed(PrivateMessage);
    PlainMessageIsFixedPoint(PrivateMessage);
  }

  /** "Repository not found." simplifies to the canned not-found message. */
  lemma MissingRepositoryMessage()
    ensures FriendlyScanError(RepositoryMissing) == NotFoundMessage
  {
    assert Lacks(RepositoryMissing, "'mM");
    UsernamePromptChars(); PromptsDisabledChars(); NotFoundChars();
    AbsentCharRefutes(RepositoryMissing, UsernamePrompt, 28);
    AbsentCharRefutes(RepositoryMissing, PromptsDisabled, 3);
    assert MatchesAt(RepositoryMissing, NotFound, 11);
  }

  /**
   * The access check: a private repository or a 404 stops the job with the
   * matching message, simplified twice without change; a thrown request error is
   * simplified twice; any other answer (403 among them) goes on to the clone.
   */
  lemma AccessBranches(o: Oracle)
    requires o.mkdir.Ok?
    ensures o.access == Response(200, true) ==>
      Writes(o) == [StatusStep(Cloning, CheckingStep), Failed(PrivateMessage)]
    ensures o.access.Response? && o.access.status == 404 ==>
      Writes(o) == [StatusStep(Cloning, CheckingStep), Failed(NotFoundMessage)]
    ensures o.access.FetchThrew? ==>
      Writes(o) == [StatusStep(Cloning, CheckingStep), Failed(FriendlyScanError(FriendlyScanError(o.access.message)))]
    ensures o.access.Response? && o.access.status != 404 && !(o.access.status == 200 && o.access.isPrivate) ==>
      |Writes(o)| >= 3 && Writes(o)[1] == StatusStep(Cloning, CloningStep)
  {
    match o.access
    case FetchThrew(m) =>
      AccessStops(o, m);
    case Response(status, isPrivate) =>
      if status == 200 && isPrivate {
        PrivateStops(o);
      } else if status == 404 {
        MissingStops(o);
      } else {
        AccessPasses(o);
      }
  }

  /** An error in the access check ends the job after its first write, with the message simplified twice. */
  lemma AccessStops(o: Oracle, m: string)
    requires o.mkdir.Ok? && AccessThrows(o.access) == Some(m)
    ensures Writes(o) == [StatusStep(Cloning, CheckingStep), Failed(FriendlyScanError(FriendlyScanError(m)))]
  {
    assert AccessCheck(o.access) == Threw(FriendlyScanError(m));
    assert Thrown(o) == Some(FriendlyScanError(m)) && Reached(o) == 1;
    assert Final(o) == Failed(FriendlyScanError(FriendlyScanError(m)));
    var p := Progress(Language.Detect(o.tree));
    assert p[..1] == [StatusStep(Cloning, CheckingStep)];
  }

  lemma PrivateStops(o: Oracle)
    requires o.mkdir.Ok? && o.access == Response(200, true)
    ensures Writes(o) == [StatusStep(Cloning, CheckingStep), Failed(PrivateMessage)]
  {
    AccessStops(o, PrivateMessage);
    PrivateMessageIsFixedPoint();
  }

  lemma MissingStops(o: Oracle)
    requires o.mkdir.Ok? && o.access.Response? && o.access.status == 404
    ensures Writes(o) == [StatusStep(Cloning, CheckingStep), Failed(NotFoundMessage)]
  {
    AccessStops(o, RepositoryMissing);
    MissingRepositoryMessage();
    NotFoundMessageIsFixedPoint();
  }

  lemma AccessPasses(o: Oracle)
    requires o.mkdir.Ok? && o.access.Response? && o.access.status != 404
    requires !(o.access.status == 200 && o.access.isPrivate)
    ensures |Writes(o)| >= 3 && Writes(o)[1] == StatusStep(Cloning, CloningStep)
  {
    assert AccessThrows(o.access) == None;
    assert Reached(o) >= 2;
    var p := Progress(Language.Detect(o.tree));
    assert Writes(o)[1] == p[1];
  }

  // ---------------------------------------------------------------- store

  /** Only the job's own document can change, and no document appears or disappears. */
  lemma {:induction false} OtherDocsUnchanged(docs: map<string, Fields>, id: string, ws: seq<Fields>, writeOk: nat -> bool)
    ensures Apply(docs, id, ws, writeOk).Keys == docs.Keys
    ensures forall k :: k in docs && k != id ==> Apply(docs, id, ws, writeOk)[k] == docs[k]
  {
    if ws != [] {
      OtherDocsUnchanged(docs, id, ws[..|ws| - 1], writeOk);
    }
  }

  /** The writes that went through. */
  function Accepted(ws: seq<Fields>, writeOk: nat -> bool): seq<Fields> {
    if ws == [] then []
    else Accepted(ws[..|ws| - 1], writeOk) + if writeOk(|ws| - 1) then [ws[|ws| - 1]] else []
  }

  /** The job's document ends as its record with the accepted writes merged in, in order. */
  lemma {:induction false} DocIsReplayOfAccepted(docs: map<string, Fields>, id: string, ws: seq<Fields>, writeOk: nat -> bool)
    requires id in docs
    ensures id in Apply(docs, id, ws, writeOk)
    ensures Apply(docs, id, ws, writeOk)[id] == Replay(docs[id], Accepted(ws, writeOk))
  {
    if ws != [] {
      var p := ws[..|ws| - 1];
      DocIsReplayOfAccepted(docs, id, p, writeOk);
      var a := Accepted(p, writeOk);
      if writeOk(|ws| - 1) {
        assert (a + [ws[|ws| - 1]])[..|a|] == a;
      } else {
        assert a + [] == a;
      }
    }
  }

  /** When every write goes through, a failed job's document shows the error and no completion time. */
  lemma FailedJobDocument(docs: map<string, Fields>, id: string, o: Oracle, writeOk: nat -> bool)
    requires id in docs && docs[id].completedAt.None? && !Succeeds(o)
    requires forall n :: writeOk(n)
    ensures id in Apply(docs, id, Writes(o), writeOk)
    ensures var d := Apply(docs, id, Writes(o), writeOk)[id];
      d.status == Some(Error) && d.completedAt.None? && d.error == Writes(o)[|Writes(o)| - 1].error
  {
    var ws := Writes(o);
    AllAccepted(ws, writeOk);
    DocIsReplayOfAccepted(docs, id, ws, writeOk);
    TraceIsProper(o);
    ErrorIsSimplified(o);
    ReplayEndsTerminal(docs[id], ws);
  }

  lemma {:induction false} AllAccepted(ws: seq<Fields>, writeOk: nat -> bool)
    requires forall n :: writeOk(n)
    ensures Accepted(ws, writeOk) == ws
  {
    if ws != [] {
      AllAccepted(ws[..|ws| - 1], writeOk);
    }
  }
}
