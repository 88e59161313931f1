/**
 * The scan service of server.js: scan records live in an in-memory `scans` map.
 * POST validates and normalises the URL and creates the record, `runScan` merges
 * status updates into it, and GET looks it up. Unlike the cloud deployment, a
 * failed job records the raw error message.
 *
 * The id of a new scan and the current time are parameters; each external step of
 * a job is an outcome given in advance (a `Job`).
 */
module ServerScan {
  import opened Wrappers
  import opened Strings
  import ServerUrl
  import Language
  import Sarif
  import opened ScanRecord

  const InvalidUrlMessage: string := "Invalid GitHub URL. Use format: https://github.com/owner/repo"
  const ScanNotFound: string := "Scan not found"

  datatype PostResponse = Accepted(scanId: string) | BadRequest(error: string)
  datatype GetResponse = Found(record: Fields) | NotFound(error: string)

  datatype Job = Job(mkdir: Step, clone: Exec, tree: Language.Node, createDb: Exec, analyze: Exec, sarif: SarifFile)

  /**
   * The record POST stores for a URL `raw` that passed validation: status cloning,
   * started now, a repoUrl that is the front of `raw` and the name after the prefix,
   * and nothing of a finished job yet.
   */
  function NewRecord(raw: string, now: string): (rec: Fields)
    ensures rec.status == Some(Cloning) && rec.startedAt == Some(Iso(now))
    ensures rec.repoUrl.Some? && rec.repoName.Some? && StartsWith(raw, rec.repoUrl.value)
    ensures StartsWith(rec.repoUrl.value, ServerUrl.Prefix) ==>
              rec.repoName.value == rec.repoUrl.value[|ServerUrl.Prefix|..]
    ensures rec.repoUrl == Some(ServerUrl.NormalUrl(raw)) && rec.repoName == Some(ServerUrl.RepoName(ServerUrl.NormalUrl(raw)))
    ensures rec.step.None? && rec.error.None? && rec.completedAt.None? && rec.results.None?
    ensures rec.language.None? && rec.owner.None? && rec.repo.None?
  {
    var repoUrl := ServerUrl.NormalUrl(raw);
    assert StartsWith(repoUrl, ServerUrl.Prefix) ==> ServerUrl.RepoName(repoUrl) == repoUrl[|ServerUrl.Prefix|..] by {
      if StartsWith(repoUrl, ServerUrl.Prefix) {
        ServerUrl.NameAfterLowerPrefix(repoUrl);
      }
    }
    NoFields.(status := Some(Cloning), repoUrl := Some(repoUrl), repoName := Some(ServerUrl.RepoName(repoUrl)),
              startedAt := Some(Iso(now)))
  }

  /** `(req.body.repoUrl || '').trim()`, and whether POST accepts it. */
  function RawUrl(body: Option<string>): string {
    Trim(body.GetOr(""))
  }

  predicate Acceptable(raw: string) {
    raw != "" && ServerUrl.IsValid(raw)
  }

  /** The record of `id`, or the empty object that `{ ...undefined }` spreads to. */
  function Lookup(scans: map<string, Fields>, id: string): Fields {
    if id in scans then scans[id] else NoFields
  }

  /** The progress writes of a job that runs to the end, in order. */
  function Progress(lang: string): seq<Fields> {
    [StatusStep(Cloning, CloningStep), StatusStep(Detecting, DetectingStep), LanguageField(lang),
     StatusStep(CreatingDb, BuildingStep), StatusStep(Analyzing, AnalyzingStep), StatusStep(Parsing, ParsingStep)]
  }

  /** The message of the error the job's `try` block throws, if any. */
  function Thrown(j: Job): Option<string> {
    if j.mkdir.Threw? then Some(j.mkdir.message)
    else if j.clone.ExecFailed? then Some(ExecMessage(j.clone.stderr, j.clone.message))
    else if j.createDb.ExecFailed? then Some(ExecMessage(j.createDb.stderr, j.createDb.message))
    else if j.analyze.ExecFailed? then Some(ExecMessage(j.analyze.stderr, j.analyze.message))
    else
      match j.sarif
      case Unreadable(m) => Some(m)
      case Parsed(_) => None
  }

  /** How many progress writes the job makes before it throws or completes. */
  function Reached(j: Job): nat {
    if j.mkdir.Threw? then 0
    else if j.clone.ExecFailed? then 1
    else if j.createDb.ExecFailed? then 4
    else if j.analyze.ExecFailed? then 5
    else 6
  }

  /** The write that ends the job: the raw error message, or the report with the completion time `now`. */
  function Final(j: Job, now: string): Fields {
    match Thrown(j)
    case Some(m) => Failed(m)
    case None => Completed(Sarif.ParseLog(j.sarif.log), Some(Iso(now)))
  }

  /**
   * The writes `runScan` makes, in order: a prefix of the progress writes, then one
   * terminal write, which is the completion exactly when nothing threw.
   */
  function Writes(j: Job, now: string): (ws: seq<Fields>)
    ensures 1 <= |ws| <= |Progress(Language.Detect(j.tree))| + 1
    ensures ws[..|ws| - 1] == Progress(Language.Detect(j.tree))[..|ws| - 1]
    ensures Terminal(ws[|ws| - 1]) && (ws[|ws| - 1].status == Some(Complete) <==> Thrown(j).None?)
  {
    Progress(Language.Detect(j.tree))[..Reached(j)] + [Final(j, now)]
  }

  predicate Succeeds(j: Job) {
    j.mkdir.Ok? && j.clone.Done? && j.createDb.Done? && j.analyze.Done? && j.sarif.Parsed?
  }

  /** The `scans` map and its handlers. */
  class Registry {
    var scans: map<string, Fields>

    constructor ()
      ensures scans == map[]
    {
      scans := map[];
    }

    /** POST /api/scan with body field `repoUrl`; `scanId` is the fresh id the handler draws. */
    method Post(body: Option<string>, scanId: string, now: string) returns (r: PostResponse)
      modifies this
      ensures !Acceptable(RawUrl(body)) ==> r == BadRequest(InvalidUrlMessage) && scans == old(scans)
      ensures Acceptable(RawUrl(body)) ==>
        r == Accepted(scanId) && scans == old(scans)[scanId := NewRecord(RawUrl(body), now)]
    {
      var raw := Trim(body.GetOr(""));
      if raw == "" || !ServerUrl.IsValid(raw) {
        return BadRequest(InvalidUrlMessage);
      }
      scans := scans[scanId := NewRecord(raw, now)];
      r := Accepted(scanId);
    }

    /** GET /api/scan/:id. */
    method Get(id: string) returns (r: GetResponse)
      ensures id in scans ==> r == Found(scans[id])
      ensures id !in scans ==> r == NotFound(ScanNotFound)
    {
      if id in scans {
        r := Found(scans[id]);
      } else {
        r := NotFound(ScanNotFound);
      }
    }

    /** `updateStatus(fields)` of one job: merges into that scan's record only. */
    method UpdateStatus(id: string, f: Fields)
      modifies this
      ensures scans == old(scans)[id := Merge(Lookup(old(scans), id), f)]
    {
      scans := scans[id := Merge(Lookup(scans, id), f)];
    }

    /** `runScan(scanId, repoUrl)`: the writes it makes, and whether the workspace was removed. */
    method RunScan(id: string, j: Job, now: string) returns (written: seq<Fields>, removed: bool)
      modifies this
      ensures written == Writes(j, now)
      ensures scans == old(scans)[id := Replay(Lookup(old(scans), id), written)]
      ensures removed
    {
      ghost var start := scans;
      written := [];
      var failure: Option<string> := None;
      if j.mkdir.Threw? {
        failure := Some(j.mkdir.message);
      } else {
        written, failure := Pipeline(id, j, now, start);
      }
      if failure.Some? {
        written := Write(id, Failed(failure.value), start, written);
      }
      removed := true;
    }

    /** The job once its workspace exists: clone, detect, and on to the analysis; `failure` is the message thrown, if any. */
    method Pipeline(id: string, j: Job, now: string, ghost start: map<string, Fields>)
      returns (written: seq<Fields>, failure: Option<string>)
      requires j.mkdir.Ok? && scans == start
      modifies this
      ensures written != [] && scans == start[id := Replay(Lookup(start, id), written)]
      ensures failure.None? ==> written == Writes(j, now)
      ensures failure.Some? ==> written + [Failed(failure.value)] == Writes(j, now)
    {
      failure := None;
      ghost var p := Progress(Language.Detect(j.tree));
      written := Write(id, StatusStep(Cloning, CloningStep), start, []);
      assert written == p[..1];
      if j.clone.ExecFailed? {
        failure := Some(ExecMessage(j.clone.stderr, j.clone.message));
        return;
      }
      written := Write(id, StatusStep(Detecting, DetectingStep), start, written);
      var lang := Language.DetectLanguage(j.tree);
      written := Write(id, LanguageField(lang), start, written);
      written := Write(id, StatusStep(CreatingDb, BuildingStep), start, written);
      assert written == p[..4];
      written, failure := Analysis(id, j, now, start, written);
    }

    /** From the database build on: build, analyse, parse. */
    method Analysis(id: string, j: Job, now: string, ghost start: map<string, Fields>, done: seq<Fields>)
      returns (written: seq<Fields>, failure: Option<string>)
      requires j.mkdir.Ok? && j.clone.Done?
      requires done == Progress(Language.Detect(j.tree))[..4] && scans == start[id := Replay(Lookup(start, id), done)]
      modifies this
      ensures written != [] && scans == start[id := Replay(Lookup(start, id), written)]
      ensures failure.None? ==> written == Writes(j, now)
      ensures failure.Some? ==> written + [Failed(failure.value)] == Writes(j, now)
    {
      AnalysisWrites(j, now);
      ghost var p := Progress(Language.Detect(j.tree));
      failure := None;
      written := done;
      if j.createDb.ExecFailed? {
        failure := Some(ExecMessage(j.createDb.stderr, j.createDb.message));
        return;
      }
      written := Write(id, StatusStep(Analyzing, AnalyzingStep), start, written);
      assert written == p[..5];
      if j.analyze.ExecFailed? {
        failure := Some(ExecMessage(j.analyze.stderr, j.analyze.message));
        return;
      }
      written := Write(id, StatusStep(Parsing, ParsingStep), start, written);
      assert written == p;
      match j.sarif {
        case Unreadable(m) =>
          failure := Some(m);
        case Parsed(log) =>
          var results := Sarif.ParseSarif(log);
          written := Write(id, Completed(results, Some(Iso(now))), start, written);
      }
    }

    /** One `updateStatus` call inside `runScan`, recording it in `done`. */
    method Write(id: string, f: Fields, ghost start: map<string, Fields>, done: seq<Fields>) returns (done': seq<Fields>)
      requires scans == if done == [] then start else start[id := Replay(Lookup(start, id), done)]
      modifies this
      ensures done' == done + [f]
      ensures scans == start[id := Replay(Lookup(start, id), done')]
    {
      ghost var before := Replay(Lookup(start, id), done);
      assert Lookup(scans, id) == before by {
        if done == [] {
          assert before == Lookup(start, id);
        }
      }
      UpdateStatus(id, f);
      done' := done + [f];
      assert done'[..|done|] == done;
      assert Replay(Lookup(start, id), done') == Merge(before, f);
    }
  }

  // ------------------------------------------------------------ properties

  /** An accepted POST adds exactly one entry when the drawn id is unused. */
  lemma PostAddsOne(scans: map<string, Fields>, scanId: string, rec: Fields)
    requires scanId !in scans
    ensures |scans[scanId := rec].Keys| == |scans.Keys| + 1
    ensures scans[scanId := rec].Keys == scans.Keys + {scanId}
  {
    assert scans[scanId := rec].Keys == scans.Keys + {scanId};
  }

  lemma ProgressForward(lang: string)
    ensures Forward(Progress(lang))
    ensures forall i :: 0 <= i < |Progress(lang)| ==> InProgress(Progress(lang)[i])
  {
  }

  /**
   * Every job writes cloning, detecting, the language, creating_db, analyzing and
   * parsing, as far as it gets, then exactly one `complete` or `error` write.
   */
  lemma TraceIsProper(j: Job, now: string)
    ensures ProperTrace(Writes(j, now))
    ensures exists k :: 0 <= k <= 6 && Writes(j, now)[..|Writes(j, now)| - 1] == Progress(Language.Detect(j.tree))[..k]
  {
    var p := Progress(Language.Detect(j.tree));
    ProgressForward(Language.Detect(j.tree));
    var ws := Writes(j, now);
    var t := ws[|ws| - 1];
    var k := |ws| - 1;
    assert ws == p[..k] + [t];
    assert Closing(t);
    CloseTrace(p, k, t);
    assert ws[..k] == p[..k];
  }

  /** The job completes, with a completion time, exactly when every step succeeds. */
  lemma CompletesIffAllSucceed(j: Job, now: string)
    ensures Writes(j, now)[|Writes(j, now)| - 1].status == Some(Complete) <==> Succeeds(j)
    ensures Succeeds(j) ==>
      Writes(j, now) == Progress(Language.Detect(j.tree)) + [Completed(Sarif.ParseLog(j.sarif.log), Some(Iso(now)))]
  {
  }

  /** The language is written right after `detecting`, and only then. */
  lemma LanguageAfterDetecting(j: Job, now: string)
    ensures forall i :: 0 <= i < |Writes(j, now)| && Writes(j, now)[i].language.Some? ==>
      i >= 1 && Writes(j, now)[i - 1] == StatusStep(Detecting, DetectingStep)
      && Writes(j, now)[i].language == Some(Language.Detect(j.tree))
  {
    var lang := Language.Detect(j.tree);
    var ws := Writes(j, now);
    var p := Progress(lang);
    var k := Reached(j);
    assert ws == p[..k] + [Final(j, now)];
    FinalNamesNoLanguage(j, now);
    ProgressLanguage(lang);
    forall i | 0 <= i < |ws| && ws[i].language.Some?
      ensures i >= 1 && ws[i - 1] == StatusStep(Detecting, DetectingStep) && ws[i].language == Some(lang)
    {
      assert i < k;
      assert ws[i] == p[i] && ws[i - 1] == p[i - 1];
    }
  }

  lemma FinalNamesNoLanguage(j: Job, now: string)
    ensures Final(j, now).language.None?
  {
  }

  lemma ProgressLanguage(lang: string)
    ensures forall i :: 0 <= i < |Progress(lang)| && Progress(lang)[i].language.Some? ==>
      i == 2 && Progress(lang)[1] == StatusStep(Detecting, DetectingStep) && Progress(lang)[i].language == Some(lang)
  {
  }

  /** The writes of a job that got past the clone, by how the rest of it ends. */
  lemma AnalysisWrites(j: Job, now: string)
    requires j.mkdir.Ok? && j.clone.Done?
    ensures var p := Progress(Language.Detect(j.tree));
      if j.createDb.ExecFailed? then
        Writes(j, now) == p[..4] + [Failed(ExecMessage(j.createDb.stderr, j.createDb.message))]
      else if j.analyze.ExecFailed? then
        Writes(j, now) == p[..5] + [Failed(ExecMessage(j.analyze.stderr, j.analyze.message))]
      else if j.sarif.Unreadable? then Writes(j, now) == p + [Failed(j.sarif.message)]
      else Writes(j, now) == p + [Completed(Sarif.ParseLog(j.sarif.log), Some(Iso(now)))]
  {
    assert Progress(Language.Detect(j.tree))[..6] == Progress(Language.Detect(j.tree));
  }

  /**
   * A failed job records the thrown message as it is: the failing command's stderr,
   * or its own message when stderr is empty, or the error of `mkdir` or of reading
   * the SARIF file. Nothing is simplified.
   */
  lemma RawErrorKept(j: Job, now: string)
    ensures Thrown(j).Some? ==> Writes(j, now)[|Writes(j, now)| - 1] == Failed(Thrown(j).value)
    ensures j.mkdir.Ok? && j.clone.ExecFailed? ==>
              Writes(j, now)[|Writes(j, now)| - 1].error == Some(if j.clone.stderr != "" then j.clone.stderr else j.clone.message)
    ensures j.mkdir.Ok? && j.clone.Done? && j.createDb.ExecFailed? ==>
              Writes(j, now)[|Writes(j, now)| - 1].error == Some(if j.createDb.stderr != "" then j.createDb.stderr else j.createDb.message)
    ensures j.mkdir.Ok? && j.clone.Done? && j.createDb.Done? && j.analyze.ExecFailed? ==>
              Writes(j, now)[|Writes(j, now)| - 1].error == Some(if j.analyze.stderr != "" then j.analyze.stderr else j.analyze.message)
  {
    var ws := Writes(j, now);
    assert ws[|ws| - 1] == Final(j, now);
  }

  /** A failed clone records git's stderr as it is, several lines and all. */
  lemma MultiLineErrorKept(j: Job, now: string)
    requires j.mkdir.Ok? && j.clone == ExecFailed("fatal: one\nfatal: two", "Command failed")
    ensures Writes(j, now)[|Writes(j, now)| - 1].error == Some("fatal: one\nfatal: two")
    ensures '\n' in Writes(j, now)[|Writes(j, now)| - 1].error.value
  {
    RawErrorKept(j, now);
    assert "fatal: one\nfatal: two"[10] == '\n';
  }

  /** No write of the job names the URL, the name or the start time. */
  lemma WritesLeaveIdentity(j: Job, now: string)
    ensures forall i :: 0 <= i < |Writes(j, now)| ==>
      Writes(j, now)[i].repoUrl.None? && Writes(j, now)[i].repoName.None? && Writes(j, now)[i].startedAt.None?
  {
  }

  /** The job never rewrites the URL, the name or the start time that POST stored. */
  lemma {:induction false} JobKeepsIdentity(rec: Fields, ws: seq<Fields>)
    requires forall i :: 0 <= i < |ws| ==> ws[i].repoUrl.None? && ws[i].repoName.None? && ws[i].startedAt.None?
    ensures Replay(rec, ws).repoUrl == rec.repoUrl
    ensures Replay(rec, ws).repoName == rec.repoName
    ensures Replay(rec, ws).startedAt == rec.startedAt
  {
    if ws != [] {
      JobKeepsIdentity(rec, ws[..|ws| - 1]);
    }
  }

  /**
   * After an accepted POST and its job, GET finds a record with the stored URL,
   * name and start time, and the job's terminal status; a failed job's record has
   * its error and no completion time.
   */
  lemma SubmittedJobRecord(raw: string, now: string, j: Job, later: string)
    ensures var rec := Replay(NewRecord(raw, now), Writes(j, later));
      var ws := Writes(j, later);
      rec.repoUrl == NewRecord(raw, now).repoUrl && rec.repoName == NewRecord(raw, now).repoName
      && rec.startedAt == Some(Iso(now)) && rec.status == ws[|ws| - 1].status
      && (rec.status == Some(Error) ==> rec.completedAt.None? && rec.error == ws[|ws| - 1].error)
  {
    var ws := Writes(j, later);
    TraceIsProper(j, later);
    WritesLeaveIdentity(j, later);
    JobKeepsIdentity(NewRecord(raw, now), ws);
    ReplayEndsTerminal(NewRecord(raw, now), ws);
  }
}
