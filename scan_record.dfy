/**
 * The scan record both deployments keep per scan id, and the partial updates
 * `runScan` writes into it. An update names only some fields; merging it into a
 * record replaces those fields and keeps the others, as Firestore's `update`
 * (cloud-run/index.js) and the object spread `{ ...scan, ...fields }` (server.js) do.
 */
module ScanRecord {
  import opened Wrappers
  import Sarif

  datatype Status = Cloning | Detecting | CreatingDb | Analyzing | Parsing | Complete | Error

  /** A point in time as the store keeps it: Firestore's server timestamp, or an ISO 8601 text. */
  datatype Time = ServerTimestamp | Iso(text: string)

  /** A record, or an update: `None` is a field that is absent. */
  datatype Fields = Fields(
    status: Option<Status>,
    step: Option<string>,
    language: Option<string>,
    results: Option<Sarif.Report>,
    completedAt: Option<Time>,
    error: Option<string>,
    repoUrl: Option<string>,
    repoName: Option<string>,
    owner: Option<string>,
    repo: Option<string>,
    startedAt: Option<Time>)

  const NoFields: Fields := Fields(None, None, None, None, None, None, None, None, None, None, None)

  function Over<T>(was: Option<T>, given: Option<T>): Option<T> {
    if given.Some? then given else was
  }

  /**
   * `{ ...rec, ...upd }`: every field the update gives replaces the stored one. The
   * empty update changes nothing, and an update merged into the empty record is itself.
   */
  function Merge(rec: Fields, upd: Fields): (r: Fields)
    ensures upd == NoFields ==> r == rec
    ensures rec == NoFields ==> r == upd
  {
    Fields(
      Over(rec.status, upd.status),
      Over(rec.step, upd.step),
      Over(rec.language, upd.language),
      Over(rec.results, upd.results),
      Over(rec.completedAt, upd.completedAt),
      Over(rec.error, upd.error),
      Over(rec.repoUrl, upd.repoUrl),
      Over(rec.repoName, upd.repoName),
      Over(rec.owner, upd.owner),
      Over(rec.repo, upd.repo),
      Over(rec.startedAt, upd.startedAt))
  }

  // The updates `runScan` writes.

  const CloningStep: string := "Cloning repository..."
  const DetectingStep: string := "Detecting language..."
  const BuildingStep: string := "Building analysis database..."
  const AnalyzingStep: string := "Running security analysis..."
  const ParsingStep: string := "Generating report..."

  function StatusStep(s: Status, step: string): Fields {
    NoFields.(status := Some(s), step := Some(step))
  }

  function LanguageField(lang: string): Fields {
    NoFields.(language := Some(lang))
  }

  function Completed(results: Sarif.Report, at: Option<Time>): Fields {
    NoFields.(status := Some(Complete), step := Some("Done"), results := Some(results), completedAt := at)
  }

  function Failed(msg: string): Fields {
    NoFields.(status := Some(Error), step := Some("Failed"), error := Some(msg))
  }

  /** The order a job moves through its statuses; both terminal statuses come last. */
  function Order(s: Status): nat {
    match s
    case Cloning => 0
    case Detecting => 1
    case CreatingDb => 2
    case Analyzing => 3
    case Parsing => 4
    case Complete => 5
    case Error => 5
  }

  predicate Terminal(f: Fields) {
    f.status == Some(Complete) || f.status == Some(Error)
  }

  /** The statuses written, in order, never go back. */
  predicate Forward(ws: seq<Fields>) {
    forall i, j :: 0 <= i < j < |ws| && ws[i].status.Some? && ws[j].status.Some? ==>
      Order(ws[i].status.value) <= Order(ws[j].status.value)
  }

  /** Writes made while the job runs: not terminal, no results, no completion time, no error. */
  predicate InProgress(f: Fields) {
    !Terminal(f) && f.results.None? && f.completedAt.None? && f.error.None?
  }

  /**
   * The shape of every `runScan` trace: progress writes, with statuses that never
   * go back, closed by exactly one terminal write; results and a completion time
   * come only with `complete`, and an error message exactly with `error`.
   */
  predicate ProperTrace(ws: seq<Fields>) {
    && |ws| >= 1
    && Terminal(ws[|ws| - 1])
    && (forall i :: 0 <= i < |ws| - 1 ==> InProgress(ws[i]))
    && Forward(ws)
    && (ws[|ws| - 1].results.Some? || ws[|ws| - 1].completedAt.Some? ==> ws[|ws| - 1].status == Some(Complete))
    && (ws[|ws| - 1].error.Some? <==> ws[|ws| - 1].status == Some(Error))
  }

  predicate Closing(t: Fields) {
    && Terminal(t)
    && (t.results.Some? || t.completedAt.Some? ==> t.status == Some(Complete))
    && (t.error.Some? <==> t.status == Some(Error))
  }

  lemma CompletedCloses(results: Sarif.Report, at: Option<Time>)
    ensures Closing(Completed(results, at))
  {
  }

  lemma FailedCloses(msg: string)
    ensures Closing(Failed(msg))
  {
  }

  /** A prefix of forward progress writes, closed by a terminal write, is a proper trace. */
  lemma CloseTrace(ws: seq<Fields>, k: nat, t: Fields)
    requires k <= |ws| && Forward(ws) && forall i :: 0 <= i < |ws| ==> InProgress(ws[i])
    requires Closing(t)
    ensures ProperTrace(ws[..k] + [t])
  {
    var r := ws[..k] + [t];
    assert forall i :: 0 <= i < k ==> r[i] == ws[i];
    forall i, j | 0 <= i < j < |r| && r[i].status.Some? && r[j].status.Some?
      ensures Order(r[i].status.value) <= Order(r[j].status.value)
    {
      if j == k {
        assert !Terminal(ws[i]);
      }
    }
  }

  /** The record after the writes `ws`, one after the other, into `rec`. */
  function Replay(rec: Fields, ws: seq<Fields>): Fields {
    if ws == [] then rec else Merge(Replay(rec, ws[..|ws| - 1]), ws[|ws| - 1])
  }

  /**
   * After a proper trace the record shows the terminal status and step; after an
   * `error` it shows that error, and no completion time unless it had one before.
   */
  lemma {:induction false} ReplayEndsTerminal(rec: Fields, ws: seq<Fields>)
    requires ProperTrace(ws)
    ensures Replay(rec, ws).status == ws[|ws| - 1].status
    ensures ws[|ws| - 1].step.Some? ==> Replay(rec, ws).step == ws[|ws| - 1].step
    ensures ws[|ws| - 1].status == Some(Error) && rec.completedAt.None? ==> Replay(rec, ws).completedAt.None?
    ensures ws[|ws| - 1].status == Some(Error) ==> Replay(rec, ws).error == ws[|ws| - 1].error
  {
    ReplayKeepsAbsent(rec, ws[..|ws| - 1]);
  }

  /** Progress writes never set a completion time or an error. */
  lemma {:induction false} ReplayKeepsAbsent(rec: Fields, ws: seq<Fields>)
    requires forall i :: 0 <= i < |ws| ==> InProgress(ws[i])
    ensures Replay(rec, ws).completedAt == rec.completedAt
    ensures Replay(rec, ws).error == rec.error
    ensures Replay(rec, ws).results == rec.results
  {
    if ws != [] {
      ReplayKeepsAbsent(rec, ws[..|ws| - 1]);
    }
  }

  // Outcomes of the external steps of a scan job, given in advance.

  /** How `execAsync` settles: on failure it rejects with stderr, or with the error's own message when stderr is empty. */
  datatype Exec = Done | ExecFailed(stderr: string, message: string)

  function ExecMessage(stderr: string, message: string): string {
    if stderr != "" then stderr else message
  }

  /** A step that can throw: creating the workspace. */
  datatype Step = Ok | Threw(message: string)

  /** Reading and decoding the SARIF file. */
  datatype SarifFile = Parsed(log: Sarif.Log) | Unreadable(message: string)
}
