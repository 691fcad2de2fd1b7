/**
 The client side both ingestion scripts share: the API health check, and the ingestion
 of one text file (existence, reading, blank content, document id, POST to `/ingest`).
 The file system and the HTTP exchange are inputs.
 */
module IngestClient {
  import opened Outcomes
  import opened Records
  import Text
  import Paths
  import Backends
  import ApiRequests

  /** A response body as `response.json()` sees it. */
  datatype JsonBody =
    | NotJson(decodeError: string)
    | JsonOther(typeName: string)
    | JsonObject(fields: Record)

  // ---------------------------------------------------------------------------
  // The health check
  // ---------------------------------------------------------------------------

  /** What `GET /health` came to. */
  datatype HealthReply = HealthAnswered(status: int, body: JsonBody) | HealthRaised(message: string)

  /**
   The key the check reads the backend status from: `"ollama"` as both scripts write it
   (bulk_ingest.py line 28, ingest_all_files.py line 25), or `"backend"`, the key the
   server's status document carries.
   */
  datatype HealthKey = OllamaKey | BackendKey

  function KeyName(k: HealthKey): string {
    match k
    case OllamaKey => "ollama"
    case BackendKey => "backend"
  }

  /**
   `check_api_health`: a 200 whose JSON object says the backend is "healthy" and whose
   `lightrag_initialized` is truthy. A non-JSON body or a JSON value other than an
   object raises inside the `try` and counts as unhealthy.
   */
  predicate ApiHealthy(key: HealthKey, reply: HealthReply) {
    && reply.HealthAnswered?
    && reply.status == 200
    && reply.body.JsonObject?
    && Get(reply.body.fields, KeyName(key), Null) == Str("healthy")
    && Truthy(Get(reply.body.fields, "lightrag_initialized", Num(0)))
  }

  /** The reply a client gets from the server's `/health`. */
  function ServerHealthReply(c: Backends.Config, probe: ApiRequests.Probe, initialised: bool): HealthReply {
    HealthAnswered(200, JsonObject(ApiRequests.HealthBody(c, probe, initialised)))
  }

  /** As written, the check fails against every status document the server can send. */
  lemma AsWrittenHealthNeverPasses(c: Backends.Config, probe: ApiRequests.Probe, initialised: bool)
    ensures !ApiHealthy(OllamaKey, ServerHealthReply(c, probe, initialised))
  {
  }

  /**
   With the server's key, the check passes exactly when the backend probe answered 200
   and the engine has been built.
   */
  lemma IntendedHealthMatchesServer(c: Backends.Config, probe: ApiRequests.Probe, initialised: bool)
    ensures ApiHealthy(BackendKey, ServerHealthReply(c, probe, initialised))
      <==> probe == ApiRequests.Answered(200) && initialised
  {
  }

  // ---------------------------------------------------------------------------
  // Ingesting one file
  // ---------------------------------------------------------------------------

  /** A text file as the scripts find it. */
  datatype TextFile = NoFile | ReadFails(message: string) | Content(text: string)

  /** What `POST /ingest` came to. */
  datatype IngestReply =
    | Replied(status: int, bodyText: string, body: JsonBody)
    | TimedOut
    | PostRaised(message: string)

  /** How a script names a document when no id is given. */
  datatype DocIdDefault = BaseName | StemName

  function DefaultDocId(how: DocIdDefault, path: string): string {
    match how
    case BaseName => Paths.Basename(path)
    case StemName => Paths.Stem(Paths.Basename(path))
  }

  /**
   The request a script posts for a file, if it gets that far: the file must exist, be
   readable and hold more than whitespace; the id is the given one or the default.
   */
  function PostedRequest(how: DocIdDefault, path: string, docId: Option<string>, file: TextFile): (r: Option<ApiRequests.IngestRequest>)
    ensures r.Some? <==> file.Content? && !Text.AllSpace(file.text)
    ensures r.Some? ==> r.value.text == file.text && r.value.docId == docId.GetOr(DefaultDocId(how, path))
  {
    if file.Content? then
      Text.BlankIffAllSpace(file.text);
      if Text.IsBlank(file.text) then None
      else Some(ApiRequests.IngestRequest(file.text, docId.GetOr(DefaultDocId(how, path))))
    else None
  }

  /** A reply the scripts count as success: a 200 whose body is a JSON object. */
  predicate Accepted(reply: IngestReply) {
    reply.Replied? && reply.status == 200 && reply.body.JsonObject?
  }

  /** The failure message for a reply whose status is not 200: the status and the body text. */
  function HttpError(status: int, bodyText: string): string {
    "HTTP " + Text.IntToString(status) + ": " + bodyText
  }

  /**
   `str()` of a JSON value as far as `Value` can tell: a list or dict is not rendered, and
   a JSON `true`/`false`, which `Value` holds as `Num(1)`/`Num(0)`, shows as `1`/`0`
   where Python shows `True`/`False`.
   */
  function Show(v: Value): string {
    match v
    case Null => "None"
    case Str(s) => s
    case Num(n) => Text.IntToString(n)
    case Compound(_) => "[...]"
  }

  /**
   `ingest_file` (ingest_all_files.py lines 32-64). bulk_ingest.py's version (lines
   35-88) takes the same decisions, reports them by printing, and defaults the id to the
   base name instead of the stem.
   */
  function IngestFile(how: DocIdDefault, path: string, docId: Option<string>, file: TextFile, reply: IngestReply): (o: Outcome)
    ensures file.NoFile? ==> o == Outcome(false, "File not found: " + path)
    ensures file.ReadFails? ==> o == Outcome(false, "Error reading file: " + file.message)
    ensures file.Content? && Text.AllSpace(file.text) ==> o == Outcome(false, "File is empty")
    ensures o.ok <==> PostedRequest(how, path, docId, file).Some? && Accepted(reply)
    ensures PostedRequest(how, path, docId, file).Some? && reply.TimedOut?
      ==> o == Outcome(false, "Timeout (document may be too large)")
    ensures PostedRequest(how, path, docId, file).Some? && reply.Replied? && reply.status != 200
      ==> o == Outcome(false, HttpError(reply.status, reply.bodyText))
  {
    match file
    case NoFile => Outcome(false, "File not found: " + path)
    case ReadFails(m) => Outcome(false, "Error reading file: " + m)
    case Content(text) =>
      if PostedRequest(how, path, docId, file).None? then Outcome(false, "File is empty")
      else match reply
        case TimedOut => Outcome(false, "Timeout (document may be too large)")
        case PostRaised(m) => Outcome(false, m)
        case Replied(status, bodyText, body) =>
          if status != 200 then Outcome(false, HttpError(status, bodyText))
          else match body
            case NotJson(e) => Outcome(false, e)
            case JsonOther(t) => Outcome(false, "'" + t + "' object has no attribute 'get'")
            case JsonObject(fields) =>
              Outcome(true, "Successfully ingested (" + Show(Get(fields, "text_length", Num(0))) + " characters)")
  }

  // ---------------------------------------------------------------------------
  // A run over several files
  // ---------------------------------------------------------------------------

  /** A file found on disk, with the reply the server would give to its POST. */
  datatype FileCase = FileCase(path: string, file: TextFile, reply: IngestReply)

  /** One `ingest_file` call of a script's main loop: the file and the id passed for it. */
  datatype Job = Job(source: FileCase, docId: Option<string>)

  function RunJob(how: DocIdDefault, job: Job): Outcome {
    IngestFile(how, job.source.path, job.docId, job.source.file, job.source.reply)
  }

  function JobRequest(how: DocIdDefault, job: Job): Option<ApiRequests.IngestRequest> {
    PostedRequest(how, job.source.path, job.docId, job.source.file)
  }

  /** The requests that reach the server, in the order the jobs run. */
  function PostedRequests(how: DocIdDefault, jobs: seq<Job>): (rs: seq<ApiRequests.IngestRequest>)
    ensures |rs| <= |jobs|
  {
    if |jobs| == 0 then []
    else
      var r := JobRequest(how, jobs[|jobs| - 1]);
      PostedRequests(how, jobs[..|jobs| - 1]) + (if r.Some? then [r.value] else [])
  }

  /** The outcome of every job, in the order the scripts run them. */
  function RunAll(how: DocIdDefault, jobs: seq<Job>): seq<Outcome> {
    seq(|jobs|, i requires 0 <= i < |jobs| => RunJob(how, jobs[i]))
  }

  /**
   The loop both scripts run: every job once, in order, each counted as a success or a
   failure; only files with content reach the server.
   */
  method RunJobs(how: DocIdDefault, jobs: seq<Job>) returns (outcomes: seq<Outcome>, success: nat, failed: nat, posted: seq<ApiRequests.IngestRequest>)
    ensures success + failed == |outcomes|
    ensures success == Successes(outcomes)
    ensures outcomes == RunAll(how, jobs)
    ensures posted == PostedRequests(how, jobs)
    ensures forall r :: r in posted ==> !Text.AllSpace(r.text)
  {
    outcomes := RunAll(how, jobs);
    success, failed := Tally(outcomes);
    posted := PostedRequests(how, jobs);
    PostedAreNotBlank(how, jobs);
  }

  /** No request the scripts post carries blank text. */
  lemma {:induction false} PostedAreNotBlank(how: DocIdDefault, jobs: seq<Job>)
    ensures forall r :: r in PostedRequests(how, jobs) ==> !Text.AllSpace(r.text)
  {
    if |jobs| > 0 {
      PostedAreNotBlank(how, jobs[..|jobs| - 1]);
    }
  }

  // ---------------------------------------------------------------------------
  // Client and server together
  // ---------------------------------------------------------------------------

  /** The reply the server's `/ingest` outcome becomes on the wire; `errorText` is the error body. */
  function WireReply(r: Result<ApiRequests.IngestReceipt, ApiRequests.Rejection>, errorText: string): IngestReply {
    match r
    case Success(receipt) =>
      Replied(200, "", JsonObject(map[
        "message" := Str(receipt.message),
        "doc_id" := Str(receipt.docId),
        "text_length" := Num(receipt.textLength)]))
    case Failure(rejection) =>
      Replied(rejection.status, errorText, JsonObject(map["detail" := Str(rejection.detail)]))
  }

  /**
   The client's blank-content test is the server's: a file the client skips as empty is
   exactly one whose text the server would refuse, so a posted file is never refused for
   blank text.
   */
  lemma ClientSkipsWhatServerRefuses(how: DocIdDefault, path: string, docId: Option<string>, text: string,
                                     start: ApiRequests.EngineStart, insert: ApiRequests.EngineCall<()>)
    requires !start.StartRaised?
    ensures PostedRequest(how, path, docId, Content(text)).None?
      <==> ApiRequests.Ingest(ApiRequests.IngestRequest(text, docId.GetOr(DefaultDocId(how, path))), start, insert)
           == Failure(ApiRequests.Rejection(400, "Text cannot be empty"))
  {
  }

  /**
   End to end: a posted file succeeds exactly when the server ingests it, and the
   success message reports the length of the file's text.
   */
  lemma EndToEndIngest(how: DocIdDefault, path: string, docId: Option<string>, text: string,
                       start: ApiRequests.EngineStart, insert: ApiRequests.EngineCall<()>, errorText: string)
    requires PostedRequest(how, path, docId, Content(text)).Some?
    ensures var server := ApiRequests.Ingest(PostedRequest(how, path, docId, Content(text)).value, start, insert);
      var o := IngestFile(how, path, docId, Content(text), WireReply(server, errorText));
      && (o.ok <==> server.Success?)
      && (o.ok ==> o.message == "Successfully ingested (" + Text.IntToString(|text|) + " characters)")
  {
    var req := PostedRequest(how, path, docId, Content(text)).value;
    var server := ApiRequests.Ingest(req, start, insert);
    if server.Success? {
      var fields := WireReply(server, errorText).body.fields;
      assert Get(fields, "text_length", Num(0)) == Num(|text|);
    } else {
      assert server.error.status != 200 by {
        if start.StartRaised? {
        } else if Text.AllSpace(req.docId) {
        } else {
          assert insert.CallRaised?;
        }
      }
    }
  }
}
