/**
 The request handling of the API's `/ingest`, `/query` and `/health` endpoints: the
 engine start-up guard, input validation, the merge of user tuning values with the
 defaults, and the status document `/health` returns. Calls into the RAG engine and the
 backend probe are represented by their outcomes.
 */
module ApiRequests {
  import opened Outcomes
  import opened Records
  import Text
  import Backends

  /** An `HTTPException`: status code and detail text. */
  datatype Rejection = Rejection(status: int, detail: string)

  /**
   The engine as a handler finds it: already built, built now, or failing to build (the
   constructor or `initialize_storages` raised).
   */
  datatype EngineStart = AlreadyReady | Started | StartRaised(message: string, trace: string)

  /** What a call into the engine (`insert`, `query`) did. */
  datatype EngineCall<T> = Returned(value: T) | CallRaised(message: string, trace: string)

  /** The 500 a handler answers with when the engine cannot be started. */
  function StartRejection(s: EngineStart): Option<Rejection> {
    match s
    case StartRaised(m, t) => Some(Rejection(500, "Failed to initialize LightRAG: " + m + "\n\n" + t))
    case _ => None
  }

  /** `not s or not s.strip()`. */
  predicate EmptyField(s: string) {
    s == [] || Text.IsBlank(s)
  }

  /** The empty-or-blank test is just "every code point is whitespace". */
  lemma EmptyFieldIffAllSpace(s: string)
    ensures EmptyField(s) <==> Text.AllSpace(s)
  {
    Text.BlankIffAllSpace(s);
  }

  // ---------------------------------------------------------------------------
  // POST /ingest
  // ---------------------------------------------------------------------------

  datatype IngestRequest = IngestRequest(text: string, docId: string)

  /** The success body: message, document id and `len(text)`. */
  datatype IngestReceipt = IngestReceipt(message: string, docId: string, textLength: nat)

  /**
   `/ingest` (main.py lines 326-351): start the engine, reject a blank text, then a blank
   document id, then insert and report the text length.
   */
  function Ingest(req: IngestRequest, start: EngineStart, insert: EngineCall<()>): (r: Result<IngestReceipt, Rejection>)
    ensures start.StartRaised? ==> r.Failure? && r.error.status == 500
    ensures !start.StartRaised? && Text.AllSpace(req.text) ==>
      r == Failure(Rejection(400, "Text cannot be empty"))
    ensures !start.StartRaised? && !Text.AllSpace(req.text) && Text.AllSpace(req.docId) ==>
      r == Failure(Rejection(400, "doc_id cannot be empty"))
    ensures r.Success? <==>
      !start.StartRaised? && !Text.AllSpace(req.text) && !Text.AllSpace(req.docId) && insert.Returned?
    ensures r.Success? ==> r.value == IngestReceipt("Document ingested successfully", req.docId, |req.text|)
    ensures start.StartRaised? ==>
      r == Failure(Rejection(500, "Failed to initialize LightRAG: " + start.message + "\n\n" + start.trace))
    ensures !start.StartRaised? && !Text.AllSpace(req.text) && !Text.AllSpace(req.docId) && insert.CallRaised? ==>
      r == Failure(Rejection(500, "Failed to ingest document: " + insert.message))
  {
    EmptyFieldIffAllSpace(req.text);
    EmptyFieldIffAllSpace(req.docId);
    if start.StartRaised? then Failure(StartRejection(start).value)
    else if EmptyField(req.text) then Failure(Rejection(400, "Text cannot be empty"))
    else if EmptyField(req.docId) then Failure(Rejection(400, "doc_id cannot be empty"))
    else match insert
      case Returned(_) => Success(IngestReceipt("Document ingested successfully", req.docId, |req.text|))
      case CallRaised(m, _) => Failure(Rejection(500, "Failed to ingest document: " + m))
  }

  // ---------------------------------------------------------------------------
  // POST /query
  // ---------------------------------------------------------------------------

  /** The request body; absent tuning fields are `None`. */
  datatype QueryRequest = QueryRequest(
    query: string, mode: string,
    edgesTopK: Option<int>, edgesCosine: Option<real>,
    nodesTopK: Option<int>, nodesCosine: Option<real>,
    chunkTopK: Option<int>, chunkCosine: Option<real>,
    enableRerank: Option<bool>)

  /** The merged tuning values. */
  datatype Tuning = Tuning(
    edgesTopK: int, edgesCosine: real, nodesTopK: int, nodesCosine: real,
    chunkTopK: int, chunkCosine: real, enableRerank: bool)

  const DefaultTuning := Tuning(20, 0.2, 20, 0.2, 10, 0.2, false)

  /** The parameters handed to the engine's query and echoed back. */
  datatype QueryParams = QueryParams(mode: string, topK: int, chunkTopK: int, enableRerank: bool)

  datatype QueryAnswer = QueryAnswer(answer: string, query: string, mode: string, used: QueryParams)

  const ValidModes: seq<string> := ["hybrid", "naive", "local", "global"]

  /** `user if user is not None else default`. */
  function Pick<T>(user: Option<T>, default: T): T {
    if user.Some? then user.value else default
  }

  /** The dict comprehension of main.py lines 396-397. */
  function MergeTuning(req: QueryRequest): Tuning {
    Tuning(
      Pick(req.edgesTopK, DefaultTuning.edgesTopK),
      Pick(req.edgesCosine, DefaultTuning.edgesCosine),
      Pick(req.nodesTopK, DefaultTuning.nodesTopK),
      Pick(req.nodesCosine, DefaultTuning.nodesCosine),
      Pick(req.chunkTopK, DefaultTuning.chunkTopK),
      Pick(req.chunkCosine, DefaultTuning.chunkCosine),
      Pick(req.enableRerank, DefaultTuning.enableRerank))
  }

  /** The engine parameters: `top_k` is the merged node top-k. */
  function ParamsOf(mode: string, t: Tuning): QueryParams {
    QueryParams(mode, t.nodesTopK, t.chunkTopK, t.enableRerank)
  }

  /**
   `/query` (main.py lines 354-428): start the engine, reject a blank query, then a mode
   outside the four known ones, then merge the tuning values and run the query.
   */
  function Query(req: QueryRequest, start: EngineStart, run: EngineCall<string>): (r: Result<QueryAnswer, Rejection>)
    ensures start.StartRaised? ==> r.Failure? && r.error.status == 500
    ensures !start.StartRaised? && Text.AllSpace(req.query) ==>
      r == Failure(Rejection(400, "Query cannot be empty"))
    ensures !start.StartRaised? && !Text.AllSpace(req.query) && req.mode !in {"hybrid", "naive", "local", "global"} ==>
      r == Failure(Rejection(400, "Mode must be one of: hybrid, naive, local, global"))
    ensures r.Success? <==> (!start.StartRaised? && !Text.AllSpace(req.query)
      && req.mode in {"hybrid", "naive", "local", "global"} && run.Returned?)
    ensures r.Success? ==> (r.value.query == req.query && r.value.mode == req.mode
      && r.value.answer == run.value && r.value.used == ParamsOf(req.mode, MergeTuning(req)))
    ensures start.StartRaised? ==>
      r == Failure(Rejection(500, "Failed to initialize LightRAG: " + start.message + "\n\n" + start.trace))
    ensures (!start.StartRaised? && !Text.AllSpace(req.query) && req.mode in {"hybrid", "naive", "local", "global"}
             && run.CallRaised?) ==>
      r == Failure(Rejection(500, "Failed to process query: " + run.message + "\n\n" + run.trace))
  {
    EmptyFieldIffAllSpace(req.query);
    if start.StartRaised? then Failure(StartRejection(start).value)
    else if EmptyField(req.query) then Failure(Rejection(400, "Query cannot be empty"))
    else if req.mode !in ValidModes then
      Failure(Rejection(400, "Mode must be one of: hybrid, naive, local, global"))
    else match run
      case Returned(answer) => Success(QueryAnswer(answer, req.query, req.mode, ParamsOf(req.mode, MergeTuning(req))))
      case CallRaised(m, t) => Failure(Rejection(500, "Failed to process query: " + m + "\n\n" + t))
  }

  /**
   A user value overrides the default exactly when it is not `None`, including the falsy
   values `0`, `0.0` and `False`; a request with no tuning fields gets the defaults.
   */
  lemma MergeOverridesUnlessNone(req: QueryRequest)
    ensures var t := MergeTuning(req);
      && (req.nodesTopK.Some? ==> t.nodesTopK == req.nodesTopK.value)
      && (req.nodesTopK.None? ==> t.nodesTopK == 20)
      && (req.chunkTopK.Some? ==> t.chunkTopK == req.chunkTopK.value)
      && (req.chunkTopK.None? ==> t.chunkTopK == 10)
      && (req.enableRerank.Some? ==> t.enableRerank == req.enableRerank.value)
      && (req.enableRerank.None? ==> !t.enableRerank)
      && (req.edgesTopK.Some? ==> t.edgesTopK == req.edgesTopK.value)
      && (req.edgesTopK.None? ==> t.edgesTopK == 20)
      && (req.edgesCosine.Some? ==> t.edgesCosine == req.edgesCosine.value)
      && (req.edgesCosine.None? ==> t.edgesCosine == 0.2)
      && (req.nodesCosine.Some? ==> t.nodesCosine == req.nodesCosine.value)
      && (req.nodesCosine.None? ==> t.nodesCosine == 0.2)
      && (req.chunkCosine.Some? ==> t.chunkCosine == req.chunkCosine.value)
      && (req.chunkCosine.None? ==> t.chunkCosine == 0.2)
    ensures (req.edgesTopK.None? && req.edgesCosine.None? && req.nodesTopK.None? && req.nodesCosine.None?
      && req.chunkTopK.None? && req.chunkCosine.None? && req.enableRerank.None?) ==> MergeTuning(req) == DefaultTuning
  {
  }

  /**
   Only the node top-k, the chunk top-k and the rerank flag reach the engine: the edge
   top-k and the three cosine thresholds are merged but never used.
   */
  lemma UnusedTuningHasNoEffect(req: QueryRequest, edgesTopK: Option<int>, edgesCosine: Option<real>,
                                nodesCosine: Option<real>, chunkCosine: Option<real>)
    ensures var other := req.(edgesTopK := edgesTopK, edgesCosine := edgesCosine,
                              nodesCosine := nodesCosine, chunkCosine := chunkCosine);
      ParamsOf(other.mode, MergeTuning(other)) == ParamsOf(req.mode, MergeTuning(req))
  {
  }

  // ---------------------------------------------------------------------------
  // GET /health
  // ---------------------------------------------------------------------------

  /** What the backend probe came to: an HTTP status, or an exception with its text. */
  datatype Probe = Answered(status: int) | ProbeRaised(message: string)

  /**
   The status document of `/health` (main.py lines 273-305). `lightrag_initialized` is a
   Python bool, held as 1 or 0.
   */
  function HealthBody(c: Backends.Config, probe: Probe, initialised: bool): (body: Record)
    ensures body.Keys == {"api", "llm_binding", "backend", "lightrag_initialized", "working_dir",
                          "llm_host", "nest_asyncio"} + (if probe == Answered(200) then {} else {"backend_error"})
    ensures "ollama" !in body
    ensures body["backend"] == Str(if probe == Answered(200) then "healthy" else "unhealthy")
    ensures Truthy(body["lightrag_initialized"]) <==> initialised
  {
    var healthy := probe == Answered(200);
    var base := map[
      "api" := Str("healthy"),
      "llm_binding" := Str(c.llmBinding),
      "backend" := Str(if healthy then "healthy" else "unhealthy"),
      "lightrag_initialized" := Num(if initialised then 1 else 0),
      "working_dir" := Str(c.workingDir),
      "llm_host" := Str(c.llmHost),
      "nest_asyncio" := Str("enabled")
    ];
    if healthy then base
    else
      var error := match probe
        case Answered(code) => "HTTP " + Text.IntToString(code)
        case ProbeRaised(m) => m;
      base["backend_error" := Str(error)]
  }
}
