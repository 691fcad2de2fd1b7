/**
 The API's outbound side: configuration read from the environment, the choice between
 the local model server and an OpenAI-compatible server, the endpoint URLs built from the
 configured hosts, and the per-text retry policy of the local embedding function.
 */
module Backends {
  import opened Outcomes
  import Text

  // ---------------------------------------------------------------------------
  // Configuration
  // ---------------------------------------------------------------------------

  /** The process environment. */
  type Env = map<string, string>

  /** `os.getenv(name, default)`. */
  function Getenv(env: Env, name: string, default: string): string {
    if name in env then env[name] else default
  }

  const DefaultHost := "http://ollama:11434"

  datatype Config = Config(
    llmBinding: string, llmHost: string, llmModel: string,
    embeddingBinding: string, embeddingHost: string, embeddingModel: string,
    apiKey: string, workingDir: string)

  /** The settings read at import time (main.py lines 48-57; `MAX_TOKENS` is left out). */
  function LoadConfig(env: Env): Config {
    Config(
      Getenv(env, "LLM_BINDING", "ollama"),
      Getenv(env, "LLM_BINDING_HOST", Getenv(env, "OLLAMA_BASE_URL", DefaultHost)),
      Getenv(env, "LLM_MODEL", "llama3.3:70b"),
      Getenv(env, "EMBEDDING_BINDING", "ollama"),
      Getenv(env, "EMBEDDING_BINDING_HOST", Getenv(env, "OLLAMA_BASE_URL", DefaultHost)),
      Getenv(env, "EMBEDDING_MODEL", "bge-m3"),
      Getenv(env, "LIGHTRAG_API_KEY", ""),
      Getenv(env, "WORKING_DIR", "/data/rag_storage"))
  }

  /**
   Each host is the binding-specific variable when set, else `OLLAMA_BASE_URL` when set,
   else the local default; the two hosts are chosen independently.
   */
  lemma HostPrecedence(env: Env)
    ensures var c := LoadConfig(env);
      && ("LLM_BINDING_HOST" in env ==> c.llmHost == env["LLM_BINDING_HOST"])
      && ("LLM_BINDING_HOST" !in env && "OLLAMA_BASE_URL" in env ==> c.llmHost == env["OLLAMA_BASE_URL"])
      && ("LLM_BINDING_HOST" !in env && "OLLAMA_BASE_URL" !in env ==> c.llmHost == DefaultHost)
      && ("EMBEDDING_BINDING_HOST" in env ==> c.embeddingHost == env["EMBEDDING_BINDING_HOST"])
      && ("EMBEDDING_BINDING_HOST" !in env && "OLLAMA_BASE_URL" in env
          ==> c.embeddingHost == env["OLLAMA_BASE_URL"])
      && ("EMBEDDING_BINDING_HOST" !in env && "OLLAMA_BASE_URL" !in env ==> c.embeddingHost == DefaultHost)
  {
  }

  /**
   `binding.lower() == "openai"`. Lowering only ASCII letters decides this exactly: the
   only other code points whose lower case contains ASCII are KELVIN SIGN (to `k`, absent
   from "openai") and LATIN CAPITAL I WITH DOT ABOVE (to `i` plus a combining dot, which
   "openai" does not contain).
   */
  predicate IsOpenAI(binding: string) {
    Text.AsciiLower(binding) == "openai"
  }

  /** The embedding width LightRAG is told to expect for the configured binding. */
  function EmbeddingDimension(c: Config): nat {
    if IsOpenAI(c.embeddingBinding) then 768 else OllamaEmbeddingDim
  }

  // ---------------------------------------------------------------------------
  // Endpoint URLs
  // ---------------------------------------------------------------------------

  const ChatSuffix := "/chat/completions"
  const EmbeddingsSuffix := "/embeddings"
  const ModelsSuffix := "/models"

  /** Append `suffix` unless the host already ends with it. */
  function WithSuffix(host: string, suffix: string): (url: string)
    ensures Text.EndsWith(url, suffix)
    ensures Text.EndsWith(host, suffix) ==> url == host
    ensures !Text.EndsWith(host, suffix) ==> url == host + suffix
  {
    if Text.EndsWith(host, suffix) then host else
      var url := host + suffix;
      assert url[|url| - |suffix|..] == suffix;
      url
  }

  /** The OpenAI-compatible chat endpoint (main.py line 176). */
  function ChatCompletionsUrl(host: string): string {
    WithSuffix(host, ChatSuffix)
  }

  /** The OpenAI-compatible embeddings endpoint (main.py line 206). */
  function EmbeddingsUrl(host: string): string {
    WithSuffix(host, EmbeddingsSuffix)
  }

  /** Suffixing is idempotent: a URL already built is used as it is. */
  lemma {:induction false} WithSuffixIdempotent(host: string, suffix: string)
    ensures WithSuffix(WithSuffix(host, suffix), suffix) == WithSuffix(host, suffix)
    ensures Text.StartsWith(WithSuffix(host, suffix), host)
  {
    var url := WithSuffix(host, suffix);
    assert url[..|host|] == host;
  }

  /** "/chat/completions" ends in the only `s` it contains, so it has no border. */
  lemma ChatSuffixBorderFree()
    ensures Text.BorderFree(ChatSuffix)
  {
    var p := ChatSuffix;
    forall k | 0 < k < |p| ensures p[..k] != p[|p| - k..] {
      assert p[..k][k - 1] == p[k - 1] != 's';
      assert p[|p| - k..][k - 1] == p[|p| - 1] == 's';
    }
  }

  /**
   The models endpoint used by the OpenAI-compatible health probe (main.py line 281): a
   chat-completions URL has every occurrence of that path replaced by `/models`, any
   other host gets `/models` appended. Either way the probe ends in `/models`.
   */
  function ModelsUrl(host: string): (url: string)
    ensures Text.EndsWith(url, ModelsSuffix)
    ensures !Text.EndsWith(host, ChatSuffix) ==> url == host + ModelsSuffix
  {
    if !Text.EndsWith(host, ChatSuffix) then
      var url := host + ModelsSuffix;
      assert url[|url| - |ModelsSuffix|..] == ModelsSuffix;
      url
    else
      ChatSuffixBorderFree();
      Text.ReplaceAllKeepsSuffix(host, ChatSuffix, ModelsSuffix);
      Text.ReplaceAll(host, ChatSuffix, ModelsSuffix)
  }

  /** The URL `/health` probes: the models list for OpenAI, the tag list otherwise. */
  function HealthProbeUrl(c: Config): string {
    if IsOpenAI(c.llmBinding) then ModelsUrl(c.llmHost) else c.llmHost + "/api/tags"
  }

  // ---------------------------------------------------------------------------
  // Local embedding function: per-text retry with linear backoff
  // ---------------------------------------------------------------------------

  const MaxRetries: nat := 3
  const RetryDelay: real := 1.0
  const OllamaEmbeddingDim: nat := 1024

  /**
   What one POST to the embedding endpoint came to: a body whose `embedding` has `dim`
   numbers (0 when it is missing or empty), a non-2xx status that `raise_for_status`
   turned into `HTTPStatusError`, or any other exception.
   */
  datatype Attempt = Vector(dim: nat) | HttpStatus(code: int) | Raised(message: string)

  /** A row of the returned matrix: the server's vector, or the zero fallback. */
  datatype Row = Embedded(dim: nat) | ZeroRow(dim: nat)

  /** A sleep of `seconds` taken after the attempt with index `afterAttempt`. */
  datatype Wait = Wait(afterAttempt: nat, seconds: real)

  /** Everything that happened for one text. */
  datatype TextTrace = TextTrace(attempts: nat, waits: seq<Wait>, row: Row)

  predicate Succeeds(a: Attempt) {
    a.Vector? && a.dim > 0
  }

  /** Outcomes after which the loop moves on to the next attempt, when one is left. */
  predicate Retryable(a: Attempt) {
    (a.Vector? && a.dim == 0) || (a.HttpStatus? && a.code >= 500) || a.Raised?
  }

  /** Outcomes after which the loop sleeps before the next attempt; an empty vector does not. */
  predicate Sleeps(a: Attempt) {
    (a.HttpStatus? && a.code >= 500) || a.Raised?
  }

  /** The backoff before the retry that follows attempt `k`: `retry_delay * (k + 1)`. */
  function Backoff(k: nat): real {
    RetryDelay * (k + 1) as real
  }

  /** Index of the last attempt made when searching from attempt `k`. */
  function LastAttempt(outs: seq<Attempt>, k: nat): (s: nat)
    requires |outs| == MaxRetries && k < MaxRetries
    ensures k <= s < MaxRetries
    ensures forall j :: k <= j < s ==> Retryable(outs[j])
    ensures s < MaxRetries - 1 ==> !Retryable(outs[s])
    decreases MaxRetries - k
  {
    if !Retryable(outs[k]) || k == MaxRetries - 1 then k else LastAttempt(outs, k + 1)
  }

  /** The row produced for a text: the server's vector if the last attempt got one, else zeros. */
  function RowOf(outs: seq<Attempt>): Row
    requires |outs| == MaxRetries
  {
    var last := outs[LastAttempt(outs, 0)];
    if Succeeds(last) then Embedded(last.dim) else ZeroRow(OllamaEmbeddingDim)
  }

  /**
   The retry loop for one text (main.py lines 71-109), given the outcome each of the three
   possible attempts would have. Attempts stop at the first vector, at the first status
   below 500, or after the third attempt; each sleep after attempt `k` lasts
   `1.0 * (k + 1)` seconds, and a text that never got a vector gets a 1024-wide zero row.
   */
  method EmbedText(outs: seq<Attempt>) returns (t: TextTrace)
    requires |outs| == MaxRetries
    ensures 1 <= t.attempts <= MaxRetries
    ensures t.attempts == LastAttempt(outs, 0) + 1
    ensures forall k :: 0 <= k < t.attempts - 1 ==> Retryable(outs[k])
    ensures t.attempts < MaxRetries ==> (Succeeds(outs[t.attempts - 1]) ||
      (outs[t.attempts - 1].HttpStatus? && outs[t.attempts - 1].code < 500))
    ensures t.row == RowOf(outs)
    ensures t.row.Embedded? <==> Succeeds(outs[t.attempts - 1])
    ensures t.row.ZeroRow? ==> t.row.dim == OllamaEmbeddingDim
    ensures forall w :: w in t.waits ==>
      w.afterAttempt < t.attempts - 1 && Sleeps(outs[w.afterAttempt]) && w.seconds == Backoff(w.afterAttempt)
    ensures forall k :: 0 <= k < t.attempts - 1 && Sleeps(outs[k]) ==> Wait(k, Backoff(k)) in t.waits
    ensures forall p, q :: 0 <= p < q < |t.waits| ==> t.waits[p].afterAttempt < t.waits[q].afterAttempt
  {
    var attempt: nat := 0;
    var done := false;
    var waits: seq<Wait> := [];
    var row := ZeroRow(OllamaEmbeddingDim);
    while !done
      invariant attempt <= MaxRetries
      invariant !done ==> attempt < MaxRetries && LastAttempt(outs, 0) == LastAttempt(outs, attempt)
      invariant !done ==> forall k :: 0 <= k < attempt ==> Retryable(outs[k])
      invariant !done ==> row == ZeroRow(OllamaEmbeddingDim)
      invariant done ==> attempt >= 1 && LastAttempt(outs, 0) == attempt - 1 && row == RowOf(outs)
      invariant forall w :: w in waits ==>
        w.afterAttempt < attempt && Sleeps(outs[w.afterAttempt]) && w.seconds == Backoff(w.afterAttempt)
        && w.afterAttempt < MaxRetries - 1
      invariant forall k :: 0 <= k < attempt && k < MaxRetries - 1 && Sleeps(outs[k]) ==> Wait(k, Backoff(k)) in waits
      invariant forall p, q :: 0 <= p < q < |waits| ==> waits[p].afterAttempt < waits[q].afterAttempt
      decreases MaxRetries - attempt, !done
    {
      var a := outs[attempt];
      if Succeeds(a) {
        // a non-empty vector: keep it and stop
        row := Embedded(a.dim);
        done := true;
      } else if !Retryable(a) || attempt == MaxRetries - 1 {
        // a status below 500, or the third attempt failed: `break`, or the loop runs out
        done := true;
      } else if Sleeps(a) {
        // a 5xx status or another exception before the last attempt: sleep, then retry
        waits := waits + [Wait(attempt, Backoff(attempt))];
      }
      attempt := attempt + 1;
    }
    t := TextTrace(attempt, waits, row);
  }

  /** The matrix handed back to LightRAG: one row per text, all of one width. */
  datatype Matrix = Matrix(rows: seq<Row>, width: nat)

  /** `np.array(rows, dtype=float32)` rejects rows of different widths with `ValueError`. */
  datatype EmbedError = RaggedRows

  function RowDim(r: Row): nat {
    match r
    case Embedded(d) => d
    case ZeroRow(d) => d
  }

  /** Two texts end with rows of different widths. */
  predicate RaggedOutcomes(outcomes: seq<seq<Attempt>>)
    requires forall i :: 0 <= i < |outcomes| ==> |outcomes[i]| == MaxRetries
  {
    exists i, j :: 0 <= i < j < |outcomes| && RowDim(RowOf(outcomes[i])) != RowDim(RowOf(outcomes[j]))
  }

  /**
   The whole embedding call for a batch of texts: each text's retry loop in order, then
   the rows stacked into one matrix; an empty batch gives the empty `(0, 1024)` matrix.
   */
  method EmbedAll(outcomes: seq<seq<Attempt>>) returns (r: Result<Matrix, EmbedError>)
    requires forall i :: 0 <= i < |outcomes| ==> |outcomes[i]| == MaxRetries
    ensures |outcomes| == 0 ==> r == Success(Matrix([], OllamaEmbeddingDim))
    ensures r.Success? ==> |r.value.rows| == |outcomes|
    ensures r.Success? ==> forall i :: 0 <= i < |outcomes| ==>
      r.value.rows[i] == RowOf(outcomes[i]) && RowDim(r.value.rows[i]) == r.value.width
    ensures r.Failure? <==> RaggedOutcomes(outcomes)
  {
    var rows: seq<Row> := [];
    var i := 0;
    while i < |outcomes|
      invariant 0 <= i <= |outcomes|
      invariant |rows| == i
      invariant forall j :: 0 <= j < i ==> rows[j] == RowOf(outcomes[j])
    {
      var t := EmbedText(outcomes[i]);
      rows := rows + [t.row];
      i := i + 1;
    }
    if |rows| == 0 {
      return Success(Matrix([], OllamaEmbeddingDim));
    }
    var width := RowDim(rows[0]);
    var k := 1;
    while k < |rows|
      invariant 1 <= k <= |rows|
      invariant forall j :: 0 <= j < k ==> RowDim(rows[j]) == width
    {
      if RowDim(rows[k]) != width {
        assert RowDim(RowOf(outcomes[0])) != RowDim(RowOf(outcomes[k]));
        return Failure(RaggedRows);
      }
      k := k + 1;
    }
    return Success(Matrix(rows, width));
  }

  /**
   The binding picks the endpoints and the declared width (main.py lines 176, 228-249 and
   277-284): an OpenAI-compatible chat binding posts to a `/chat/completions` URL and is
   probed at `/models` on the same host, the local one is probed at `/api/tags`; an
   OpenAI-compatible embedding binding posts to an `/embeddings` URL on its host; the
   declared embedding width is 768 for an OpenAI-compatible embedding binding, and for
   the local one it is the width of the zero row a failed text falls back to.
   */
  lemma EndpointsFollowBinding(c: Config, outs: seq<Attempt>)
    requires |outs| == MaxRetries
    ensures IsOpenAI(c.llmBinding) ==>
      && Text.EndsWith(ChatCompletionsUrl(c.llmHost), ChatSuffix)
      && Text.StartsWith(ChatCompletionsUrl(c.llmHost), c.llmHost)
      && Text.EndsWith(HealthProbeUrl(c), ModelsSuffix)
    ensures IsOpenAI(c.llmBinding) && !Text.EndsWith(c.llmHost, ChatSuffix) ==>
      ChatCompletionsUrl(c.llmHost) == c.llmHost + ChatSuffix && HealthProbeUrl(c) == c.llmHost + ModelsSuffix
    ensures !IsOpenAI(c.llmBinding) ==> HealthProbeUrl(c) == c.llmHost + "/api/tags"
    ensures IsOpenAI(c.embeddingBinding) ==>
      && EmbeddingDimension(c) == 768
      && Text.EndsWith(EmbeddingsUrl(c.embeddingHost), EmbeddingsSuffix)
      && Text.StartsWith(EmbeddingsUrl(c.embeddingHost), c.embeddingHost)
    ensures !IsOpenAI(c.embeddingBinding) && RowOf(outs).ZeroRow? ==> RowDim(RowOf(outs)) == EmbeddingDimension(c)
  {
    WithSuffixIdempotent(c.llmHost, ChatSuffix);
    WithSuffixIdempotent(c.embeddingHost, EmbeddingsSuffix);
  }

  // ---------------------------------------------------------------------------
  // The unbound name in the local embedding URL
  // ---------------------------------------------------------------------------

  /**
   The URL of main.py line 78 as written: `OLLAMA_BASE_URL` is only ever the name of an
   environment variable, never a Python variable, so evaluating the f-string raises
   `NameError` whatever the configuration.
   */
  function OllamaEmbeddingsUrlAsWritten(c: Config): Result<string, string> {
    Failure("NameError: name 'OLLAMA_BASE_URL' is not defined")
  }

  /** The URL evidently intended: the configured embedding host. */
  function OllamaEmbeddingsUrl(c: Config): Result<string, string> {
    Success(c.embeddingHost + "/api/embeddings")
  }

  /**
   The outcomes the retry loop sees: when the URL cannot be built, every attempt raises
   before any request is sent, whatever the server would have answered.
   */
  function SeenOutcomes(url: Result<string, string>, server: seq<Attempt>): (outs: seq<Attempt>)
    requires |server| == MaxRetries
    ensures |outs| == MaxRetries
  {
    if url.Failure? then [Raised(url.error), Raised(url.error), Raised(url.error)] else server
  }

  /**
   As written, every text makes all three attempts, sleeps 1 s and 2 s, and ends as the
   zero row, however the embedding server would have answered.
   */
  lemma AsWrittenEmbeddingAlwaysZero(c: Config, server: seq<Attempt>)
    requires |server| == MaxRetries
    ensures var outs := SeenOutcomes(OllamaEmbeddingsUrlAsWritten(c), server);
      && LastAttempt(outs, 0) == MaxRetries - 1
      && RowOf(outs) == ZeroRow(OllamaEmbeddingDim)
      && forall k :: 0 <= k < MaxRetries - 1 ==> Sleeps(outs[k])
  {
  }

  /**
   With the configured host, the server's answers reach the retry loop unchanged, so a
   text whose first response carries a vector gets that vector after one attempt.
   */
  lemma IntendedEmbeddingUsesServer(c: Config, server: seq<Attempt>)
    requires |server| == MaxRetries
    ensures SeenOutcomes(OllamaEmbeddingsUrl(c), server) == server
    ensures Succeeds(server[0]) ==>
      LastAttempt(server, 0) == 0 && RowOf(server) == Embedded(server[0].dim)
  {
  }
}
