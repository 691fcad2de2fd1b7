# LightRAG API and GAFTA ingestion scripts in Dafny

This project models the core of a small retrieval-augmented-generation deployment for
GAFTA grain-trade documents. The core has two parts.

The FastAPI service (`lightrag_api/main.py`) is modelled for:

- the settings read from the environment;
- the choice between a local Ollama server and an OpenAI-compatible server, and the
  endpoint URLs built from the configured hosts;
- the per-text retry policy of the local embedding function;
- validation and the parameter merge of `/ingest` and `/query`;
- the status document of `/health`;
- the `/graph` endpoint's record mapping and its sanitiser. The sanitiser turns loose
  entity and relation dictionaries into a node list with distinct ids and an edge list
  whose endpoints are known ids.

The batch scripts are modelled for:

- converting the PDFs of a directory to text, page by page with a `--- Page k ---` marker
  per page. `convert_all_pdfs.py` does the whole directory and `convert_pdf_to_text.py`
  one file;
- ingesting the converted text files through the API, after a health check
  (`bulk_ingest.py`, `ingest_all_files.py`). The scripts' bookkeeping is modelled too:
  which files are converted or ingested, under which names and ids, how successes and
  failures are counted, and the exit code.

Python's semantics are modelled where they decide an outcome:

- `str.strip()` with the exact `str.isspace()` code points;
- `dict.get` chains, which test key presence, not truthiness;
- truthiness;
- unhashable ids in a `set`;
- `pathlib`'s `stem`, `suffix` and `with_suffix`;
- `raise_for_status`, which raises on any status that is not 2xx.

Inputs:

- The environment, the file system, the PDF library's per-page output and every HTTP
  reply are inputs to the model.
- A Python exception is a `Failure`, or an outcome that carries its message.

The modules, one per file, are:

- `Outcomes`, `Text`, `Records` and `Paths`: shared helpers;
- `Backends`, `ApiRequests` and `GraphView`: the service;
- `PdfText`, `ConvertAllPdfs` and `ConvertPdfToText`: conversion;
- `IngestClient`, `BulkIngest` and `IngestAllFiles`: ingestion.

## Model

| member | source | states |
|---|---|---|
| Records.FirstPresent | lightrag_api/main.py:455-458 | a nested `get` chain yields the value under the first listed key that is present, even a falsy one, and the default only when no key is present |
| Records.EarlierPresentKeyWins | lightrag_api/main.py:467-469 | a present key hides every key after it in the chain |
| GraphView.StorageEntityPrecedence | lightrag_api/main.py:455-458 | storage entities: `entity_name` supplies id and name; then `id`/`name`; then the key; a non-string key becomes `entity_<position>` as id and its `str()` as name; description is `entity_desc`, else `description`, else ""; type defaults to "entity" |
| GraphView.JsonEntityPrecedence | lightrag_api/main.py:523-537 | JSON dumps: `entity_name` wins for id and name; a keyed dump's id falls back to the key, its name to `name` and then the key; a listed dump's id falls back to `id` and then `entity_<i>`, its name to `name` and then `Entity <i>`; description is `entity_desc`, else `description`, else "" |
| GraphView.RelationFieldPrecedence | lightrag_api/main.py:467-470 | from/to/relation come from the first present key of head_entity/head/from, tail_entity/tail/to, relation_name/relation/relation_type, else "" |
| GraphView.CollectStorageEntities | lightrag_api/main.py:452-459 | at most `limit` entities come out, never more than there are storage items |
| GraphView.CollectStorageRelations | lightrag_api/main.py:464-471 | at most `limit` relations come out, never more than there are storage items |
| GraphView.SlicePrefixSpec | lightrag_api/main.py:452 | `items[:limit]` is a prefix of the items, of length `min(limit, n)` for a non-negative limit and `max(n + limit, 0)` for a negative one |
| GraphView.CollectFromMembers | lightrag_api/main.py:452-453 | a record comes out iff it is the one built for some dict item, at that item's position |
| GraphView.CollectFromAllDicts | lightrag_api/main.py:452-453 | when every item is a dict, exactly one record per item comes out, in storage order |
| GraphView.CollectFromNoDicts | lightrag_api/main.py:453 | when no item is a dict, nothing comes out |
| GraphView.CollectStorageEntitiesSpec | lightrag_api/main.py:446-459 | the entities are exactly those built from the dict items of `items[:limit]`, each with its own position; every other item is skipped |
| GraphView.CollectStorageEntitiesInOrder | lightrag_api/main.py:452-459 | a window of dicts gives one entity per item in storage order; a window without dicts gives none |
| GraphView.CollectStorageRelationsSpec | lightrag_api/main.py:461-471 | the relations are exactly those built from the dict items of `items[:limit]`, whatever their keys; a window of dicts gives one per item in order |
| GraphView.SanitiseNodes | lightrag_api/main.py:569-579 | fails exactly when some entity's `id or name` is unhashable, at the first such entity; otherwise one node per distinct key, built from the first entity with that key, in first-occurrence order, with ids equal to the set of keys |
| GraphView.FilterEdges | lightrag_api/main.py:581-590 | fails exactly when some relation endpoint is not a string, at the first such relation; otherwise keeps in input order exactly the relations whose stripped endpoints are non-empty known ids |
| GraphView.KeptEdgesWellFormed | lightrag_api/main.py:582-585 | every kept edge has stripped, non-empty endpoints that are known ids |
| GraphView.KeptEdgesComplete | lightrag_api/main.py:584-590 | an edge is emitted iff some relation yields it |
| GraphView.KeptEdgeHasSource | lightrag_api/main.py:584-590 | every emitted edge comes from some relation |
| GraphView.RelationEdgeIsKept | lightrag_api/main.py:584-590 | every relation that yields an edge has that edge emitted |
| GraphView.KeptEdgesPrefix | lightrag_api/main.py:581-590 | the edges of a prefix of the relations are a prefix of all edges (input order is kept) |
| GraphView.SanitiseGraph | lightrag_api/main.py:564-597 | succeeds iff both passes do; the counts equal the list lengths; node ids are distinct and every edge endpoint is a node id |
| Outcomes.Tally | convert_all_pdfs.py:97-137 | the counting loop ends with the number of successes and the rest as failures, so the two counts add up to the number of runs |
| Outcomes.AllSucceedIffCountFull | ingest_all_files.py:139-144 | the success count equals the number of runs iff every run succeeded (no failure was counted) |
| Text.StripSpec | lightrag_api/main.py:582-583 | `strip()` returns a contiguous slice with only whitespace cut off both ends, and the result neither starts nor ends with whitespace |
| Text.BlankIffAllSpace | lightrag_api/main.py:337 | `not s.strip()` holds iff every code point of `s` is whitespace |
| Text.ContainsIffOccurs | convert_all_pdfs.py:107 | substring `in` holds iff the keyword occurs at some offset |
| Text.ReplaceAllKeepsSuffix | lightrag_api/main.py:281 | replacing a border-free path that ends the URL leaves the replacement at the end |
| Text.AsciiLower | convert_all_pdfs.py:106 | lowering keeps length, maps A-Z to a-z and leaves every other code point unchanged |
| Backends.HostPrecedence | lightrag_api/main.py:48-57 | each host is its own variable when set, else `OLLAMA_BASE_URL`, else `http://ollama:11434`, chosen independently |
| Backends.WithSuffix | lightrag_api/main.py:206 | the URL always ends with the endpoint path, which is appended only when the host does not already end with it |
| Backends.WithSuffixIdempotent | lightrag_api/main.py:176 | suffixing a built URL again changes nothing, and the URL starts with the host |
| Backends.ModelsUrl | lightrag_api/main.py:281 | the OpenAI health probe always ends in `/models`; a host not ending in `/chat/completions` just gets `/models` appended |
| Backends.EndpointsFollowBinding | lightrag_api/main.py:176-284 | an OpenAI-compatible chat binding posts to a `/chat/completions` URL on its host and is probed at `/models` there, the local one at `/api/tags`; an OpenAI-compatible embedding binding posts to an `/embeddings` URL on its host; the declared embedding width is 768 for OpenAI and, for the local binding, the width of the zero row a failed text falls back to |
| Backends.LastAttempt | lightrag_api/main.py:75-104 | the last attempt is the first non-retryable one, or the third; every earlier one was retryable |
| Backends.EmbedText | lightrag_api/main.py:71-109 | at most 3 attempts; stops at the first vector or the first status below 500; sleeps `1.0*(k+1)` s after a failed attempt k that is not the last, but not after an empty vector; a text without a vector gets a 1024-wide zero row |
| Backends.EmbedAll | lightrag_api/main.py:65-115 | one row per text, in order; an empty batch gives the empty 1024-wide matrix; rows of different widths are the `ValueError` |
| Backends.AsWrittenEmbeddingAlwaysZero | lightrag_api/main.py:78 | with the unbound name, every text makes three attempts, sleeps after the first two and ends as the zero row |
| Backends.IntendedEmbeddingUsesServer | lightrag_api/main.py:77-87 | with the configured host the server's answers reach the loop, and a first vector is used after one attempt |
| ApiRequests.EmptyFieldIffAllSpace | lightrag_api/main.py:337-340 | the `not s or not s.strip()` test holds iff `s` is all whitespace |
| ApiRequests.Ingest | lightrag_api/main.py:326-351 | start-up failure is a 500 "Failed to initialize LightRAG: " with message and traceback; blank text gives a 400 before a blank doc_id does; an insert exception is a 500 "Failed to ingest document: " with its message; success iff both are non-blank and the insert returns, reporting the id and `len(text)` |
| ApiRequests.Query | lightrag_api/main.py:354-428 | start-up failure is a 500; a blank query gives a 400 before an unknown mode does; an engine exception is a 500 "Failed to process query: " with message and traceback; success iff the query is non-blank, the mode is one of the four, and the engine answers; the answer echoes query, mode and merged parameters |
| ApiRequests.MergeOverridesUnlessNone | lightrag_api/main.py:377-397 | each of the seven user values (both top-k's, chunk top-k, the three cosines, rerank) replaces its default iff it is not None (0 and False included); no values gives the defaults 20/0.2/20/0.2/10/0.2/False |
| ApiRequests.UnusedTuningHasNoEffect | lightrag_api/main.py:399-405 | the edge top-k and the three cosine values never change the parameters passed to the engine |
| ApiRequests.HealthBody | lightrag_api/main.py:273-305 | the status document has exactly the seven keys, plus `backend_error` when the probe did not answer 200; it never has an "ollama" key |
| Paths.Basename | bulk_ingest.py:64 | the base name holds no separator |
| Paths.Suffix | ingest_all_files.py:47 | a suffix is empty or a dot followed by at least one non-dot character |
| Paths.StemThenSuffix | ingest_all_files.py:47 | stem followed by suffix is the name, and a non-empty name has a non-empty stem |
| Paths.AppendedSuffix | convert_all_pdfs.py:116 | a non-empty name with `.pdf` appended has `.pdf` as suffix and the name as stem |
| Paths.WithSuffix | convert_pdf_to_text.py:77 | fails iff the name is empty; otherwise keeps the directory and gives the stem plus the new suffix as name |
| Paths.WithSuffixIdempotent | convert_pdf_to_text.py:77 | the result carries the new suffix and the old stem, and replacing the suffix again changes nothing |
| PdfText.ExtractPlumber | convert_all_pdfs.py:41-50 | the pdfplumber loop builds the marker-plus-text assembly, and its result is never blank once there is a page |
| PdfText.ExtractPyPdf | convert_all_pdfs.py:30-38 | the PyPDF2 loop fails iff some page yields None, and it computes the same page-by-page assembly as the recursive definition |
| PdfText.LibrariesAgree | convert_pdf_to_text.py:26-46 | whenever PyPDF2 succeeds, both libraries give the same text |
| PdfText.MarkersAreNotBlank | convert_all_pdfs.py:64 | a PDF with at least one page never yields blank text, because the markers are not whitespace |
| PdfText.PageTextBlankIffNothingExtracted | convert_all_pdfs.py:64 | the pages' own text is blank iff no page yields a visible character |
| PdfText.FindsNoTextSpec | convert_pdf_to_text.py:70-73 | the check as written fires only for a PDF without pages; the intended check fires iff nothing was extracted |
| ConvertAllPdfs.ConvertPdfWith | convert_all_pdfs.py:53-73 | a missing file is "File not found: <path>"; a read exception is its message; success iff read, extracted, text found and written, with message "Extracted <len> characters"; a success writes the extracted text to the output path and a failure writes nothing |
| ConvertAllPdfs.ConvertPdfAsWritten | convert_all_pdfs.py:64 | as written, any readable PDF with a page has its text written and is reported as a success |
| ConvertAllPdfs.ConvertPdf | convert_all_pdfs.py:64-65 | with the intended check, a PDF whose pages yield nothing visible fails with the image-based message and writes nothing |
| ConvertAllPdfs.ScannedPageCounterexample | convert_all_pdfs.py:64 | a one-page scanned PDF is "Extracted 16 characters", its page marker written out, as written, and refused with nothing written as intended |
| ConvertAllPdfs.ScannedPageFacts | convert_all_pdfs.py:41-64 | pdfplumber's text for a scanned page is the 16-character page marker, and no page yields a visible character |
| ConvertAllPdfs.Partition | convert_all_pdfs.py:101-110 | contracts are the listed PDFs whose lower-cased name has no keyword, in listing order; the defaulters PDF is the last listed match |
| ConvertAllPdfs.PartitionSound | convert_all_pdfs.py:105-110 | every contract is a listed PDF without a keyword; the defaulters PDF is a listed match; contracts plus keyword matches account for every PDF once; a defaulters PDF exists iff some name matches |
| ConvertAllPdfs.DroppedDefaultersPdfs | convert_all_pdfs.py:127-137 | only one keyword-named PDF is converted; all earlier matches are neither converted nor counted |
| ConvertAllPdfs.ContractOutputsDistinct | convert_all_pdfs.py:116 | distinct `<base>.pdf` names get distinct output files |
| ConvertAllPdfs.Jobs | convert_all_pdfs.py:113-137 | one conversion per contract plus one for a defaulters PDF |
| ConvertAllPdfs.ConvertAll | convert_all_pdfs.py:76-155 | for either blank check: no PDFs gives exit 1 with nothing converted or written; otherwise every job runs once in order against its output path; successes plus failures equal the jobs; exit 0 iff nothing failed; the files written are those of the successful jobs |
| ConvertAllPdfs.WritesMatchSuccesses | convert_all_pdfs.py:66-70 | one file is written per successful conversion, each to the output path of a job |
| ConvertAllPdfs.ShortNameIsContract | convert_all_pdfs.py:106-107 | a name shorter than every keyword is never taken for the defaulters list |
| ConvertAllPdfs.ScannedBatchExitCodes | convert_all_pdfs.py:64-155 | for a directory holding one scanned single-page PDF, the script as written exits 0 having written the page marker, while the intended check exits 1 having written nothing |
| ConvertPdfToText.ConvertWith | convert_pdf_to_text.py:49-89 | missing file iff "not found"; success iff read, extracted, text found, output path obtainable and written; the text goes to the given path or to the `.txt` sibling |
| ConvertPdfToText.Convert | convert_pdf_to_text.py:70-73 | with the intended check, a PDF that yields nothing visible is refused, and a success always had visible text |
| ConvertPdfToText.AsWrittenNeverFindsNoText | convert_pdf_to_text.py:70-73 | as written, a readable PDF with a page is never refused for lack of text |
| ConvertPdfToText.CommandLine | convert_pdf_to_text.py:92-104 | for either blank check: fewer than two arguments exits 1; otherwise exit 0 iff the PDF reads, extraction succeeds, text is found, an output path is given or derivable and the write succeeds; a readable PDF with pages but no visible text exits 0 with the check as written and 1 with the intended one |
| ConvertPdfToText.DefaultOutputBesideThePdf | convert_pdf_to_text.py:76-77 | the default output has the PDF's directory and stem, with suffix `.txt` |
| IngestClient.AsWrittenHealthNeverPasses | bulk_ingest.py:28 | reading the "ollama" key, the health check fails for every status document the server sends |
| IngestClient.IntendedHealthMatchesServer | ingest_all_files.py:25 | reading the server's "backend" key, the check passes iff the backend answered 200 and the engine is initialised |
| IngestClient.PostedRequest | ingest_all_files.py:34-52 | a file is posted iff it exists, reads, and is not all whitespace; it is posted with its full text and the given or default id |
| IngestClient.IngestFile | ingest_all_files.py:32-64 | each pre-check failure has its message; success iff the file is posted and the reply is 200 with a JSON object; a timeout and a non-200 status have their messages |
| IngestClient.RunJobs | ingest_all_files.py:107-131 | every file once, in order; successes plus failures equal the files; only non-blank texts reach the server |
| IngestClient.PostedAreNotBlank | ingest_all_files.py:43-52 | no request the scripts post carries text that is all whitespace |
| IngestClient.ClientSkipsWhatServerRefuses | bulk_ingest.py:58-60 | the client skips a file as empty iff the server would refuse its text as empty |
| IngestClient.EndToEndIngest | ingest_all_files.py:56-58 | a posted file succeeds iff the server ingests it, and the message reports the text's length |
| BulkIngest.ArgumentsSelectInputs | bulk_ingest.py:109-150 | with no arguments both defaults `./gafta_contracts` and `./defaulters_list.txt` apply; arguments after the second are ignored; the run takes, in order, the listing of the directory named first (nothing when absent) and then the file named second (when it exists) |
| BulkIngest.RunScript | bulk_ingest.py:91-159 | an unhealthy API exits 1 with nothing read; otherwise every job runs once; exit 1 iff something failed |
| BulkIngest.JobIds | bulk_ingest.py:122-150 | contract files are posted under their base names and the defaulters list last, as `gafta_defaulters_2023` |
| IngestAllFiles.Jobs | ingest_all_files.py:89 | there is one job per contract file plus one for an existing defaulters file |
| IngestAllFiles.RunScript | ingest_all_files.py:67-145 | an unhealthy API or no files exits 1 with nothing posted; otherwise every file is ingested once; exit 0 iff nothing failed |
| IngestAllFiles.JobIds | ingest_all_files.py:107-131 | contract files are posted under their stems in listing order, and the defaulters file last as `gafta_defaulters` |

## Left out

Service (`lightrag_api/main.py`):

- The HTTP transport, FastAPI routing, CORS and static files: out of scope.
- The LightRAG engine itself (construction, `insert`, `query`, `initialize_storages`).
  Each call is an outcome given as input.
- The chat functions (lines 118-197). They are calls into a model server. The Ollama one
  hits the same unbound `OLLAMA_BASE_URL` at line 135. Its `except` turns that into an
  empty answer, so every Ollama chat answer is `""`.
- The body of the OpenAI embedding function (lines 200-225). It is one request whose
  rows come from the server, with a zero matrix on any error. Only its URL (line 206) is
  modelled.
- `MAX_TOKENS` (line 58) and `os.makedirs` (line 60): a request field and a side effect.
- The `/graph` endpoint's choice among engine storage, the GraphML file and the JSON
  dumps. Also the partial results an exception in that block leaves behind (lines
  446-562), the GraphML reading itself (475-512), and `/graph/query`. These are foreign
  parsers and engine attributes. The per-record mappings are modelled, and so are the
  storage entity and relation collections and the sanitiser.
- The `hasattr` and truthiness tests on the engine's storages (lines 449-451, 461-463).
  A storage is given as its list of items, and one that is absent or empty gives none.
- Floating point: embedding values and the real-valued thresholds. Vectors are their
  widths, and the thresholds are `real`.
- `asyncio.sleep` and timeouts: a wait is recorded as its length.
- Concurrency between requests.

Scripts:

- `print` output. Only the returned values, counters, exit codes and written files are
  modelled.
- A write that raises part-way: a conversion whose write fails is recorded as writing
  nothing, though the script may leave an empty or partial file behind.
- `mkdir` of the contracts directory (convert_all_pdfs.py line 99): a side effect.
- `time.sleep(1)` between ingestions.
- Import-time library selection: the library is a parameter.
- The sorting of directory listings: a listing is taken in the order the script sees it.
- Path normalisation by `pathlib` (`./x` becomes `x`, trailing separators are dropped):
  paths are taken already normalised.
- IngestClient.Show: `str()` of a list or dict `text_length` is not rendered. A JSON
  `true`/`false` shows as `1`/`0` rather than `True`/`False`, because `Value` holds a bool
  as the number Python treats it as. A JSON float has no `Value` at all.
- `str.lower()` beyond ASCII. For the keywords and "openai" this is exact: the only
  non-ASCII code points that lower to ASCII are U+212A (to `k`, in no keyword) and U+0130
  (to `i` plus a combining dot, which breaks any match).
- The `requests` and `json` libraries: replies are given as status, body text and parsed
  body.

## Findings

| source | as written | input that shows it | evidently intended | confidence | as-written member | corrected member |
|---|---|---|---|---|---|---|
| bulk_ingest.py:28 | both scripts' health check (also ingest_all_files.py:25) reads the key "ollama", which `/health` (main.py:294-302) never sends, so both scripts always exit 1 before ingesting | the server's own reply `{"api": "healthy", "backend": "healthy", "lightrag_initialized": true, ...}` | read the "backend" key | not executed | IngestClient.AsWrittenHealthNeverPasses | IngestClient.IntendedHealthMatchesServer |
| lightrag_api/main.py:78 | the f-string uses `OLLAMA_BASE_URL`, a name bound nowhere, so each attempt raises `NameError` | any text with the default Ollama embedding binding: three attempts, 1 s and 2 s of sleep, then a 1024-wide zero row | the configured embedding host `EMBEDDING_BINDING_HOST` | not executed | Backends.AsWrittenEmbeddingAlwaysZero | Backends.IntendedEmbeddingUsesServer |
| convert_all_pdfs.py:64 | both converters (also convert_pdf_to_text.py:70) test for blank text after adding page markers, which are never blank, so an image-only PDF is written out as a success | a one-page scanned PDF whose page yields no text: `"\n--- Page 1 ---\n"` is written and reported as "Extracted 16 characters" | refuse when no page yielded visible text | not executed | ConvertAllPdfs.ScannedPageCounterexample | ConvertAllPdfs.ConvertPdf |

In the model:

- The batch and single-file converters take the blank check as a parameter:
  `OnAssembledText` is the code as written and `OnPageText` the corrected check. Their
  contracts hold for either. `ConvertAllPdfs.ScannedBatchExitCodes` and the last clause
  of `ConvertPdfToText.CommandLine` show where the two part.
- The ingestion scripts take the health key as a parameter. Their contracts hold for
  either key.
- The embedding retry loop is stated for the replies that reach it. With the intended
  URL, these are the server's replies.
