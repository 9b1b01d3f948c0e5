# Proposal automation: a verified model of its core

The system answers requests for proposals (RFPs). An uploaded RFP PDF goes
through an eight-stage workflow graph:

1. extract the PDF;
2. enrich the text with metadata an LLM extracts;
3. retrieve similar past proposals;
4. summarise the tables;
5. generate a proposal;
6. optimise its tone;
7. check compliance, which loops back to tone optimisation until the
   report has no ❌ or two optimisations have been made;
8. score the proposal and upsert it into the vector store once per run.

Around the graph there are:

- a registry of background pipeline runs behind the upload, poll and reset
  endpoints;
- a one-slot conversation memory behind the generate, refine, store and
  read endpoints;
- an agent status file with its audit log;
- LLM token accounting;
- the document chunker of the indexing script;
- two pure helpers of the Streamlit front end.

This project models each of these as Dafny, one module per source file:

- `AgenticPipeline` models `backend/agentic_pipeline.py`.
- `LlmUtils` models `backend/llm_utils.py`.
- `AgentStatusTracker` models `backend/agent_status_tracker.py`.
- `StoreInPinecone` models `backend/store_in_pinecone.py`.
- `RfpRoutes` models `routes/rfp_routes.py`.
- `ProposalRoutes` models `routes/proposal_routes.py`.
- `StreamlitApp` models `frontend/streamlit_app.py`.
- `Text`, `Values` and `Wrappers` hold the Python string operations, JSON
  values and `Option`/`Result` the modules share.

How the source is mapped:

- The state the source mutates becomes classes with `modifies` clauses:
  - the status and log files (`StatusStore`);
  - the token tally (`LlmAccounting`);
  - `active_pipelines` (`PipelineRegistry`);
  - `conversation_memory` (`ConversationMemory`).
- Loops become methods proved equal to a specification function:
  - the merge loop of `extract_rfp_metadata`;
  - the table-summary loop;
  - the graph runtime's stage loop;
  - the chunker;
  - the document builder.
- Every LLM call, the PDF parser, the vector-store search and the upsert is
  an opaque collaborator, a field of `AgenticPipeline.Collaborators`. All of
  them may return `Err` except the search: `retrieve_similar_docs` catches
  its own exceptions and returns a list.
- A raised exception is `Err(message)`, where `message` is Python's
  `str(e)`. A missing key gives `"'key'"`.

Facts about the source that the model proves:

- A run makes at most two tone optimisations.
- The run's trace is a prefix of the five preamble stages followed by one or
  two optimise/check passes.
- A proposal that is never compliant is scored after exactly two passes.
- The final upsert happens at most once.
- `generate_proposal` can never succeed, because it starts the graph
  without `rfp_path`.

## Model

| member | source | states |
|---|---|---|
| Text.Split | backend/store_in_pinecone.py:104 | `s.split(c)` yields at least one piece and no piece contains `c` |
| Text.JoinSplit | backend/store_in_pinecone.py:104-107 | joining the pieces of `s.split(c)` with `c` gives `s` back |
| Text.SplitJoin | backend/store_in_pinecone.py:104-107 | splitting `c.join(parts)` at `c` gives the parts back when none holds `c` |
| Text.SplitCount | backend/store_in_pinecone.py:104 | `s.split(c)` has one more piece than `s` has occurrences of `c` |
| Text.JoinEmpty | frontend/streamlit_app.py:142-144 | a join of non-empty parts is empty exactly when there are no parts |
| Text.StripEmpty | routes/proposal_routes.py:33-35 | `s.strip()` is empty exactly when every character of `s` is whitespace |
| Text.StripInside | frontend/streamlit_app.py:143 | stripping never introduces a character the text did not hold |
| Text.TrimStartIsSuffix | routes/proposal_routes.py:33 | stripping the front leaves a suffix of the text |
| Text.TrimEndIsPrefix | routes/proposal_routes.py:33 | stripping the back leaves a prefix of the text |
| Text.NatToStringInjective | backend/llm_utils.py:180 | distinct reference numbers print differently |
| LlmUtils.RemoveUnsupportedUnicode | backend/llm_utils.py:94-95 | the result holds only Latin-1 characters and is no longer than the input |
| LlmUtils.RemoveUnsupportedUnicodeMembers | backend/llm_utils.py:94-95 | a character survives exactly when it occurs in the input and is Latin-1 |
| LlmUtils.RemoveUnsupportedUnicodeKeepsLatin1 | backend/llm_utils.py:94-95 | a Latin-1 text is returned unchanged |
| LlmUtils.RemoveUnsupportedUnicodeIdempotent | backend/llm_utils.py:94-95 | filtering twice is filtering once |
| LlmUtils.RemoveUnsupportedUnicodeAppend | backend/llm_utils.py:94-95 | the filter works character by character and distributes over concatenation |
| LlmUtils.Defaults | backend/llm_utils.py:125-129 | the seven keys and their defaults (`generic`, `global`, empty strings, empty lists) |
| LlmUtils.MergeStep | backend/llm_utils.py:161-165 | raises exactly when the answer is a list and the current value is missing or not a list; otherwise a list extends the current list, another truthy value overwrites it, and a falsy value changes nothing |
| LlmUtils.MergeAll | backend/llm_utils.py:159-167 | the merged dictionary keeps every default key and adds only keys of the answer |
| LlmUtils.Distinct | backend/llm_utils.py:170-171 | deduplication keeps exactly the same members, without repeats |
| LlmUtils.SetToList | backend/llm_utils.py:170-171 | `list(set(v))` is a repeat-free list of `v`'s members; it raises exactly when a list member is unhashable or `v` is not iterable |
| LlmUtils.ExtractRfpMetadata | backend/llm_utils.py:123-172 | the merge loop and dedupe compute `ExtractedMetadata` |
| LlmUtils.MetadataParseFailure | backend/llm_utils.py:159-167 | an unparsable answer yields exactly the defaults |
| LlmUtils.MetadataShape | backend/llm_utils.py:159-172 | the result has every default key; the two list keys are repeat-free with the merged members; other keys are the merged values |
| LlmUtils.MetadataFailsOnlyOnDedupe | backend/llm_utils.py:159-172 | the function raises only from the dedupe, never from the merge loop |
| LlmUtils.MergeSkipsFalsy | backend/llm_utils.py:164-165 | falsy non-list answers change nothing |
| LlmUtils.MergeKeepsUnnamed | backend/llm_utils.py:161-165 | a key the answer does not name keeps its value |
| LlmUtils.MergeExtendsList | backend/llm_utils.py:162-163 | a list answer extends the current list |
| LlmUtils.MergeOverwrites | backend/llm_utils.py:164-165 | any other truthy answer overwrites the current value |
| LlmUtils.WithUsage | backend/llm_utils.py:53-58 | fresh plus cached prompt tokens grow by `prompt_tokens`; each counter grows by its own key (0 when absent); embeddings are untouched |
| LlmUtils.EmbeddingTokens | backend/llm_utils.py:67 | `prompt_tokens` when present, else `total_tokens`, else 0 |
| LlmUtils.WithEmbeddingUsage | backend/llm_utils.py:62-68 | only the embeddings counter changes, by `EmbeddingTokens` |
| LlmUtils.WithUsagesTotals | backend/llm_utils.py:53-58 | after any sequence of calls, each counter is its start plus the sum of its key over the calls |
| LlmUtils.WithUsageCommutes | backend/llm_utils.py:53-58 | the order of two recorded calls does not matter |
| LlmUtils.LlmAccounting.constructor | backend/llm_utils.py:17-27 | counters and call count start at zero |
| LlmUtils.LlmAccounting.RecordUsage | backend/llm_utils.py:53-60 | the tally becomes `WithUsage` of the old tally; the call count is unchanged |
| LlmUtils.LlmAccounting.RecordEmbeddingUsage | backend/llm_utils.py:62-70 | the tally becomes `WithEmbeddingUsage` of the old tally |
| LlmUtils.LlmAccounting.ResetUsageCount | routes/rfp_routes.py:45-46 | the call count becomes 0 and the token tally is kept |
| LlmUtils.ReferenceEntries | backend/llm_utils.py:180-181 | one entry per retrieved document, in order, the i-th labelled `Reference i+1` |
| LlmUtils.ReferencesBlockFallback | backend/llm_utils.py:180-182 | the "No similar documents found." fallback appears exactly when there are no documents |
| LlmUtils.ReferencesBlockLists | backend/llm_utils.py:180-181 | otherwise the block is the entries `Reference i+1` joined by blank lines |
| AgentStatusTracker.PendingStatus | backend/agent_status_tracker.py:11-25 | a reset writes exactly the six agents, each pending with no timestamp |
| AgentStatusTracker.Updated | backend/agent_status_tracker.py:29-32 | an update sets one label (adding it if new) and leaves the others; a missing file is reset first |
| AgentStatusTracker.UpdateAddsUnknownLabel | backend/agent_status_tracker.py:11-32 | updating "Table Summarizer" after a reset leaves seven entries, since that label is not among the six |
| AgentStatusTracker.AuditLineAddsOneLine | backend/agent_status_tracker.py:34-35 | every update appends exactly one line to the log |
| AgentStatusTracker.StatusStore.ResetStatus | backend/agent_status_tracker.py:20-25 | the status file holds the pending map; the log is untouched |
| AgentStatusTracker.StatusStore.UpdateStatus | backend/agent_status_tracker.py:27-35 | the status becomes `Updated` of the old one and the log gains `AuditLine` |
| AgentStatusTracker.StatusStore.GetStatus | backend/agent_status_tracker.py:37-40 | the reply is the file's map, or a freshly written pending map when there is no file |
| AgentStatusTracker.StatusStore.GetLog | backend/agent_status_tracker.py:42-43 | the log text, or "No logs yet." when there is no log file |
| AgenticPipeline.ExtractPdfNode | backend/agentic_pipeline.py:39-57 | fails with `'rfp_path'` or the parser's error; otherwise sets text, tables and OCR text and resets both counters, changing nothing else |
| AgenticPipeline.Head | backend/llm_utils.py:137 | `text[:n]` is a prefix of length `min(len, n)` |
| AgenticPipeline.EnrichRfpNode | backend/agentic_pipeline.py:59-72 | the model is asked about the first 5000 characters of the stripped text; its error, or the dedupe's error, is the stage's error; otherwise the metadata is `ExtractedMetadata` of the answer, and the text, metadata and the four looked-up keys (with their defaults) are set; nothing else changes |
| AgenticPipeline.EnrichedMetadataShape | backend/agentic_pipeline.py:61-72 | the stored metadata always has the seven default keys, and the constraints and client needs copied into the state are repeat-free lists |
| AgenticPipeline.RetrieveDocsNode | backend/agentic_pipeline.py:74-78 | fails exactly when `rfp_text` is missing; otherwise stores the top-3 documents |
| AgenticPipeline.Summaries | backend/agentic_pipeline.py:86-93 | one entry per table in order, each `📊 Table` + markdown + summary; fails exactly when some table's summary fails |
| AgenticPipeline.TableSummaryNode | backend/agentic_pipeline.py:80-97 | no tables leaves the state as it is; otherwise only `summarized_tables` changes |
| AgenticPipeline.SummarizeTablesStep | backend/agentic_pipeline.py:80-97 | the loop computes `TableSummaryNode` |
| AgenticPipeline.SummariesFirstErr | backend/agentic_pipeline.py:87-92 | the loop stops with the first failing table's error |
| AgenticPipeline.MarkdownLines | backend/agentic_pipeline.py:88-91 | the markdown splits back into one line per non-empty row |
| AgenticPipeline.RowLinesSkipEmpty | backend/agentic_pipeline.py:90 | empty rows contribute no line |
| AgenticPipeline.GenerateProposalNode | backend/agentic_pipeline.py:99-107 | fails on missing `rfp_text` or `retrieved_docs`, then with the model's error; otherwise only `proposal` changes, to the model's draft |
| AgenticPipeline.OptimizeToneNode | backend/agentic_pipeline.py:109-121 | fails on missing `proposal`, then with the model's error; otherwise only the proposal (the model's rewrite) and the attempt count (+1) change |
| AgenticPipeline.CheckComplianceNode | backend/agentic_pipeline.py:123-129 | fails on missing `rfp_text`, then `proposal`, then with the checker's error; otherwise stores the checker's report and `compliance_passed` = no ❌ in it; nothing else changes |
| AgenticPipeline.ComplianceCondition | backend/agentic_pipeline.py:131-136 | score when compliant; otherwise score exactly when 2 or more attempts were made, else optimise again |
| AgenticPipeline.ScoreProposalNode | backend/agentic_pipeline.py:138-155 | fails on missing `proposal`, then with the scorer's error, then (if not yet indexed) with the upsert's error; otherwise stores the scorer's report and the import-time call count 0, upserts the proposal only if not yet indexed, and sets the indexed flag |
| AgenticPipeline.ScoreTwiceIndexesOnce | backend/agentic_pipeline.py:142-146 | scoring twice upserts at most once |
| AgenticPipeline.Step | backend/agentic_pipeline.py:39-155 | only Extract resets and only Optimize increments the attempt count; only Score upserts or sets the indexed flag |
| AgenticPipeline.NextFollowsEdges | backend/agentic_pipeline.py:168-180 | every transition is an edge of the graph; only Score ends; only Check Compliance depends on the state |
| AgenticPipeline.Walk | backend/agentic_pipeline.py:168-182 | a run's trace starts at the stage it was started from |
| AgenticPipeline.RunStage | backend/agentic_pipeline.py:159-166 | running one node is `Step` |
| AgenticPipeline.ResumeStep | backend/agentic_pipeline.py:168-180 | one runtime step preserves the outcome and lowers the rank (the run terminates) |
| AgenticPipeline.Invoke | backend/agentic_pipeline.py:182 | the runtime loop computes `Run` |
| AgenticPipeline.RunReachesLoop | backend/agentic_pipeline.py:168-173 | either the run fails inside the five-stage preamble with no upsert, or it enters the loop with 0 attempts after exactly the preamble |
| AgenticPipeline.FirstPass | backend/agentic_pipeline.py:131-136 | from 0 attempts the loop makes one or two passes and ends with 1 or 2 attempts |
| AgenticPipeline.SecondPass | backend/agentic_pipeline.py:134-135 | from 1 attempt the loop makes exactly one more pass |
| AgenticPipeline.RunShape | backend/agentic_pipeline.py:168-180 | the trace is a prefix of preamble + one or two passes; a successful run's attempt count is the number of Optimize stages (1 or 2) |
| AgenticPipeline.FirstCheckDecides | backend/agentic_pipeline.py:131-136 | a compliant first check gives the 8-stage run; otherwise the two-pass run |
| AgenticPipeline.AlwaysNonCompliant | backend/agentic_pipeline.py:131-136 | if every report has ❌, a successful run is preamble + two passes, not compliant, with 2 attempts |
| AgenticPipeline.RunWithoutPath | backend/agentic_pipeline.py:42 | a state without `rfp_path` fails at the first stage with `'rfp_path'` |
| AgenticPipeline.RunParseFailure | backend/agentic_pipeline.py:42 | a parser error ends the run at the first stage |
| AgenticPipeline.WalkUpserts | backend/agentic_pipeline.py:142-146 | a failed run upserts nothing; a successful one is indexed and upserts the final proposal once, or not at all if already indexed |
| AgenticPipeline.WalkFollowsEdges | backend/agentic_pipeline.py:168-180 | consecutive stages of every trace are graph edges, and a successful run ends at Score |
| StoreInPinecone.ThirdLevelIsNotHeading | backend/store_in_pinecone.py:105 | `### ` does not open a section |
| StoreInPinecone.Combine | backend/store_in_pinecone.py:105-109 | putting lines before groups keeps the lines in order, in front |
| StoreInPinecone.GroupsFlatten | backend/store_in_pinecone.py:104-112 | the groups hold every line, in order |
| StoreInPinecone.GroupsHeadings | backend/store_in_pinecone.py:105-109 | every group after the first opens with a heading, and no heading is inside a group |
| StoreInPinecone.CreateMeaningfulChunks | backend/store_in_pinecone.py:99-114 | the loop computes `Sections` |
| StoreInPinecone.SectionsRejoin | backend/store_in_pinecone.py:99-114 | joining the sections with newlines gives the text back |
| StoreInPinecone.SectionsNonEmpty | backend/store_in_pinecone.py:111-112 | there is always a section; the empty text gives `[""]` |
| StoreInPinecone.SectionsStartWithHeading | backend/store_in_pinecone.py:105-108 | every section after the first starts with `# ` or `## ` |
| StoreInPinecone.HeadingsOpenSections | backend/store_in_pinecone.py:105-109 | no line of a section other than its first is a heading |
| StoreInPinecone.SectionsCount | backend/store_in_pinecone.py:104-112 | the number of sections is the number of headings, plus one when the text does not open with one |
| StoreInPinecone.SingleLineSection | backend/store_in_pinecone.py:104-112 | a one-line text is one section |
| StoreInPinecone.LongDocuments | backend/store_in_pinecone.py:119-124 | documents are exactly the chunks longer than 100 characters |
| StoreInPinecone.KeepMeaningful | backend/store_in_pinecone.py:119-124 | the loop computes `LongDocuments` |
| StoreInPinecone.DocumentsAsWritten | backend/store_in_pinecone.py:117-124 | as written, every document is labelled with the last listed file name |
| StoreInPinecone.AsWrittenMislabels | backend/store_in_pinecone.py:117-124 | a long chunk of the first file is labelled with the second file's name and never with its own |
| StoreInPinecone.BuildDocuments | backend/store_in_pinecone.py:117-124 | the corrected loop computes `Documents` |
| StoreInPinecone.DocumentsSourced | backend/store_in_pinecone.py:117-124 | every document is a section longer than 100 characters of the file it is labelled with |
| StoreInPinecone.DocumentsKeepSource | backend/store_in_pinecone.py:117-124 | with the correction, the first file's chunk carries its own name |
| RfpRoutes.Finished | routes/rfp_routes.py:56-64 | success: "complete" with the output plus `llm_usage_count`; failure: "failed" with only `{"error": str(e)}` |
| RfpRoutes.AfterRun | routes/rfp_routes.py:56-64 | the worker's write changes only its own record, and nothing if a reset removed it |
| RfpRoutes.ResultReply | routes/rfp_routes.py:73-83 | "not_found" for an unknown id; otherwise the status merged with the result's keys, which win on a clash |
| RfpRoutes.PipelineRegistry.constructor | routes/rfp_routes.py:14 | the registry starts empty |
| RfpRoutes.PipelineRegistry.ResetStatusEndpoint | routes/rfp_routes.py:26-31 | statuses reset, registry cleared, "reset done" |
| RfpRoutes.PipelineRegistry.UploadRfp | routes/rfp_routes.py:36-68 | statuses reset, call count zeroed, the new id registered as processing before the worker starts |
| RfpRoutes.PipelineRegistry.FinishRun | routes/rfp_routes.py:56-64 | the registry becomes `AfterRun` with the live call count |
| RfpRoutes.PipelineRegistry.GetResult | routes/rfp_routes.py:73-83 | the reply is `ResultReply`; the registry is unchanged |
| RfpRoutes.ReplayWellFormed | routes/rfp_routes.py:51-64 | after any history every record is processing, complete with a usage count, or failed with only an error |
| RfpRoutes.NeverUploadedNotFound | routes/rfp_routes.py:76-77 | an id never uploaded polls as "not_found" |
| RfpRoutes.ResetForgets | routes/rfp_routes.py:26-31 | after a reset, every id polls as "not_found" until uploaded again |
| RfpRoutes.UploadThenPoll | routes/rfp_routes.py:51-54 | a fresh upload polls as `{"status": "processing"}` |
| ProposalRoutes.LatestReply | routes/proposal_routes.py:82-88 | the stored proposal, or the "No proposal found…" sentence when it is empty |
| ProposalRoutes.Refined | routes/proposal_routes.py:60-79 | empty feedback, then empty memory, give 500 wrapping the 400 detail; a model error gives 500; success returns and stores the refined text; every error leaves the memory unchanged |
| ProposalRoutes.RefineThenRead | backend/llm_utils.py:246 | after a successful refine, a read returns the refined text when it is not empty |
| ProposalRoutes.GenerateBody | routes/proposal_routes.py:41-51 | the reply has the four keys, and fails with the first missing one |
| ProposalRoutes.Generated | routes/proposal_routes.py:29-54 | a blank text gives 500 wrapping "400: RFP text cannot be empty."; every error is a 500; the memory changes only to the proposal of a completed graph run; success returns the stored proposal |
| ProposalRoutes.AfterInvoke | routes/proposal_routes.py:39-54 | a graph error becomes 500 with the prefix and keeps the memory; the memory becomes `result["proposal"]` exactly when `proposal` and `retrieved_docs` are present |
| ProposalRoutes.StoredBeforeReportsRead | routes/proposal_routes.py:41-50 | a final state without `compliance_report` fails the request but still replaces the stored proposal |
| ProposalRoutes.GenerateNeverSucceeds | routes/proposal_routes.py:39 | every non-blank request fails with `'rfp_path'` and leaves the memory unchanged |
| ProposalRoutes.GenerateRefusesBlank | routes/proposal_routes.py:33-35 | refused as empty exactly when the text is whitespace-only |
| ProposalRoutes.ConversationMemory.constructor | backend/llm_utils.py:16 | the memory starts empty |
| ProposalRoutes.ConversationMemory.StoreProposal | routes/proposal_routes.py:96-100 | the memory is overwritten; the fixed success message |
| ProposalRoutes.ConversationMemory.GetLatestProposal | routes/proposal_routes.py:82-88 | the reply is `LatestReply`; the memory is not changed |
| ProposalRoutes.ConversationMemory.RefineProposal | routes/proposal_routes.py:60-79 | the reply and the new memory are `Refined` |
| ProposalRoutes.ConversationMemory.GenerateProposal | routes/proposal_routes.py:29-54 | the reply and the new memory are `Generated` |
| StreamlitApp.StatusColour | frontend/streamlit_app.py:197-205 | green iff ✅ present; red iff ❌ and no ✅; blue iff 🧠 and neither; gray otherwise |
| StreamlitApp.ParseMarkupInverts | frontend/streamlit_app.py:199-205 | `:colour[text]` reads back to its colour and text |
| StreamlitApp.FormatStatusEmbeds | frontend/streamlit_app.py:197-205 | the output is `:colour[status]` with the status unchanged, in the colour `StatusColour` picks |
| StreamlitApp.FormatStatusInjective | frontend/streamlit_app.py:197-205 | different statuses never format alike |
| StreamlitApp.Kept | frontend/streamlit_app.py:143 | no kept line is empty, and there are no more than the input lines |
| StreamlitApp.KeptAppend | frontend/streamlit_app.py:143 | filtering preserves the order of the lines |
| StreamlitApp.KeptSplitEmpty | frontend/streamlit_app.py:142-144 | every line strips to nothing exactly when the text is whitespace-only |
| StreamlitApp.CleanLinesEmpty | frontend/streamlit_app.py:142-144 | the cleaned text is empty exactly when the text is whitespace-only |
| StreamlitApp.CleanLinesSplit | frontend/streamlit_app.py:142-144 | the cleaned text splits back into exactly the stripped non-blank lines, in order |
| StreamlitApp.CleanOneLine | frontend/streamlit_app.py:142-144 | a one-line text with no surrounding whitespace is kept as it is |
| StreamlitApp.Export | frontend/streamlit_app.py:113-145 | refused exactly when the fetched text is whitespace-only (a failed fetch counts as empty); otherwise the non-empty cleaned text |
| StreamlitApp.EmptyMemoryExportsSentinel | frontend/streamlit_app.py:122-123 | with an empty memory, the backend's sentence passes the check and is exported |
| StreamlitApp.ExportGuarded | frontend/streamlit_app.py:122-123 | corrected check: refused when blank or when the sentence comes back |
| StreamlitApp.GuardedExportRefusesBlank | frontend/streamlit_app.py:122-123 | with the correction, export is refused exactly when the stored proposal is blank |

## Left out

- LLM prompts and answers are not modelled. Each call is a collaborator
  returning `Result`. Also left out:
  - the 0.5 s rate limit;
  - the `lru_cache` on `summarize_text`;
  - the token-usage extraction from response objects (`_extract_usage`);
  - the JSON token file on disk.
- `summarize_text` is not modelled. It is an LLM call that no core path
  uses.
- The per-call increment of `llm_usage_count` is not modelled; only its
  reset and the values read from it are.
- Clocks, UUIDs, uploaded file bytes and the upload directory are
  parameters or are left out. So are thread start-up, `pipeline_lock` and
  interleavings: a worker's write is one atomic `FinishRun`.
- The nodes' `update_status` calls are not part of the walk, so the model
  does not capture the status entries and audit-log lines a run produces.
  The store itself is modelled as its own functions define it
  (`AgentStatusTracker`).
  - Six calls pass `force=True`, which `update_status` does not accept:
    backend/agentic_pipeline.py:41, 46 and 56 in the extraction node, and
    81, 83 and 96 in the table-summary node. Each raises `TypeError`.
    Taken as written, every run would fail at its first node, so the model
    reads them as the plain two-argument call.
  - The other twelve calls are valid: lines 60, 63, 75, 77, 100, 106, 110,
    116, 124, 128, 139 and 149. Each sets one agent's status ("🧠 In
    Progress" on entry, "✅ Done" on success) and appends one audit line,
    as `AgentStatusTracker.Updated` and `AuditLine` state. They are not
    threaded through the walk.
- Some imports name functions their modules do not define. The model
  treats every module as loaded:
  - the graph module imports `mark_pipeline_end` (called at line 148);
  - the upload route imports `mark_pipeline_start`;
  - the graph module imports `upsert_proposal` from
    `backend/pinecone_utils.py`, which defines only `retrieve_similar_docs`.
    The model makes the upsert a collaborator that may fail. A failure
    raises before `proposal_indexed` is set.
- `routes/proposal_routes.py` imports `proposal_agentic_chain`, which the
  graph module does not define. The model treats the routes as loaded.
- The bodies of `retrieve_similar_docs`, the PDF parser and the Pinecone
  index setup are not modelled; they are collaborators. The index appears
  only as the sequence of upserted texts.
- The document listing and reading, `RecursiveCharacterTextSplitter`
  (built but unused) and the upload to Pinecone are not modelled.
- LangGraph's recursion limit is not modelled. A run has at most 10 stages
  (`RunShape`), below the default limit of 25.
- Several simplifications about values:
  - JSON numbers are integers only.
  - A JSON object is a sequence of key-value pairs, and the model does not
    require distinct keys. Python's `json.loads` keeps only the last value
    of a repeated key, but `MergeAll` merges every occurrence in turn. The
    two agree on every answer without repeated keys.
  - `True == 1` in Python sets is not modelled.
  - Python's hash order in `list(set(...))` is not modelled; the model keeps
    first occurrences and claims only membership and no repeats.
  - JSON serialisation of the status file is taken to round-trip.
- `CheckComplianceNode` and `TableSummaryNode`: the source assigns into the
  state dict in place and returns it. The model returns an updated record,
  which is the same once the graph merges it.
- `ScoreProposalNode`: the source sets `proposal_indexed` in place before
  returning a merged dict. The model returns the merged state.
- `StreamlitApp.Export`: the `proposal` field is taken to be a string, as
  the backend always sends one. Rendering, FPDF output and the HTTP calls
  are not modelled.
- `AgentStatusTracker.StatusStore.GetLog`: an existing but empty log file
  returns "", as the code does, not "No logs yet.".

## Findings

| source | as written | input that shows it | evidently intended | confidence | as-written member | corrected member |
|---|---|---|---|---|---|---|
| backend/store_in_pinecone.py:117-124 | every document gets `metadata={"source": fname}`, and `fname` is the variable left over from the file-listing loop, so every chunk is labelled with the last name listed | a docs folder listing `a.md`, then `b.md`, where `a.md` is one line of 101+ characters: its chunk is stored with source `b.md` | each chunk labelled with the file it came from | high; not executed | StoreInPinecone.AsWrittenMislabels | StoreInPinecone.DocumentsKeepSource |
| frontend/streamlit_app.py:122-123 | export is refused only when the fetched text is blank, but with an empty memory the backend returns the sentence "No proposal found. Please generate or refine the proposal first." (routes/proposal_routes.py:86-87), never a blank text | click export before any proposal was generated or stored: that sentence is written into the PDF | refuse with "No final proposal found…" when the backend has no proposal | medium; not executed | StreamlitApp.EmptyMemoryExportsSentinel | StreamlitApp.GuardedExportRefusesBlank |
