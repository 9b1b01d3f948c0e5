/**
 * The pipeline run registry behind the upload, poll and reset endpoints:
 * a dictionary from run id to `{status, result}`. An upload inserts a
 * "processing" record, the background worker writes it once to "complete"
 * or "failed", a poll merges the status with the result, and a reset
 * clears the dictionary.
 */
module RfpRoutes {
  import opened Wrappers
  import opened Values
  import AgentStatusTracker
  import LlmUtils

  /** One entry of `active_pipelines`. */
  datatype PipelineRecord = PipelineRecord(status: string, result: Option<map<string, Json>>)

  type Registry = map<string, PipelineRecord>

  const Processing: PipelineRecord := PipelineRecord("processing", None)

  /** The record a worker leaves: its output stamped with the usage count, or the error text. */
  function Finished(outcome: Result<map<string, Json>>, usageCount: int): (r: PipelineRecord)
    ensures outcome.Ok? ==>
      && r.status == "complete" && r.result.Some?
      && r.result.value.Keys == outcome.value.Keys + {"llm_usage_count"}
      && r.result.value["llm_usage_count"] == JNum(usageCount)
      && forall k :: k in outcome.value && k != "llm_usage_count" ==> r.result.value[k] == outcome.value[k]
    ensures outcome.Err? ==> r == PipelineRecord("failed", Some(map["error" := JStr(outcome.error)]))
  {
    match outcome
    case Ok(output) => PipelineRecord("complete", Some(output["llm_usage_count" := JNum(usageCount)]))
    case Err(e) => PipelineRecord("failed", Some(map["error" := JStr(e)]))
  }

  /**
   * The registry after the worker for `id` ends. Writing into a record that
   * a reset has removed raises inside the thread, so the registry is left
   * as it is.
   */
  function AfterRun(active: Registry, id: string, outcome: Result<map<string, Json>>, usageCount: int): (r: Registry)
    ensures r.Keys == active.Keys
    ensures id in active ==> r[id] == Finished(outcome, usageCount)
    ensures forall k :: k in active && k != id ==> r[k] == active[k]
  {
    if id in active then active[id := Finished(outcome, usageCount)] else active
  }

  /** The reply of `get_result(id)`. */
  function ResultReply(active: Registry, id: string): (r: map<string, Json>)
    ensures id !in active ==> r == map["status" := JStr("not_found")]
    ensures id in active && active[id].result.None? ==> r == map["status" := JStr(active[id].status)]
    ensures id in active ==>
      && "status" in r
      && (active[id].result.None? || "status" !in active[id].result.value ==> r["status"] == JStr(active[id].status))
    ensures id in active && active[id].result.Some? ==>
      && r.Keys == active[id].result.value.Keys + {"status"}
      && forall k :: k in active[id].result.value ==> r[k] == active[id].result.value[k]
  {
    if id !in active then map["status" := JStr("not_found")]
    else
      var data := active[id];
      map["status" := JStr(data.status)] + data.result.GetOr(map[])
  }

  /** A registry whose records are in one of the three states the routes write. */
  predicate WellFormed(active: Registry)
  {
    forall id :: id in active ==>
      || active[id] == Processing
      || (active[id].status == "complete" && active[id].result.Some? && "llm_usage_count" in active[id].result.value)
      || (active[id].status == "failed" && active[id].result.Some? && active[id].result.value.Keys == {"error"})
  }

  /** The module-level registry and the routes that change it. */
  class PipelineRegistry {
    var active: Registry

    constructor ()
      ensures active == map[]
    {
      active := map[];
    }

    /** `reset_status_endpoint`: reset the agent statuses and clear the registry. */
    method ResetStatusEndpoint(store: AgentStatusTracker.StatusStore) returns (reply: map<string, Json>)
      modifies this, store
      ensures active == map[]
      ensures store.status == Some(AgentStatusTracker.PendingStatus()) && store.log == old(store.log)
      ensures reply == map["status" := JStr("reset done")]
    {
      store.ResetStatus();
      active := map[];
      reply := map["status" := JStr("reset done")];
    }

    /**
     * `upload_rfp`: reset the statuses and the call counter, then register
     * the new run as processing before its worker starts. `id` is the fresh
     * `uuid4()`.
     */
    method UploadRfp(id: string, store: AgentStatusTracker.StatusStore, accounting: LlmUtils.LlmAccounting)
      returns (reply: map<string, Json>)
      modifies this, store, accounting
      ensures active == old(active)[id := Processing]
      ensures store.status == Some(AgentStatusTracker.PendingStatus()) && store.log == old(store.log)
      ensures accounting.llmUsageCount == 0 && accounting.Snapshot() == old(accounting.Snapshot())
      ensures reply == map["message" := JStr("Pipeline started"), "pipeline_id" := JStr(id)]
    {
      store.ResetStatus();
      accounting.ResetUsageCount();
      active := active[id := Processing];
      reply := map["message" := JStr("Pipeline started"), "pipeline_id" := JStr(id)];
    }

    /**
     * The end of `run_pipeline` for `id`: the graph's output (or the text of
     * the exception it raised) is written, with the call count read at that
     * moment.
     */
    method FinishRun(id: string, outcome: Result<map<string, Json>>, accounting: LlmUtils.LlmAccounting)
      modifies this
      ensures active == AfterRun(old(active), id, outcome, accounting.llmUsageCount)
    {
      if id in active {
        match outcome {
          case Ok(output) =>
            var stamped := output["llm_usage_count" := JNum(accounting.llmUsageCount)];
            active := active[id := PipelineRecord("complete", Some(stamped))];
          case Err(e) =>
            active := active[id := PipelineRecord("failed", Some(map["error" := JStr(e)]))];
        }
      }
    }

    /** `get_result(id)`: no change to the registry. */
    method GetResult(id: string) returns (reply: map<string, Json>)
      ensures reply == ResultReply(active, id)
    {
      if id !in active {
        return map["status" := JStr("not_found")];
      }
      var data := active[id];
      var result := if data.result.Some? then data.result.value else map[];
      reply := map["status" := JStr(data.status)] + result;
    }
  }

  // ---------------------------------------------------------------------
  // Histories

  /** What can happen to the registry: an upload, a worker ending, a reset. */
  datatype Event =
    | Upload(id: string)
    | Finish(id: string, outcome: Result<map<string, Json>>, usageCount: int)
    | Reset

  function Apply(active: Registry, e: Event): Registry
  {
    match e
    case Upload(id) => active[id := Processing]
    case Finish(id, outcome, n) => AfterRun(active, id, outcome, n)
    case Reset => map[]
  }

  /** The registry after a history of events, starting from the empty one. */
  function Replay(events: seq<Event>): Registry
  {
    if |events| == 0 then map[] else Apply(Replay(events[..|events| - 1]), events[|events| - 1])
  }

  predicate Uploaded(events: seq<Event>, id: string)
  {
    exists i :: 0 <= i < |events| && events[i] == Upload(id)
  }

  /** Every record is processing, complete with a usage count, or failed with an error. */
  lemma {:induction false} ReplayWellFormed(events: seq<Event>)
    ensures WellFormed(Replay(events))
  {
    if |events| > 0 {
      ReplayWellFormed(events[..|events| - 1]);
    }
  }

  /** An id that was never uploaded polls as not found. */
  lemma {:induction false} NeverUploadedNotFound(events: seq<Event>, id: string)
    requires !Uploaded(events, id)
    ensures id !in Replay(events)
    ensures ResultReply(Replay(events), id) == map["status" := JStr("not_found")]
  {
    if |events| > 0 {
      var front := events[..|events| - 1];
      forall i | 0 <= i < |front| ensures front[i] != Upload(id) {
        assert front[i] == events[i];
      }
      NeverUploadedNotFound(front, id);
    }
  }

  /** After a reset, every id polls as not found until it is uploaded again. */
  lemma {:induction false} ResetForgets(before: seq<Event>, after: seq<Event>, id: string)
    requires !Uploaded(after, id)
    ensures id !in Replay(before + [Reset] + after)
    ensures ResultReply(Replay(before + [Reset] + after), id) == map["status" := JStr("not_found")]
  {
    if |after| == 0 {
      assert before + [Reset] + after == before + [Reset];
      assert (before + [Reset])[..|before|] == before;
    } else {
      var front := after[..|after| - 1];
      assert (before + [Reset] + after)[..|before| + 1 + |front|] == before + [Reset] + front;
      forall i | 0 <= i < |front| ensures front[i] != Upload(id) {
        assert front[i] == after[i];
      }
      ResetForgets(before, front, id);
      assert (before + [Reset] + after)[|before| + |after|] == after[|after| - 1];
    }
  }

  /** A freshly uploaded run polls as processing with nothing else in the reply. */
  lemma UploadThenPoll(events: seq<Event>, id: string)
    ensures ResultReply(Replay(events + [Upload(id)]), id) == map["status" := JStr("processing")]
  {
    assert (events + [Upload(id)])[..|events|] == events;
  }
}
