/**
 * The proposal endpoints and the one-slot memory they share,
 * `conversation_memory["latest_proposal"]`: store and read it, refine it
 * with user feedback, or generate a new proposal through the workflow
 * graph. Every failure inside the handlers, including their own 400
 * validation errors, is caught and re-raised as a 500 with a prefix.
 */
module ProposalRoutes {
  import opened Wrappers
  import opened Values
  import Text
  import AgenticPipeline

  /** An endpoint's answer: a JSON body, or an `HTTPException(status_code, detail)`. */
  datatype Response = Body(fields: map<string, Json>) | HttpError(code: int, detail: string)

  /** How `str(HTTPException(400, detail))` begins: the status code and a colon. */
  const BadRequest: string := "400: "

  const NoProposal: string := "No proposal found. Please generate or refine the proposal first."
  const RefinePrefix: string := "Error refining proposal: "
  const GeneratePrefix: string := "Error generating proposal: "

  /** The body of `get_latest_proposal` for a memory holding `latest`. */
  function LatestReply(latest: string): (r: map<string, Json>)
    ensures r.Keys == {"proposal"}
    ensures latest != "" ==> r["proposal"] == JStr(latest)
    ensures latest == "" ==> r["proposal"] == JStr(NoProposal)
  {
    map["proposal" := JStr(if latest == "" then NoProposal else latest)]
  }

  /**
   * `refine_proposal_endpoint` on a memory holding `latest`: the response,
   * and what the memory holds afterwards. `refine` is the model call.
   */
  function Refined(latest: string, feedback: string, refine: (string, string) -> Result<string>): (r: (Response, string))
    ensures feedback == "" ==> r == (HttpError(500, RefinePrefix + BadRequest + "User feedback is required."), latest)
    ensures feedback != "" && latest == "" ==> r == (HttpError(500, RefinePrefix + BadRequest + "No existing proposal to refine."), latest)
    ensures feedback != "" && latest != "" && refine(latest, feedback).Err? ==>
      r == (HttpError(500, RefinePrefix + refine(latest, feedback).error), latest)
    ensures r.0.Body? ==>
      && feedback != "" && latest != "" && refine(latest, feedback).Ok?
      && r.1 == refine(latest, feedback).value
      && r.0.fields == map["refined_proposal" := JStr(r.1)]
    ensures r.0.HttpError? ==> r.0.code == 500 && r.1 == latest
  {
    if feedback == "" then
      (HttpError(500, RefinePrefix + BadRequest + "User feedback is required."), latest)
    else if latest == "" then
      (HttpError(500, RefinePrefix + BadRequest + "No existing proposal to refine."), latest)
    else
      match refine(latest, feedback)
      case Err(e) => (HttpError(500, RefinePrefix + e), latest)
      case Ok(refined) => (Body(map["refined_proposal" := JStr(refined)]), refined)
  }

  function StringList(xs: seq<string>): Json
  {
    JList(seq(|xs|, i requires 0 <= i < |xs| => JStr(xs[i])))
  }

  /** `result[key]` for the four keys `generate_proposal` reads from the final state. */
  function GenerateBody(st: AgenticPipeline.ProposalState): (r: Result<map<string, Json>>)
    ensures r.Ok? <==>
      st.proposal.Some? && st.retrievedDocs.Some? && st.complianceReport.Some? && st.scoreReport.Some?
    ensures r.Ok? ==>
      && r.value.Keys == {"proposal", "retrieved_docs", "compliance_report", "score_report"}
      && "proposal" in r.value && r.value["proposal"] == JStr(st.proposal.value)
    ensures st.proposal.None? ==> r == Err(AgenticPipeline.KeyError("proposal"))
  {
    if st.proposal.None? then Err(AgenticPipeline.KeyError("proposal"))
    else if st.retrievedDocs.None? then Err(AgenticPipeline.KeyError("retrieved_docs"))
    else if st.complianceReport.None? then Err(AgenticPipeline.KeyError("compliance_report"))
    else if st.scoreReport.None? then Err(AgenticPipeline.KeyError("score_report"))
    else Ok(map["proposal" := JStr(st.proposal.value),
                "retrieved_docs" := StringList(st.retrievedDocs.value),
                "compliance_report" := JStr(st.complianceReport.value),
                "score_report" := JStr(st.scoreReport.value)])
  }

  /**
   * `generate_proposal` on a memory holding `latest`: the response and the
   * memory afterwards. The graph is invoked on a state holding only the
   * stripped text.
   */
  function Generated(latest: string, rfpText: string, c: AgenticPipeline.Collaborators): (r: (Response, string))
    ensures Text.Strip(rfpText) == "" ==> r == (HttpError(500, GeneratePrefix + BadRequest + "RFP text cannot be empty."), latest)
    ensures r.0.HttpError? ==> r.0.code == 500
    ensures r.1 != latest ==>
      var run := AgenticPipeline.Run(c, GraphInput(Text.Strip(rfpText))).result;
      Text.Strip(rfpText) != "" && run.Ok? && run.value.proposal == Some(r.1)
    ensures r.0.Body? ==> "proposal" in r.0.fields && r.0.fields["proposal"] == JStr(r.1)
  {
    var text := Text.Strip(rfpText);
    if text == "" then
      (HttpError(500, GeneratePrefix + BadRequest + "RFP text cannot be empty."), latest)
    else
      AfterInvoke(latest, AgenticPipeline.Run(c, GraphInput(text)).result)
  }

  /** The state `generate_proposal` hands to the graph: only the RFP text. */
  function GraphInput(text: string): AgenticPipeline.ProposalState
  {
    AgenticPipeline.EmptyState.(rfpText := Some(text))
  }

  /**
   * The rest of `generate_proposal` once the graph has returned or raised.
   * The memory is written once `proposal` and `retrieved_docs` have been
   * read, before the two report keys are.
   */
  function AfterInvoke(latest: string, result: Result<AgenticPipeline.ProposalState>): (r: (Response, string))
    ensures result.Err? ==> r == (HttpError(500, GeneratePrefix + result.error), latest)
    ensures r.1 == if result.Ok? && result.value.proposal.Some? && result.value.retrievedDocs.Some?
                   then result.value.proposal.value else latest
    ensures r.0.HttpError? ==> r.0.code == 500
    ensures r.0.Body? ==>
      && result.Ok? && result.value.proposal.Some? && r.1 == result.value.proposal.value
      && "proposal" in r.0.fields && r.0.fields["proposal"] == JStr(r.1)
  {
    match result
    case Err(e) => (HttpError(500, GeneratePrefix + e), latest)
    case Ok(st) =>
      if st.proposal.None? || st.retrievedDocs.None? then
        (HttpError(500, GeneratePrefix + GenerateBody(st).error), latest)
      else
        var stored := st.proposal.value;
        match GenerateBody(st)
        case Err(e) => (HttpError(500, GeneratePrefix + e), stored)
        case Ok(body) => (Body(body), stored)
  }

  /**
   * A final state without a compliance report still replaces the stored
   * proposal, although the request fails.
   */
  lemma StoredBeforeReportsRead(latest: string, st: AgenticPipeline.ProposalState)
    requires st.proposal.Some? && st.retrievedDocs.Some? && st.complianceReport.None?
    ensures AfterInvoke(latest, Ok(st))
      == (HttpError(500, GeneratePrefix + AgenticPipeline.KeyError("compliance_report")), st.proposal.value)
  {
  }

  /**
   * The graph's first stage reads `rfp_path`, which the state built here
   * never has: every non-blank request fails with that key's error, and the
   * memory is never written.
   */
  lemma GenerateNeverSucceeds(latest: string, rfpText: string, c: AgenticPipeline.Collaborators)
    requires Text.Strip(rfpText) != ""
    ensures Generated(latest, rfpText, c) == (HttpError(500, GeneratePrefix + AgenticPipeline.KeyError("rfp_path")), latest)
  {
    AgenticPipeline.RunWithoutPath(c, GraphInput(Text.Strip(rfpText)));
  }

  /** A whitespace-only request is the only kind refused as empty. */
  lemma GenerateRefusesBlank(latest: string, rfpText: string, c: AgenticPipeline.Collaborators)
    ensures Generated(latest, rfpText, c).0 == HttpError(500, GeneratePrefix + BadRequest + "RFP text cannot be empty.")
      <==> Text.AllSpace(rfpText)
  {
    Text.StripEmpty(rfpText);
    if Text.Strip(rfpText) != "" {
      GenerateNeverSucceeds(latest, rfpText, c);
      var failed := GeneratePrefix + AgenticPipeline.KeyError("rfp_path");
      var refused := GeneratePrefix + BadRequest + "RFP text cannot be empty.";
      assert failed[|GeneratePrefix|] == '\'' && refused[|GeneratePrefix|] == '4';
    }
  }

  /** A successful refine is what a later read returns, unless the model returned an empty text. */
  lemma RefineThenRead(latest: string, feedback: string, refine: (string, string) -> Result<string>)
    requires Refined(latest, feedback, refine).0.Body?
    ensures Refined(latest, feedback, refine).1 != "" ==>
      LatestReply(Refined(latest, feedback, refine).1)["proposal"]
        == Refined(latest, feedback, refine).0.fields["refined_proposal"]
  {
  }

  /** `conversation_memory`, reduced to the one key the endpoints use. */
  class ConversationMemory {
    var latestProposal: string

    /** The dictionary starts with an empty proposal. */
    constructor ()
      ensures latestProposal == ""
    {
      latestProposal := "";
    }

    /** `store_proposal_endpoint`: overwrite the proposal. */
    method StoreProposal(proposal: string) returns (reply: map<string, Json>)
      modifies this
      ensures latestProposal == proposal
      ensures reply == map["message" := JStr("Proposal stored successfully.")]
    {
      latestProposal := proposal;
      reply := map["message" := JStr("Proposal stored successfully.")];
    }

    /** `get_latest_proposal`: the proposal, or the sentinel while it is empty. */
    method GetLatestProposal() returns (reply: map<string, Json>)
      ensures reply == LatestReply(latestProposal)
    {
      if latestProposal == "" {
        return map["proposal" := JStr(NoProposal)];
      }
      reply := map["proposal" := JStr(latestProposal)];
    }

    /** `refine_proposal_endpoint`. */
    method RefineProposal(feedback: string, refine: (string, string) -> Result<string>) returns (resp: Response)
      modifies this
      ensures (resp, latestProposal) == Refined(old(latestProposal), feedback, refine)
    {
      if feedback == "" {
        return HttpError(500, RefinePrefix + BadRequest + "User feedback is required.");
      }
      var current := latestProposal;
      if current == "" {
        return HttpError(500, RefinePrefix + BadRequest + "No existing proposal to refine.");
      }
      var refined := refine(current, feedback);
      if refined.Err? {
        return HttpError(500, RefinePrefix + refined.error);
      }
      latestProposal := refined.value;
      resp := Body(map["refined_proposal" := JStr(refined.value)]);
    }

    /** `generate_proposal`. */
    method GenerateProposal(rfpText: string, c: AgenticPipeline.Collaborators) returns (resp: Response)
      modifies this
      ensures (resp, latestProposal) == Generated(old(latestProposal), rfpText, c)
    {
      var text := Text.Strip(rfpText);
      if text == "" {
        return HttpError(500, GeneratePrefix + BadRequest + "RFP text cannot be empty.");
      }
      var run := AgenticPipeline.Invoke(c, GraphInput(text));
      var after := AfterInvoke(latestProposal, run.result);
      resp, latestProposal := after.0, after.1;
    }
  }
}
