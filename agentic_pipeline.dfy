/**
 * The proposal workflow: eight named stages threading one state record,
 * fixed edges between them, one conditional edge after the compliance check
 * that loops back to tone optimisation at most until two attempts have been
 * made, and a flag that keeps the final upsert to one per run.
 *
 * Every call into a language model, the PDF parser, the vector-store search
 * and the upsert is an opaque collaborator: a field of `Collaborators`.
 * All but the search may return `Err(message)` where the real call raises;
 * the search catches its own errors.
 */
module AgenticPipeline {
  import opened Wrappers
  import opened Values
  import Text
  import LlmUtils

  // ---------------------------------------------------------------------
  // Data

  datatype Stage =
    | ExtractPdf | EnrichRfp | RetrieveDocs | SummarizeTables
    | GenerateProposal | OptimizeTone | CheckCompliance | ScoreProposal

  /** A table cell as the parser returns it; `None` for an empty cell. */
  type Cell = Option<string>
  type Row = seq<Cell>
  type Table = seq<Row>

  /** What the parser returns for a document: `{text_body, ocr_text, tables}`. */
  datatype ParsedPdf = ParsedPdf(textBody: string, ocrText: string, tables: seq<Table>)

  /**
   * `ProposalState` (a `TypedDict` with `total=False`): every key may be
   * missing, which is `None` here.
   */
  datatype ProposalState = ProposalState(
    rfpPath: Option<string>,
    rfpText: Option<string>,
    metadata: Option<map<string, Json>>,
    industry: Option<Json>,
    region: Option<Json>,
    constraints: Option<Json>,
    clientNeeds: Option<Json>,
    retrievedDocs: Option<seq<string>>,
    summarizedTables: Option<seq<string>>,
    proposal: Option<string>,
    complianceReport: Option<string>,
    compliancePassed: Option<bool>,
    scoreReport: Option<string>,
    rawTables: Option<seq<Table>>,
    ocrText: Option<string>,
    complianceRetries: Option<int>,
    optimizeAttempts: Option<int>,
    llmUsageCount: Option<int>,
    proposalIndexed: Option<bool>)

  /** The state with no key set. */
  const EmptyState: ProposalState :=
    ProposalState(None, None, None, None, None, None, None, None, None, None,
                  None, None, None, None, None, None, None, None, None)

  /** The opaque calls the stages make. */
  datatype Collaborators = Collaborators(
    /** `parse_rfp_pdf(path)`. */
    parseRfpPdf: string -> Result<ParsedPdf>,
    /** The model call inside `extract_rfp_metadata`, with its answer parsed. */
    metadataAnswer: string -> Result<LlmUtils.ParseOutcome>,
    /** `retrieve_similar_docs(query, top_k)`: never raises. */
    retrieveSimilarDocs: (string, nat) -> seq<string>,
    summarizeTable: string -> Result<string>,
    /** `expand_rfp(rfp_text, retrieved_docs, summarized_tables)`. */
    expandRfp: (string, seq<string>, seq<string>) -> Result<string>,
    /** `optimize_proposal_tone(proposal, vertical, tone)`. */
    optimizeProposalTone: (string, Json, string) -> Result<string>,
    /** `check_compliance(rfp_text, proposal)`. */
    checkCompliance: (string, string) -> Result<string>,
    scoreProposalQuality: string -> Result<string>,
    /** `upsert_proposal(proposal)`: index the final proposal. */
    upsertProposal: string -> Result<()>)

  /** `str(KeyError(key))`, what a missing `state[key]` raises. */
  function KeyError(key: string): string
  {
    "'" + key + "'"
  }

  /** `state.get("optimize_attempts", 0)`. */
  function AttemptsOf(s: ProposalState): int
  {
    s.optimizeAttempts.GetOr(0)
  }

  /** `d.get(key, default)` on a metadata dictionary. */
  function Lookup(m: map<string, Json>, key: string, default: Json): Json
  {
    if key in m then m[key] else default
  }

  /** The failure marker whose presence in a report means "not compliant". */
  const CrossMark: char := '\U{274C}'

  /** The maximum number of tone optimisations before scoring is forced. */
  const MaxOptimizeAttempts: int := 2

  /**
   * The value `score_proposal_node` stores as `llm_usage_count`: the name it
   * reads was bound when the module was imported, before any call counted.
   */
  const ImportedUsageCount: int := 0

  // ---------------------------------------------------------------------
  // Stages

  /** `extract_pdf_node`: parse the document and reset both counters. */
  function ExtractPdfNode(c: Collaborators, s: ProposalState): (r: Result<ProposalState>)
    ensures s.rfpPath.None? ==> r == Err(KeyError("rfp_path"))
    ensures s.rfpPath.Some? && c.parseRfpPdf(s.rfpPath.value).Err? ==> r == Err(c.parseRfpPdf(s.rfpPath.value).error)
    ensures r.Ok? ==> var p := c.parseRfpPdf(s.rfpPath.value).value;
      r.value == s.(rfpText := Some(p.textBody + "\n\n" + p.ocrText), rawTables := Some(p.tables),
                    ocrText := Some(p.ocrText), optimizeAttempts := Some(0), complianceRetries := Some(0))
  {
    if s.rfpPath.None? then Err(KeyError("rfp_path"))
    else
      match c.parseRfpPdf(s.rfpPath.value)
      case Err(e) => Err(e)
      case Ok(p) =>
        Ok(s.(rfpText := Some(p.textBody + "\n\n" + p.ocrText), rawTables := Some(p.tables),
              ocrText := Some(p.ocrText), optimizeAttempts := Some(0), complianceRetries := Some(0)))
  }

  /** `rfp_text[:5000]`. */
  function Head(text: string, n: nat): (r: string)
    ensures |r| == if |text| < n then |text| else n
    ensures Text.StartsWith(text, r)
  {
    if |text| <= n then text else text[..n]
  }

  /** `enrich_rfp_node`: strip the text and spread the extracted metadata over the state. */
  function EnrichRfpNode(c: Collaborators, s: ProposalState): (r: Result<ProposalState>)
    ensures var answer := c.metadataAnswer(Head(Text.Strip(s.rfpText.GetOr("")), 5000));
      && (answer.Err? ==> r == Err(answer.error))
      && (answer.Ok? ==>
            var extracted := LlmUtils.ExtractedMetadata(answer.value);
            && (r.Ok? <==> extracted.Ok?)
            && (extracted.Err? ==> r == Err(extracted.error))
            && (r.Ok? ==> r.value.metadata == Some(extracted.value)))
    ensures r.Ok? ==>
      && r.value.rfpText == Some(Text.Strip(s.rfpText.GetOr("")))
      && r.value.metadata.Some?
      && var m := r.value.metadata.value;
         r.value == s.(rfpText := r.value.rfpText, metadata := Some(m),
                       industry := Some(Lookup(m, "industry", JStr("generic"))),
                       region := Some(Lookup(m, "region", JStr("global"))),
                       constraints := Some(Lookup(m, "constraints", JList([]))),
                       clientNeeds := Some(Lookup(m, "client_needs", JList([]))))
  {
    var text := Text.Strip(s.rfpText.GetOr(""));
    match c.metadataAnswer(Head(text, 5000))
    case Err(e) => Err(e)
    case Ok(answer) =>
      match LlmUtils.ExtractedMetadata(answer)
      case Err(e) => Err(e)
      case Ok(m) =>
        Ok(s.(rfpText := Some(text), metadata := Some(m),
              industry := Some(Lookup(m, "industry", JStr("generic"))),
              region := Some(Lookup(m, "region", JStr("global"))),
              constraints := Some(Lookup(m, "constraints", JList([]))),
              clientNeeds := Some(Lookup(m, "client_needs", JList([])))))
  }

  /**
   * The metadata the enrichment stage stores always has the seven default
   * keys, and the two list fields it copies into the state are repeat-free
   * lists.
   */
  lemma EnrichedMetadataShape(c: Collaborators, s: ProposalState)
    requires EnrichRfpNode(c, s).Ok?
    ensures var st := EnrichRfpNode(c, s).value;
      && LlmUtils.Defaults().Keys <= st.metadata.value.Keys
      && st.constraints.Some? && st.constraints.value.JList?
      && st.clientNeeds.Some? && st.clientNeeds.value.JList?
      && (forall i, j :: 0 <= i < j < |st.constraints.value.items| ==>
            st.constraints.value.items[i] != st.constraints.value.items[j])
      && (forall i, j :: 0 <= i < j < |st.clientNeeds.value.items| ==>
            st.clientNeeds.value.items[i] != st.clientNeeds.value.items[j])
  {
    var answer := c.metadataAnswer(Head(Text.Strip(s.rfpText.GetOr("")), 5000));
    LlmUtils.MetadataShape(answer.value);
    assert "constraints" in {"constraints", "client_needs"};
    assert "client_needs" in {"constraints", "client_needs"};
  }

  /** `retrieve_docs_node`: look up the three most similar past proposals. */
  function RetrieveDocsNode(c: Collaborators, s: ProposalState): (r: Result<ProposalState>)
    ensures s.rfpText.None? <==> r.Err?
    ensures r.Ok? ==> r.value == s.(retrievedDocs := Some(c.retrieveSimilarDocs(s.rfpText.value, 3)))
  {
    if s.rfpText.None? then Err(KeyError("rfp_text"))
    else Ok(s.(retrievedDocs := Some(c.retrieveSimilarDocs(s.rfpText.value, 3))))
  }

  // --- table_summary_node -------------------------------------------------

  /** `str(cell or "")`. */
  function CellText(cell: Cell): string
  {
    cell.GetOr("")
  }

  function CellTexts(row: Row): (r: seq<string>)
    ensures |r| == |row| && forall i :: 0 <= i < |row| ==> r[i] == CellText(row[i])
  {
    seq(|row|, i requires 0 <= i < |row| => CellText(row[i]))
  }

  /** `" | ".join(...)` over one row's cells. */
  function RowLine(row: Row): string
  {
    Text.Join(CellTexts(row), " | ")
  }

  /** The lines of a table's markdown: one per non-empty row, in order. */
  function RowLines(table: Table): (r: seq<string>)
    ensures |r| <= |table|
  {
    if |table| == 0 then []
    else (if table[0] != [] then [RowLine(table[0])] else []) + RowLines(table[1..])
  }

  /** The markdown built for one table. */
  function Markdown(table: Table): string
  {
    Text.Join(RowLines(table), "\n")
  }

  /** The text appended to `summarized` for one table. */
  function TableEntry(markdown: string, summary: string): string
  {
    "\U{1F4CA} Table\n" + markdown + "\n\n\U{1F4DD} Summary: " + summary
  }

  /** The summaries of `tables`, in order, or the first summariser error. */
  function Summaries(c: Collaborators, tables: seq<Table>): (r: Result<seq<string>>)
    ensures r.Ok? ==> |r.value| == |tables|
    ensures r.Ok? ==> forall i :: 0 <= i < |tables| ==>
      c.summarizeTable(Markdown(tables[i])).Ok? &&
      r.value[i] == TableEntry(Markdown(tables[i]), c.summarizeTable(Markdown(tables[i])).value)
    ensures r.Err? <==> exists i :: 0 <= i < |tables| && c.summarizeTable(Markdown(tables[i])).Err?
  {
    if |tables| == 0 then Ok([])
    else
      var md := Markdown(tables[0]);
      match c.summarizeTable(md)
      case Err(e) => Err(e)
      case Ok(summary) =>
        match Summaries(c, tables[1..])
        case Err(e) =>
          assert exists i :: 0 <= i < |tables| && c.summarizeTable(Markdown(tables[i])).Err? by {
            var j :| 0 <= j < |tables[1..]| && c.summarizeTable(Markdown(tables[1..][j])).Err?;
            assert tables[1..][j] == tables[j + 1];
          }
          Err(e)
        case Ok(rest) =>
          assert forall i :: 1 <= i < |tables| ==> tables[i] == tables[1..][i - 1];
          Ok([TableEntry(md, summary)] + rest)
  }

  /** `not state.get("raw_tables")`. */
  predicate NoTables(s: ProposalState)
  {
    s.rawTables.None? || s.rawTables.value == []
  }

  /** `table_summary_node`: one summary per table, or the state unchanged when there are none. */
  function TableSummaryNode(c: Collaborators, s: ProposalState): (r: Result<ProposalState>)
    ensures NoTables(s) ==> r == Ok(s)
    ensures !NoTables(s) && r.Ok? ==>
      && var sums := Summaries(c, s.rawTables.value);
         sums.Ok? && r.value == s.(summarizedTables := Some(sums.value))
  {
    if NoTables(s) then Ok(s)
    else
      match Summaries(c, s.rawTables.value)
      case Err(e) => Err(e)
      case Ok(sums) => Ok(s.(summarizedTables := Some(sums)))
  }

  /** `table_summary_node` as the source runs it: a loop appending to `summarized`. */
  method SummarizeTablesStep(c: Collaborators, s: ProposalState) returns (r: Result<ProposalState>)
    ensures r == TableSummaryNode(c, s)
  {
    if NoTables(s) {
      return Ok(s);
    }
    var tables := s.rawTables.value;
    var summarized: seq<string> := [];
    var i := 0;
    while i < |tables|
      invariant 0 <= i <= |tables|
      invariant Summaries(c, tables[..i]) == Ok(summarized)
    {
      var markdown := Markdown(tables[i]);
      var summary := c.summarizeTable(markdown);
      if summary.Err? {
        SummariesFirstErr(c, tables, i);
        return Err(summary.error);
      }
      SummariesStep(c, tables, i, summarized);
      summarized := summarized + [TableEntry(markdown, summary.value)];
      i := i + 1;
    }
    assert tables[..i] == tables;
    r := Ok(s.(summarizedTables := Some(summarized)));
  }

  /** Summarising one more table appends its entry. */
  lemma {:induction false} SummariesSnoc(c: Collaborators, tables: seq<Table>)
    requires |tables| >= 1
    requires Summaries(c, tables[..|tables| - 1]).Ok?
    requires c.summarizeTable(Markdown(tables[|tables| - 1])).Ok?
    ensures Summaries(c, tables) == Ok(Summaries(c, tables[..|tables| - 1]).value +
      [TableEntry(Markdown(tables[|tables| - 1]), c.summarizeTable(Markdown(tables[|tables| - 1])).value)])
  {
    var front := tables[..|tables| - 1];
    var last := tables[|tables| - 1];
    if |tables| == 1 {
      assert front == [] && tables[1..] == [] && last == tables[0];
      assert Summaries(c, tables[1..]) == Ok([]);
      var e := TableEntry(Markdown(last), c.summarizeTable(Markdown(last)).value);
      assert Summaries(c, tables) == Ok([e] + []);
      assert Summaries(c, front).value + [e] == [e] == [e] + [];
    } else {
      assert front[0] == tables[0];
      assert front[1..] == tables[1..][..|tables[1..]| - 1];
      assert tables[1..][|tables[1..]| - 1] == last;
      var e0 := TableEntry(Markdown(tables[0]), c.summarizeTable(Markdown(tables[0])).value);
      assert c.summarizeTable(Markdown(front[0])).Ok?;
      assert Summaries(c, front) == Ok([e0] + Summaries(c, front[1..]).value);
      SummariesSnoc(c, tables[1..]);
      assert Summaries(c, tables) == Ok([e0] + Summaries(c, tables[1..]).value);
      var a := Summaries(c, front[1..]).value;
      var lastEntry := TableEntry(Markdown(last), c.summarizeTable(Markdown(last)).value);
      assert Summaries(c, tables[1..]).value == a + [lastEntry];
      assert [e0] + (a + [lastEntry]) == ([e0] + a) + [lastEntry];
    }
  }

  /** One more turn of the summarising loop. */
  lemma SummariesStep(c: Collaborators, tables: seq<Table>, i: nat, summarized: seq<string>)
    requires i < |tables|
    requires Summaries(c, tables[..i]) == Ok(summarized)
    requires c.summarizeTable(Markdown(tables[i])).Ok?
    ensures Summaries(c, tables[..i + 1])
      == Ok(summarized + [TableEntry(Markdown(tables[i]), c.summarizeTable(Markdown(tables[i])).value)])
  {
    SummariesSnoc(c, tables[..i + 1]);
    assert tables[..i + 1][..i] == tables[..i];
  }

  /** The loop stops at the first table whose summary raises, with that error. */
  lemma {:induction false} SummariesFirstErr(c: Collaborators, tables: seq<Table>, i: nat)
    requires i < |tables|
    requires Summaries(c, tables[..i]).Ok?
    requires c.summarizeTable(Markdown(tables[i])).Err?
    ensures Summaries(c, tables) == Err(c.summarizeTable(Markdown(tables[i])).error)
  {
    if i > 0 {
      assert tables[..i][0] == tables[0];
      assert tables[..i][1..] == tables[1..][..i - 1];
      SummariesFirstErr(c, tables[1..], i - 1);
    }
  }

  /**
   * The markdown reads back line by line: when no cell holds a newline and
   * some row is non-empty, splitting it at newlines gives one line per
   * non-empty row, its cells joined by " | ".
   */
  lemma MarkdownLines(table: Table)
    requires forall r, k :: 0 <= r < |table| && 0 <= k < |table[r]| ==> '\n' !in CellText(table[r][k])
    requires exists r :: 0 <= r < |table| && table[r] != []
    ensures Text.Split(Markdown(table), '\n') == RowLines(table)
  {
    RowLinesNonEmpty(table);
    RowLinesSingleLine(table);
    Text.SplitJoin(RowLines(table), '\n');
  }

  lemma {:induction false} RowLinesNonEmpty(table: Table)
    requires exists r :: 0 <= r < |table| && table[r] != []
    ensures |RowLines(table)| >= 1
  {
    if table[0] == [] {
      var r :| 0 <= r < |table| && table[r] != [];
      assert table[1..][r - 1] == table[r];
      RowLinesNonEmpty(table[1..]);
    }
  }

  lemma {:induction false} RowLinesSingleLine(table: Table)
    requires forall r, k :: 0 <= r < |table| && 0 <= k < |table[r]| ==> '\n' !in CellText(table[r][k])
    ensures forall i :: 0 <= i < |RowLines(table)| ==> '\n' !in RowLines(table)[i]
  {
    if |table| > 0 {
      assert forall r :: 1 <= r < |table| ==> table[1..][r - 1] == table[r];
      RowLinesSingleLine(table[1..]);
      if table[0] != [] {
        Text.JoinExcludes(CellTexts(table[0]), " | ", '\n');
      }
    }
  }

  /** Empty rows contribute nothing to the markdown. */
  lemma {:induction false} RowLinesSkipEmpty(a: Table, b: Table)
    ensures RowLines(a + [[]] + b) == RowLines(a + b)
  {
    if |a| == 0 {
      assert ([] + [[]] + b)[1..] == b;
      assert a + b == b;
    } else {
      assert (a + [[]] + b)[0] == (a + b)[0] == a[0];
      assert (a + [[]] + b)[1..] == a[1..] + [[]] + b;
      assert (a + b)[1..] == a[1..] + b;
      RowLinesSkipEmpty(a[1..], b);
    }
  }

  // --- remaining stages ------------------------------------------------

  /** `generate_proposal_node`: draft the proposal. */
  function GenerateProposalNode(c: Collaborators, s: ProposalState): (r: Result<ProposalState>)
    ensures s.rfpText.None? ==> r == Err(KeyError("rfp_text"))
    ensures s.rfpText.Some? && s.retrievedDocs.None? ==> r == Err(KeyError("retrieved_docs"))
    ensures s.rfpText.Some? && s.retrievedDocs.Some? ==>
      var answer := c.expandRfp(s.rfpText.value, s.retrievedDocs.value, s.summarizedTables.GetOr([]));
      && (answer.Err? ==> r == Err(answer.error))
      && (r.Ok? <==> answer.Ok?)
      && (r.Ok? ==> r.value.proposal == Some(answer.value))
    ensures r.Ok? ==> r.value.proposal.Some? && r.value == s.(proposal := r.value.proposal)
  {
    if s.rfpText.None? then Err(KeyError("rfp_text"))
    else if s.retrievedDocs.None? then Err(KeyError("retrieved_docs"))
    else
      match c.expandRfp(s.rfpText.value, s.retrievedDocs.value, s.summarizedTables.GetOr([]))
      case Err(e) => Err(e)
      case Ok(p) => Ok(s.(proposal := Some(p)))
  }

  /** `optimize_proposal_node`: rewrite the proposal and count the attempt. */
  function OptimizeToneNode(c: Collaborators, s: ProposalState): (r: Result<ProposalState>)
    ensures s.proposal.None? ==> r == Err(KeyError("proposal"))
    ensures s.proposal.Some? ==>
      var answer := c.optimizeProposalTone(s.proposal.value, s.industry.GetOr(JStr("generic")), "persuasive");
      && (answer.Err? ==> r == Err(answer.error))
      && (r.Ok? <==> answer.Ok?)
      && (r.Ok? ==> r.value.proposal == Some(answer.value))
    ensures r.Ok? ==>
      && r.value.proposal.Some?
      && r.value.optimizeAttempts == Some(AttemptsOf(s) + 1)
      && r.value == s.(proposal := r.value.proposal, optimizeAttempts := r.value.optimizeAttempts)
  {
    if s.proposal.None? then Err(KeyError("proposal"))
    else
      match c.optimizeProposalTone(s.proposal.value, s.industry.GetOr(JStr("generic")), "persuasive")
      case Err(e) => Err(e)
      case Ok(p) => Ok(s.(proposal := Some(p), optimizeAttempts := Some(AttemptsOf(s) + 1)))
  }

  /** `check_compliance_node`: store the report and whether it is free of the failure marker. */
  function CheckComplianceNode(c: Collaborators, s: ProposalState): (r: Result<ProposalState>)
    ensures s.rfpText.None? ==> r == Err(KeyError("rfp_text"))
    ensures s.rfpText.Some? && s.proposal.None? ==> r == Err(KeyError("proposal"))
    ensures s.rfpText.Some? && s.proposal.Some? ==>
      var answer := c.checkCompliance(s.rfpText.value, s.proposal.value);
      && (answer.Err? ==> r == Err(answer.error))
      && (r.Ok? <==> answer.Ok?)
      && (r.Ok? ==> r.value.complianceReport == Some(answer.value))
    ensures r.Ok? ==>
      && r.value.complianceReport.Some?
      && var report := r.value.complianceReport.value;
         r.value == s.(complianceReport := Some(report), compliancePassed := Some(CrossMark !in report))
  {
    if s.rfpText.None? then Err(KeyError("rfp_text"))
    else if s.proposal.None? then Err(KeyError("proposal"))
    else
      match c.checkCompliance(s.rfpText.value, s.proposal.value)
      case Err(e) => Err(e)
      case Ok(report) => Ok(s.(complianceReport := Some(report), compliancePassed := Some(CrossMark !in report)))
  }

  /** `compliance_condition`: where the conditional edge after the check leads. */
  function ComplianceCondition(s: ProposalState): (r: Stage)
    ensures r == ScoreProposal || r == OptimizeTone
    ensures s.compliancePassed == Some(true) ==> r == ScoreProposal
    ensures s.compliancePassed != Some(true) ==> (r == ScoreProposal <==> AttemptsOf(s) >= MaxOptimizeAttempts)
  {
    if s.compliancePassed == Some(true) then ScoreProposal
    else if AttemptsOf(s) >= MaxOptimizeAttempts then ScoreProposal
    else OptimizeTone
  }

  /** A stage's new state and the proposals it sent to the index. */
  datatype StepOut = StepOut(state: ProposalState, upserted: seq<string>)

  /**
   * `score_proposal_node`: score the proposal and, unless the state says it
   * was already indexed, upsert it once and set the flag. A failed upsert
   * raises before the flag is set.
   */
  function ScoreProposalNode(c: Collaborators, s: ProposalState): (r: Result<StepOut>)
    ensures s.proposal.None? ==> r == Err(KeyError("proposal"))
    ensures s.proposal.Some? && c.scoreProposalQuality(s.proposal.value).Err? ==>
      r == Err(c.scoreProposalQuality(s.proposal.value).error)
    ensures s.proposal.Some? && c.scoreProposalQuality(s.proposal.value).Ok? && s.proposalIndexed != Some(true) ==>
      (r.Ok? <==> c.upsertProposal(s.proposal.value).Ok?)
    ensures r.Ok? ==>
      && r.value.state.proposalIndexed.Some?
      && r.value.state.scoreReport.Some?
      && s.proposal.Some? && c.scoreProposalQuality(s.proposal.value) == Ok(r.value.state.scoreReport.value)
      && r.value.state == s.(proposalIndexed := r.value.state.proposalIndexed,
                             scoreReport := r.value.state.scoreReport,
                             llmUsageCount := Some(ImportedUsageCount))
      && r.value.state.proposalIndexed == Some(true)
      && (r.value.upserted == if s.proposalIndexed == Some(true) then [] else [s.proposal.value])
      && (s.proposalIndexed == Some(true) ==> r.value.state.proposalIndexed == s.proposalIndexed)
  {
    if s.proposal.None? then Err(KeyError("proposal"))
    else
      match c.scoreProposalQuality(s.proposal.value)
      case Err(e) => Err(e)
      case Ok(score) =>
        var indexed := s.proposalIndexed.GetOr(false);
        var upsert := if indexed then Ok(()) else c.upsertProposal(s.proposal.value);
        if upsert.Err? then Err(upsert.error)
        else
          var s' := if indexed then s else s.(proposalIndexed := Some(true));
          Ok(StepOut(s'.(scoreReport := Some(score), llmUsageCount := Some(ImportedUsageCount)),
                     if indexed then [] else [s.proposal.value]))
  }

  /** Entering the scoring stage a second time indexes nothing more. */
  lemma ScoreTwiceIndexesOnce(c: Collaborators, s: ProposalState)
    requires ScoreProposalNode(c, s).Ok?
    ensures var first := ScoreProposalNode(c, s).value;
      && ScoreProposalNode(c, first.state).Ok?
      && |first.upserted + ScoreProposalNode(c, first.state).value.upserted| <= 1
      && ScoreProposalNode(c, first.state).value.upserted == []
  {
  }

  /** Running one stage on a state. */
  function Step(c: Collaborators, stage: Stage, s: ProposalState): (r: Result<StepOut>)
    ensures r.Ok? && stage == ExtractPdf ==> AttemptsOf(r.value.state) == 0
    ensures r.Ok? && stage == OptimizeTone ==> AttemptsOf(r.value.state) == AttemptsOf(s) + 1
    ensures r.Ok? && stage != ExtractPdf && stage != OptimizeTone ==> AttemptsOf(r.value.state) == AttemptsOf(s)
    ensures r.Ok? && stage != ScoreProposal ==> r.value.upserted == []
    ensures r.Ok? && stage != ScoreProposal ==> r.value.state.proposalIndexed == s.proposalIndexed
  {
    match stage
    case ExtractPdf => Unchanged(ExtractPdfNode(c, s))
    case EnrichRfp => Unchanged(EnrichRfpNode(c, s))
    case RetrieveDocs => Unchanged(RetrieveDocsNode(c, s))
    case SummarizeTables => Unchanged(TableSummaryNode(c, s))
    case GenerateProposal => Unchanged(GenerateProposalNode(c, s))
    case OptimizeTone => Unchanged(OptimizeToneNode(c, s))
    case CheckCompliance => Unchanged(CheckComplianceNode(c, s))
    case ScoreProposal => ScoreProposalNode(c, s)
  }

  /** A stage that sends nothing to the index. */
  function Unchanged(r: Result<ProposalState>): (o: Result<StepOut>)
    ensures o.Ok? <==> r.Ok?
    ensures o.Ok? ==> o.value == StepOut(r.value, [])
    ensures o.Err? ==> o.error == r.error
  {
    match r
    case Err(e) => Err(e)
    case Ok(s') => Ok(StepOut(s', []))
  }

  // ---------------------------------------------------------------------
  // The graph

  /** The edge table: the stage after `stage`, `None` for the end of the graph. */
  function Next(stage: Stage, s: ProposalState): Option<Stage>
  {
    match stage
    case ExtractPdf => Some(EnrichRfp)
    case EnrichRfp => Some(RetrieveDocs)
    case RetrieveDocs => Some(SummarizeTables)
    case SummarizeTables => Some(GenerateProposal)
    case GenerateProposal => Some(OptimizeTone)
    case OptimizeTone => Some(CheckCompliance)
    case CheckCompliance => Some(ComplianceCondition(s))
    case ScoreProposal => None
  }

  /** The graph's edges, listed independently of any state. */
  predicate Edge(a: Stage, b: Stage)
  {
    || (a == ExtractPdf && b == EnrichRfp)
    || (a == EnrichRfp && b == RetrieveDocs)
    || (a == RetrieveDocs && b == SummarizeTables)
    || (a == SummarizeTables && b == GenerateProposal)
    || (a == GenerateProposal && b == OptimizeTone)
    || (a == OptimizeTone && b == CheckCompliance)
    || (a == CheckCompliance && b == ScoreProposal)
    || (a == CheckCompliance && b == OptimizeTone)
  }

  /** The edge table only takes listed edges, and only Score Proposal ends the graph. */
  lemma NextFollowsEdges(stage: Stage, s: ProposalState)
    ensures Next(stage, s).Some? ==> Edge(stage, Next(stage, s).value)
    ensures Next(stage, s).None? <==> stage == ScoreProposal
    ensures stage != CheckCompliance ==> forall t :: Next(stage, t) == Next(stage, s)
  {
  }

  /** A bound on the stages left: it falls with every edge the walk can take. */
  function Rank(stage: Stage, attempts: int): nat
  {
    var d := if attempts >= MaxOptimizeAttempts then 0 else MaxOptimizeAttempts - attempts;
    match stage
    case ScoreProposal => 0
    case CheckCompliance => 2 * d + 1
    case OptimizeTone => if d == 0 then 2 else 2 * d
    case GenerateProposal => 2 * d + 3
    case SummarizeTables => 2 * d + 4
    case RetrieveDocs => 2 * d + 5
    case EnrichRfp => 2 * d + 6
    case ExtractPdf => 2 * d + 11
  }

  /** What a run produced: the stages entered in order, the final state or error, the upserts. */
  datatype RunOutcome = RunOutcome(trace: seq<Stage>, result: Result<ProposalState>, upserted: seq<string>)

  /** The walk from `stage`: run it, follow the edge table, stop at the end or the first error. */
  function Walk(c: Collaborators, stage: Stage, s: ProposalState): (o: RunOutcome)
    ensures |o.trace| >= 1 && o.trace[0] == stage
    decreases Rank(stage, AttemptsOf(s))
  {
    match Step(c, stage, s)
    case Err(e) => RunOutcome([stage], Err(e), [])
    case Ok(out) =>
      match Next(stage, out.state)
      case None => RunOutcome([stage], Ok(out.state), out.upserted)
      case Some(n) =>
        var rest := Walk(c, n, out.state);
        RunOutcome([stage] + rest.trace, rest.result, out.upserted + rest.upserted)
  }

  /** `proposal_agentic_graph.invoke(init)`: the walk from the entry point. */
  function Run(c: Collaborators, init: ProposalState): RunOutcome
  {
    Walk(c, ExtractPdf, init)
  }

  /** One step of the walk, as the runtime loop takes it. */
  lemma WalkUnfold(c: Collaborators, stage: Stage, s: ProposalState)
    ensures Step(c, stage, s).Err? ==> Walk(c, stage, s) == RunOutcome([stage], Err(Step(c, stage, s).error), [])
    ensures Step(c, stage, s).Ok? ==>
      var out := Step(c, stage, s).value;
      match Next(stage, out.state)
      case None => Walk(c, stage, s) == RunOutcome([stage], Ok(out.state), out.upserted)
      case Some(n) =>
        var rest := Walk(c, n, out.state);
        Walk(c, stage, s) == RunOutcome([stage] + rest.trace, rest.result, out.upserted + rest.upserted)
  {
  }

  /** One stage as the runtime runs it; the table stage runs its loop. */
  method RunStage(c: Collaborators, stage: Stage, s: ProposalState) returns (step: Result<StepOut>)
    ensures step == Step(c, stage, s)
  {
    if stage == SummarizeTables {
      var r := SummarizeTablesStep(c, s);
      step := if r.Ok? then Ok(StepOut(r.value, [])) else Err(r.error);
    } else {
      step := Step(c, stage, s);
    }
  }

  /** A walk resumed after `trace` has run and `upserted` has been sent. */
  function Resumed(trace: seq<Stage>, upserted: seq<string>, rest: RunOutcome): RunOutcome
  {
    RunOutcome(trace + rest.trace, rest.result, upserted + rest.upserted)
  }

  /** Taking one more edge keeps the resumed walk the same. */
  lemma ResumeStep(c: Collaborators, stage: Stage, s: ProposalState, trace: seq<Stage>, upserted: seq<string>)
    requires Step(c, stage, s).Ok? && Next(stage, Step(c, stage, s).value.state).Some?
    ensures var out := Step(c, stage, s).value;
      && Resumed(trace, upserted, Walk(c, stage, s))
         == Resumed(trace + [stage], upserted + out.upserted, Walk(c, Next(stage, out.state).value, out.state))
      && Rank(Next(stage, out.state).value, AttemptsOf(out.state)) < Rank(stage, AttemptsOf(s))
  {
    var out := Step(c, stage, s).value;
    WalkUnfold(c, stage, s);
    ResumeCons(trace, upserted, stage, out.upserted, Walk(c, Next(stage, out.state).value, out.state), Walk(c, stage, s));
  }

  /** Moving one stage from the walk onto the resumed prefix. */
  lemma ResumeCons(trace: seq<Stage>, upserted: seq<string>, stage: Stage, sent: seq<string>, rest: RunOutcome, whole: RunOutcome)
    requires whole == RunOutcome([stage] + rest.trace, rest.result, sent + rest.upserted)
    ensures Resumed(trace, upserted, whole) == Resumed(trace + [stage], upserted + sent, rest)
  {
    assert (trace + [stage]) + rest.trace == trace + ([stage] + rest.trace);
    assert (upserted + sent) + rest.upserted == upserted + (sent + rest.upserted);
  }

  /** The graph runtime: a loop that runs the current stage and moves along the edge table. */
  method Invoke(c: Collaborators, init: ProposalState) returns (o: RunOutcome)
    ensures o == Run(c, init)
  {
    var stage, s := ExtractPdf, init;
    var trace: seq<Stage>, upserted: seq<string> := [], [];
    assert Run(c, init) == Resumed(trace, upserted, Walk(c, stage, s));
    while true
      invariant Run(c, init) == Resumed(trace, upserted, Walk(c, stage, s))
      decreases Rank(stage, AttemptsOf(s))
    {
      var step := RunStage(c, stage, s);
      WalkUnfold(c, stage, s);
      if step.Err? {
        return RunOutcome(trace + [stage], Err(step.error), upserted);
      }
      var next := Next(stage, step.value.state);
      if next.None? {
        return RunOutcome(trace + [stage], Ok(step.value.state), upserted + step.value.upserted);
      }
      ResumeStep(c, stage, s, trace, upserted);
      trace, upserted := trace + [stage], upserted + step.value.upserted;
      stage, s := next.value, step.value.state;
    }
  }

  // ---------------------------------------------------------------------
  // Properties of a run

  /** The stages before the optimisation loop, in the order the fixed edges give. */
  const Preamble: seq<Stage> := [ExtractPdf, EnrichRfp, RetrieveDocs, SummarizeTables, GenerateProposal]
  /** The loop when the first compliance check passes. */
  const OnePass: seq<Stage> := [OptimizeTone, CheckCompliance, ScoreProposal]
  /** The loop when the first compliance check fails. */
  const TwoPasses: seq<Stage> := [OptimizeTone, CheckCompliance, OptimizeTone, CheckCompliance, ScoreProposal]

  /** `t` is a non-empty prefix of `full`: the run stopped somewhere along it. */
  predicate PrefixOf(t: seq<Stage>, full: seq<Stage>)
  {
    1 <= |t| <= |full| && full[..|t|] == t
  }

  /** Whether the first compliance check after entering the loop at `s` passes, if both stages succeed. */
  function FirstCheck(c: Collaborators, s: ProposalState): Option<bool>
  {
    var s1 := Step(c, OptimizeTone, s);
    if s1.Err? then None
    else
      var s2 := Step(c, CheckCompliance, s1.value.state);
      if s2.Err? then None else Some(s2.value.state.compliancePassed == Some(true))
  }

  /** The second pass through the loop always ends in scoring. */
  lemma SecondPass(c: Collaborators, s: ProposalState)
    requires AttemptsOf(s) == 1
    ensures var o := Walk(c, OptimizeTone, s);
      && PrefixOf(o.trace, OnePass)
      && (o.result.Ok? ==> o.trace == OnePass && o.result.value.optimizeAttempts == Some(2))
  {
    WalkUnfold(c, OptimizeTone, s);
    if Step(c, OptimizeTone, s).Ok? {
      var s1 := Step(c, OptimizeTone, s).value.state;
      WalkUnfold(c, CheckCompliance, s1);
      if Step(c, CheckCompliance, s1).Ok? {
        var s2 := Step(c, CheckCompliance, s1).value.state;
        assert ComplianceCondition(s2) == ScoreProposal;
        WalkUnfold(c, ScoreProposal, s2);
      }
    }
  }

  /**
   * The optimisation loop entered with no attempts made: one pass when the
   * first check passes, two when it fails, never more.
   */
  lemma FirstPass(c: Collaborators, s: ProposalState)
    requires AttemptsOf(s) == 0
    ensures var o := Walk(c, OptimizeTone, s);
      && (PrefixOf(o.trace, OnePass) || PrefixOf(o.trace, TwoPasses))
      && (o.result.Ok? ==>
            || (o.trace == OnePass && o.result.value.optimizeAttempts == Some(1))
            || (o.trace == TwoPasses && o.result.value.optimizeAttempts == Some(2)))
      && (FirstCheck(c, s) == Some(true) ==> PrefixOf(o.trace, OnePass) && |o.trace| == 3)
      && (FirstCheck(c, s) == Some(false) ==> PrefixOf(o.trace, TwoPasses) && |o.trace| >= 3)
  {
    WalkUnfold(c, OptimizeTone, s);
    if Step(c, OptimizeTone, s).Ok? {
      var s1 := Step(c, OptimizeTone, s).value.state;
      WalkUnfold(c, CheckCompliance, s1);
      if Step(c, CheckCompliance, s1).Ok? {
        var s2 := Step(c, CheckCompliance, s1).value.state;
        if s2.compliancePassed == Some(true) {
          WalkUnfold(c, ScoreProposal, s2);
        } else {
          assert ComplianceCondition(s2) == OptimizeTone;
          SecondPass(c, s2);
          var rest := Walk(c, OptimizeTone, s2);
          assert Walk(c, OptimizeTone, s).trace == [OptimizeTone, CheckCompliance] + rest.trace;
          assert TwoPasses == [OptimizeTone, CheckCompliance] + OnePass;
        }
      }
    }
  }

  /** How many of the fixed stages before the loop remain, counting `stage` itself. */
  function StagesBeforeLoop(stage: Stage): nat
  {
    match stage
    case ExtractPdf => 5
    case EnrichRfp => 4
    case RetrieveDocs => 3
    case SummarizeTables => 2
    case GenerateProposal => 1
    case _ => 0
  }

  /** The state on entering the loop from `stage`, if the fixed stages from there succeed. */
  function EntryFrom(c: Collaborators, stage: Stage, s: ProposalState): Option<ProposalState>
    decreases StagesBeforeLoop(stage)
  {
    if StagesBeforeLoop(stage) == 0 then Some(s)
    else
      match Step(c, stage, s)
      case Err(_) => None
      case Ok(out) => EntryFrom(c, Next(stage, out.state).value, out.state)
  }

  /** The state on entering the loop, if the five stages before it succeed. */
  function LoopEntry(c: Collaborators, init: ProposalState): Option<ProposalState>
  {
    EntryFrom(c, ExtractPdf, init)
  }

  /**
   * `o` stops at a failure somewhere along `rest`, or runs all of `rest`
   * and then continues as `loop`, the walk from the loop's entry.
   */
  predicate Reaches(o: RunOutcome, rest: seq<Stage>, entry: Option<ProposalState>, loop: RunOutcome)
  {
    && (entry.None? ==> PrefixOf(o.trace, rest) && o.result.Err? && o.upserted == [])
    && (entry.Some? ==> o == Resumed(rest, [], loop))
  }

  /** The walk of the loop from `entry`, when there is one. */
  function LoopWalk(c: Collaborators, entry: Option<ProposalState>): RunOutcome
  {
    if entry.Some? then Walk(c, OptimizeTone, entry.value) else RunOutcome([], Err(""), [])
  }

  /** The walk from a fixed stage either fails along the fixed stages left or reaches the loop. */
  ghost predicate ReachesLoop(c: Collaborators, stage: Stage, s: ProposalState)
    requires StagesBeforeLoop(stage) > 0
  {
    var e := EntryFrom(c, stage, s);
    && Reaches(Walk(c, stage, s), Preamble[5 - StagesBeforeLoop(stage)..], e, LoopWalk(c, e))
    && (e.Some? ==> AttemptsOf(e.value) == if stage == ExtractPdf then 0 else AttemptsOf(s))
  }

  /** Putting one stage in front of a walk that reaches the loop. */
  lemma ReachesCons(stage: Stage, rest: seq<Stage>, o: RunOutcome, o': RunOutcome, entry: Option<ProposalState>, loop: RunOutcome)
    requires |rest| >= 2 && rest[0] == stage
    requires o == Resumed([stage], [], o')
    requires Reaches(o', rest[1..], entry, loop)
    ensures Reaches(o, rest, entry, loop)
  {
    if entry.None? {
      assert rest[..|o'.trace| + 1] == [stage] + rest[1..][..|o'.trace|];
    } else {
      assert [stage] + (rest[1..] + loop.trace) == rest + loop.trace;
      assert [] + ([] + loop.upserted) == [] + loop.upserted;
    }
  }

  lemma FromGenerate(c: Collaborators, s: ProposalState)
    ensures ReachesLoop(c, GenerateProposal, s)
  {
    WalkUnfold(c, GenerateProposal, s);
    assert Preamble[4..] == [GenerateProposal];
  }

  lemma FromSummarize(c: Collaborators, s: ProposalState)
    ensures ReachesLoop(c, SummarizeTables, s)
  {
    WalkUnfold(c, SummarizeTables, s);
    var r := Step(c, SummarizeTables, s);
    if r.Ok? {
      var s' := r.value.state;
      FromGenerate(c, s');
      assert Preamble[3..][1..] == Preamble[4..];
      ReachesCons(SummarizeTables, Preamble[3..], Walk(c, SummarizeTables, s), Walk(c, GenerateProposal, s'),
                  EntryFrom(c, GenerateProposal, s'), LoopWalk(c, EntryFrom(c, GenerateProposal, s')));
    } else {
      assert Preamble[3..][..1] == [SummarizeTables];
    }
  }

  lemma FromRetrieve(c: Collaborators, s: ProposalState)
    ensures ReachesLoop(c, RetrieveDocs, s)
  {
    WalkUnfold(c, RetrieveDocs, s);
    var r := Step(c, RetrieveDocs, s);
    if r.Ok? {
      var s' := r.value.state;
      FromSummarize(c, s');
      assert Preamble[2..][1..] == Preamble[3..];
      ReachesCons(RetrieveDocs, Preamble[2..], Walk(c, RetrieveDocs, s), Walk(c, SummarizeTables, s'),
                  EntryFrom(c, SummarizeTables, s'), LoopWalk(c, EntryFrom(c, SummarizeTables, s')));
    } else {
      assert Preamble[2..][..1] == [RetrieveDocs];
    }
  }

  lemma FromEnrich(c: Collaborators, s: ProposalState)
    ensures ReachesLoop(c, EnrichRfp, s)
  {
    WalkUnfold(c, EnrichRfp, s);
    var r := Step(c, EnrichRfp, s);
    if r.Ok? {
      var s' := r.value.state;
      FromRetrieve(c, s');
      assert Preamble[1..][1..] == Preamble[2..];
      ReachesCons(EnrichRfp, Preamble[1..], Walk(c, EnrichRfp, s), Walk(c, RetrieveDocs, s'),
                  EntryFrom(c, RetrieveDocs, s'), LoopWalk(c, EntryFrom(c, RetrieveDocs, s')));
    } else {
      assert Preamble[1..][..1] == [EnrichRfp];
    }
  }

  lemma FromExtract(c: Collaborators, s: ProposalState)
    ensures ReachesLoop(c, ExtractPdf, s)
  {
    WalkUnfold(c, ExtractPdf, s);
    var r := Step(c, ExtractPdf, s);
    if r.Ok? {
      var s' := r.value.state;
      FromEnrich(c, s');
      assert Preamble[0..][1..] == Preamble[1..];
      ReachesCons(ExtractPdf, Preamble[0..], Walk(c, ExtractPdf, s), Walk(c, EnrichRfp, s'),
                  EntryFrom(c, EnrichRfp, s'), LoopWalk(c, EntryFrom(c, EnrichRfp, s')));
    } else {
      assert Preamble[0..][..1] == [ExtractPdf];
    }
  }

  /**
   * A run either fails in the five fixed stages, or reaches the loop with
   * the attempt counter reset and continues as the walk from there.
   */
  lemma RunReachesLoop(c: Collaborators, init: ProposalState)
    ensures var o := Run(c, init);
      && (LoopEntry(c, init).None? ==> PrefixOf(o.trace, Preamble) && o.result.Err? && o.upserted == [])
      && (LoopEntry(c, init).Some? ==>
            && AttemptsOf(LoopEntry(c, init).value) == 0
            && o == Resumed(Preamble, [], Walk(c, OptimizeTone, LoopEntry(c, init).value)))
  {
    FromExtract(c, init);
    assert Preamble[0..] == Preamble;
  }

  /** The shape of the whole run, given the shape of the loop it ended with. */
  lemma ShapeAfterPreamble(o: RunOutcome, loop: RunOutcome)
    requires o == Resumed(Preamble, [], loop)
    requires PrefixOf(loop.trace, OnePass) || PrefixOf(loop.trace, TwoPasses)
    requires loop.result.Ok? ==>
      || (loop.trace == OnePass && loop.result.value.optimizeAttempts == Some(1))
      || (loop.trace == TwoPasses && loop.result.value.optimizeAttempts == Some(2))
    ensures PrefixOf(o.trace, Preamble + OnePass) || PrefixOf(o.trace, Preamble + TwoPasses)
    ensures o.result.Ok? ==>
      || (o.trace == Preamble + OnePass && o.result.value.optimizeAttempts == Some(1))
      || (o.trace == Preamble + TwoPasses && o.result.value.optimizeAttempts == Some(2))
    ensures o.result.Ok? ==> o.result.value.optimizeAttempts == Some(multiset(o.trace)[OptimizeTone])
  {
    if PrefixOf(loop.trace, OnePass) {
      assert (Preamble + OnePass)[..|o.trace|] == Preamble + OnePass[..|loop.trace|];
    } else {
      assert (Preamble + TwoPasses)[..|o.trace|] == Preamble + TwoPasses[..|loop.trace|];
    }
    assert multiset(Preamble + OnePass)[OptimizeTone] == 1;
    assert multiset(Preamble + TwoPasses)[OptimizeTone] == 2;
  }

  /**
   * The shape of every run: the five fixed stages, then one or two
   * optimise-and-check passes, then scoring; a failed run stops somewhere
   * along one of those two paths, and a finished one made as many tone
   * optimisations as its trace shows.
   */
  lemma RunShape(c: Collaborators, init: ProposalState)
    ensures var o := Run(c, init);
      && (PrefixOf(o.trace, Preamble + OnePass) || PrefixOf(o.trace, Preamble + TwoPasses))
      && (o.result.Ok? ==>
            || (o.trace == Preamble + OnePass && o.result.value.optimizeAttempts == Some(1))
            || (o.trace == Preamble + TwoPasses && o.result.value.optimizeAttempts == Some(2)))
      && (o.result.Ok? ==> o.result.value.optimizeAttempts == Some(multiset(o.trace)[OptimizeTone]))
  {
    RunReachesLoop(c, init);
    var o := Run(c, init);
    if LoopEntry(c, init).None? {
      assert (Preamble + OnePass)[..|o.trace|] == Preamble[..|o.trace|];
    } else {
      FirstPass(c, LoopEntry(c, init).value);
      ShapeAfterPreamble(o, Walk(c, OptimizeTone, LoopEntry(c, init).value));
    }
  }

  /** When the first check of a run passes, the run optimises the tone exactly once. */
  lemma FirstCheckDecides(c: Collaborators, init: ProposalState)
    requires LoopEntry(c, init).Some?
    ensures var o := Run(c, init);
      && (FirstCheck(c, LoopEntry(c, init).value) == Some(true) ==> |o.trace| == 8 && PrefixOf(o.trace, Preamble + OnePass))
      && (FirstCheck(c, LoopEntry(c, init).value) == Some(false) ==> |o.trace| >= 8 && PrefixOf(o.trace, Preamble + TwoPasses))
  {
    RunReachesLoop(c, init);
    var entry := LoopEntry(c, init).value;
    FirstPass(c, entry);
    DecidedAfterPreamble(Run(c, init), Walk(c, OptimizeTone, entry), FirstCheck(c, entry));
  }

  /** How the first check's verdict on the loop carries over to the whole run. */
  lemma DecidedAfterPreamble(o: RunOutcome, loop: RunOutcome, verdict: Option<bool>)
    requires o == Resumed(Preamble, [], loop)
    requires verdict == Some(true) ==> PrefixOf(loop.trace, OnePass) && |loop.trace| == 3
    requires verdict == Some(false) ==> PrefixOf(loop.trace, TwoPasses) && |loop.trace| >= 3
    ensures verdict == Some(true) ==> |o.trace| == 8 && PrefixOf(o.trace, Preamble + OnePass)
    ensures verdict == Some(false) ==> |o.trace| >= 8 && PrefixOf(o.trace, Preamble + TwoPasses)
  {
    if verdict == Some(true) {
      assert (Preamble + OnePass)[..|o.trace|] == Preamble + OnePass[..|loop.trace|];
    }
    if verdict == Some(false) {
      assert (Preamble + TwoPasses)[..|o.trace|] == Preamble + TwoPasses[..|loop.trace|];
    }
  }

  /** `check_compliance` always reports at least one violation. */
  ghost predicate NeverCompliant(c: Collaborators)
  {
    forall t, p :: c.checkCompliance(t, p).Ok? ==> CrossMark in c.checkCompliance(t, p).value
  }

  /** Under a checker that never passes, a successful check records a failure and keeps the count. */
  lemma CheckNeverPasses(c: Collaborators, s: ProposalState)
    requires NeverCompliant(c)
    ensures var r := Step(c, CheckCompliance, s);
      r.Ok? ==> r.value.state.compliancePassed == Some(false) && AttemptsOf(r.value.state) == AttemptsOf(s)
  {
    if Step(c, CheckCompliance, s).Ok? {
      var report := c.checkCompliance(s.rfpText.value, s.proposal.value);
      assert CrossMark in report.value;
    }
  }

  /** One optimise-and-check pass under a checker that never passes. */
  lemma PassNonCompliant(c: Collaborators, s: ProposalState)
    requires NeverCompliant(c)
    requires AttemptsOf(s) == 0 || AttemptsOf(s) == 1
    ensures var o := Walk(c, OptimizeTone, s);
      o.result.Ok? ==>
        && |o.trace| >= 3 && o.trace[..2] == [OptimizeTone, CheckCompliance]
        && Step(c, OptimizeTone, s).Ok?
        && Step(c, CheckCompliance, Step(c, OptimizeTone, s).value.state).Ok?
        && var s2 := Step(c, CheckCompliance, Step(c, OptimizeTone, s).value.state).value.state;
           && s2.compliancePassed == Some(false)
           && AttemptsOf(s2) == AttemptsOf(s) + 1
           && o == Resumed([OptimizeTone, CheckCompliance], [], Walk(c, ComplianceCondition(s2), s2))
  {
    WalkUnfold(c, OptimizeTone, s);
    if Step(c, OptimizeTone, s).Ok? {
      var s1 := Step(c, OptimizeTone, s).value.state;
      WalkUnfold(c, CheckCompliance, s1);
      CheckNeverPasses(c, s1);
      if Step(c, CheckCompliance, s1).Ok? {
        var s2 := Step(c, CheckCompliance, s1).value.state;
        ComposePass(Walk(c, OptimizeTone, s), Walk(c, CheckCompliance, s1), Walk(c, ComplianceCondition(s2), s2));
      }
    }
  }

  /** An optimise stage and a check stage that send nothing, followed by the rest of the walk. */
  lemma ComposePass(o: RunOutcome, afterOptimize: RunOutcome, rest: RunOutcome)
    requires |rest.trace| >= 1
    requires o == RunOutcome([OptimizeTone] + afterOptimize.trace, afterOptimize.result, [] + afterOptimize.upserted)
    requires afterOptimize == RunOutcome([CheckCompliance] + rest.trace, rest.result, [] + rest.upserted)
    ensures |o.trace| >= 3 && o.trace[..2] == [OptimizeTone, CheckCompliance]
    ensures o == Resumed([OptimizeTone, CheckCompliance], [], rest)
  {
    assert [OptimizeTone] + ([CheckCompliance] + rest.trace) == [OptimizeTone, CheckCompliance] + rest.trace;
    assert [] + ([] + rest.upserted) == [] + rest.upserted;
  }

  /** The loop under a checker that never passes: two passes, and a failing report at the end. */
  lemma LoopNonCompliant(c: Collaborators, s: ProposalState)
    requires NeverCompliant(c)
    requires AttemptsOf(s) == 0
    ensures var o := Walk(c, OptimizeTone, s);
      o.result.Ok? ==>
        && o.trace == TwoPasses
        && o.result.value.compliancePassed == Some(false)
        && o.result.value.optimizeAttempts == Some(2)
  {
    PassNonCompliant(c, s);
    FirstPass(c, s);
    var o := Walk(c, OptimizeTone, s);
    if o.result.Ok? {
      var s2 := Step(c, CheckCompliance, Step(c, OptimizeTone, s).value.state).value.state;
      assert ComplianceCondition(s2) == OptimizeTone;
      PassNonCompliant(c, s2);
      var o2 := Walk(c, OptimizeTone, s2);
      var s4 := Step(c, CheckCompliance, Step(c, OptimizeTone, s2).value.state).value.state;
      assert ComplianceCondition(s4) == ScoreProposal;
      WalkUnfold(c, ScoreProposal, s4);
    }
  }

  /** A compliance checker that always reports a violation gives two passes and a failing report. */
  lemma AlwaysNonCompliant(c: Collaborators, init: ProposalState)
    requires NeverCompliant(c)
    ensures var o := Run(c, init);
      o.result.Ok? ==>
        && o.trace == Preamble + TwoPasses
        && o.result.value.compliancePassed == Some(false)
        && o.result.value.optimizeAttempts == Some(2)
  {
    RunReachesLoop(c, init);
    if LoopEntry(c, init).Some? {
      LoopNonCompliant(c, LoopEntry(c, init).value);
    }
  }

  /** A run whose state has no `rfp_path` fails in the first stage with the KeyError's text. */
  lemma RunWithoutPath(c: Collaborators, init: ProposalState)
    requires init.rfpPath.None?
    ensures Run(c, init) == RunOutcome([ExtractPdf], Err(KeyError("rfp_path")), [])
  {
    WalkUnfold(c, ExtractPdf, init);
  }

  /** A parser failure ends the run at the first stage with the parser's error. */
  lemma RunParseFailure(c: Collaborators, init: ProposalState)
    requires init.rfpPath.Some? && c.parseRfpPdf(init.rfpPath.value).Err?
    ensures Run(c, init) == RunOutcome([ExtractPdf], Err(c.parseRfpPdf(init.rfpPath.value).error), [])
  {
    WalkUnfold(c, ExtractPdf, init);
  }

  /**
   * Upserts: a failed walk sends nothing; a finished one leaves the flag set
   * and has sent the final proposal once, unless the flag was set already.
   */
  lemma {:induction false} WalkUpserts(c: Collaborators, stage: Stage, s: ProposalState)
    ensures var o := Walk(c, stage, s);
      && (o.result.Err? ==> o.upserted == [])
      && (o.result.Ok? ==>
            && o.result.value.proposalIndexed == Some(true)
            && o.result.value.proposal.Some?
            && o.upserted == if s.proposalIndexed == Some(true) then [] else [o.result.value.proposal.value])
    decreases Rank(stage, AttemptsOf(s))
  {
    WalkUnfold(c, stage, s);
    if Step(c, stage, s).Ok? {
      var out := Step(c, stage, s).value;
      if Next(stage, out.state).Some? {
        ResumeStep(c, stage, s, [], []);
        WalkUpserts(c, Next(stage, out.state).value, out.state);
      }
    }
  }

  /** Consecutive stages of a walk are edges of the graph, and a finished walk ends at scoring. */
  lemma {:induction false} WalkFollowsEdges(c: Collaborators, stage: Stage, s: ProposalState)
    ensures var o := Walk(c, stage, s);
      && (forall i :: 0 <= i < |o.trace| - 1 ==> Edge(o.trace[i], o.trace[i + 1]))
      && (o.result.Ok? ==> o.trace[|o.trace| - 1] == ScoreProposal)
    decreases Rank(stage, AttemptsOf(s))
  {
    WalkUnfold(c, stage, s);
    if Step(c, stage, s).Ok? {
      var out := Step(c, stage, s).value;
      NextFollowsEdges(stage, out.state);
      if Next(stage, out.state).Some? {
        var n := Next(stage, out.state).value;
        ResumeStep(c, stage, s, [], []);
        WalkFollowsEdges(c, n, out.state);
        var o := Walk(c, stage, s);
        var rest := Walk(c, n, out.state);
        assert o.trace == [stage] + rest.trace;
        forall i | 0 <= i < |o.trace| - 1 ensures Edge(o.trace[i], o.trace[i + 1]) {
          if i > 0 {
            assert o.trace[i] == rest.trace[i - 1] && o.trace[i + 1] == rest.trace[i];
          }
        }
      }
    }
  }
}
