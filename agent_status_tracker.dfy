/**
 * The agent status store: a label -> {state, timestamp} dictionary kept in a
 * status file, and an audit log file that only ever grows. The two files
 * become two fields of a class; an absent file is `None`. The JSON
 * serialisation in between is taken to round-trip exactly.
 */
module AgentStatusTracker {
  import opened Wrappers
  import Text

  /** A `time.strftime("%Y-%m-%d %H:%M:%S")` stamp, supplied by the caller. */
  type Timestamp = string

  /** One agent's entry: its state text and when it was set (`None` before any update). */
  datatype Entry = Entry(state: string, timestamp: Option<Timestamp>)

  const Pending: string := "\U{23F3} Pending"
  const NoLogs: string := "No logs yet."

  /** `AGENTS`: the labels a reset creates. */
  const Agents: seq<string> := ["RFP Analyzer", "Context Retriever", "Proposal Generator",
                                "Strategy Optimizer", "Compliance Checker", "Scorer"]

  /** The dictionary `reset_status` writes: every agent pending, with no timestamp. */
  function PendingStatus(): (m: map<string, Entry>)
    ensures m.Keys == {"RFP Analyzer", "Context Retriever", "Proposal Generator",
                       "Strategy Optimizer", "Compliance Checker", "Scorer"}
    ensures |m| == 6
    ensures forall a :: a in m ==> m[a] == Entry(Pending, None)
  {
    var e := Entry(Pending, None);
    map[Agents[0] := e, Agents[1] := e, Agents[2] := e, Agents[3] := e, Agents[4] := e, Agents[5] := e]
  }

  /** The line `update_status` appends to the log. */
  function AuditLine(t: Timestamp, agent: string, newStatus: string): string
  {
    "[" + t + "] " + agent + ": " + newStatus + "\n"
  }

  /** The dictionary a read sees: the file's contents, or a fresh reset if there is none. */
  function Current(status: Option<map<string, Entry>>): map<string, Entry>
  {
    status.GetOr(PendingStatus())
  }

  function LogText(log: Option<string>): string
  {
    log.GetOr("")
  }

  /**
   * Every update adds exactly one line to the log, provided the timestamp,
   * the label and the state are single-line texts.
   */
  lemma AuditLineAddsOneLine(log: Option<string>, t: Timestamp, agent: string, newStatus: string)
    requires '\n' !in t && '\n' !in agent && '\n' !in newStatus
    ensures Text.CountChar(LogText(log) + AuditLine(t, agent, newStatus), '\n')
         == Text.CountChar(LogText(log), '\n') + 1
  {
    var line := AuditLine(t, agent, newStatus);
    var body := "[" + t + "] " + agent + ": " + newStatus;
    assert line == body + "\n";
    assert '\n' !in body;
    Text.CountAbsent(body, '\n');
    Text.CountAppend(body, "\n", '\n');
    Text.CountAppend(LogText(log), line, '\n');
  }

  /** The dictionary after `update_status(agent, s)`: one entry set, all others kept. */
  function Updated(status: Option<map<string, Entry>>, agent: string, s: string, t: Timestamp): (m: map<string, Entry>)
    ensures m.Keys == Current(status).Keys + {agent}
    ensures m[agent] == Entry(s, Some(t))
    ensures forall a :: a in Current(status) && a != agent ==> m[a] == Current(status)[a]
  {
    Current(status)[agent := Entry(s, Some(t))]
  }

  /** An update of a label outside `AGENTS` (such as "Table Summarizer") adds a seventh key. */
  lemma UpdateAddsUnknownLabel(t: Timestamp, s: string)
    ensures |Updated(Some(PendingStatus()), "Table Summarizer", s, t)| == 7
  {
    var m := Updated(Some(PendingStatus()), "Table Summarizer", s, t);
    assert m.Keys == PendingStatus().Keys + {"Table Summarizer"};
    assert "Table Summarizer" !in PendingStatus().Keys;
  }

  /** The pair of files behind `agent_status_tracker`. */
  class StatusStore {
    /** The status file's dictionary, `None` while the file does not exist. */
    var status: Option<map<string, Entry>>
    /** The audit log file's text, `None` while the file does not exist. */
    var log: Option<string>

    /** The store over whatever files exist when the process starts. */
    constructor (status0: Option<map<string, Entry>>, log0: Option<string>)
      ensures status == status0 && log == log0
    {
      status := status0;
      log := log0;
    }

    /** `reset_status`: overwrite the whole dictionary; the log is not touched. */
    method ResetStatus()
      modifies this
      ensures status == Some(PendingStatus())
      ensures log == old(log)
    {
      status := Some(PendingStatus());
    }

    /**
     * `update_status(agent, new_status)`: set one entry (after a lazy reset
     * if there is no status file) and append one audit line, even when the
     * state is unchanged.
     */
    method UpdateStatus(agent: string, newStatus: string, now: Timestamp)
      modifies this
      ensures status == Some(Updated(old(status), agent, newStatus, now))
      ensures log == Some(LogText(old(log)) + AuditLine(now, agent, newStatus))
    {
      if status.None? {
        ResetStatus();
      }
      var data := status.value;
      data := data[agent := Entry(newStatus, Some(now))];
      status := Some(data);
      var text := if log.Some? then log.value else "";
      log := Some(text + AuditLine(now, agent, newStatus));
    }

    /** `get_status`: the dictionary, after a lazy reset if there is no status file. */
    method GetStatus() returns (m: map<string, Entry>)
      modifies this
      ensures m == Current(old(status))
      ensures status == Some(m) && log == old(log)
    {
      if status.None? {
        ResetStatus();
      }
      m := status.value;
    }

    /** `get_log`: the whole log, or the sentinel while no log file exists. */
    method GetLog() returns (text: string)
      ensures log.None? ==> text == NoLogs
      ensures log.Some? ==> text == log.value
    {
      text := if log.Some? then log.value else NoLogs;
    }
  }
}
