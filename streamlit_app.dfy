/**
 * The two pieces of logic in the Streamlit front end: colouring an agent's
 * status for the dashboard, and preparing the latest proposal for PDF
 * export (refuse a blank text, otherwise keep its stripped non-blank lines).
 */
module StreamlitApp {
  import opened Wrappers
  import opened Values
  import Text
  import ProposalRoutes

  const Done: char := '\U{2705}'
  const Failed: char := '\U{274C}'
  const Thinking: char := '\U{1F9E0}'

  datatype Colour = Green | Red | Blue | Gray

  function ColourName(c: Colour): string
  {
    match c
    case Green => "green"
    case Red => "red"
    case Blue => "blue"
    case Gray => "gray"
  }

  /** The colour `format_status` picks: the first of the three marks the status contains wins. */
  function StatusColour(status: string): (r: Colour)
    ensures r == Green <==> Done in status
    ensures r == Red <==> Done !in status && Failed in status
    ensures r == Blue <==> Done !in status && Failed !in status && Thinking in status
    ensures r == Gray <==> Done !in status && Failed !in status && Thinking !in status
  {
    if Done in status then Green
    else if Failed in status then Red
    else if Thinking in status then Blue
    else Gray
  }

  /** Streamlit's coloured-text markup `:colour[text]`. */
  function Markup(c: Colour, text: string): string
  {
    ":" + ColourName(c) + "[" + text + "]"
  }

  /** `format_status(status)`. */
  function FormatStatus(status: string): string
  {
    Markup(StatusColour(status), status)
  }

  function ColourNamed(name: string): Option<Colour>
  {
    if name == "green" then Some(Green)
    else if name == "red" then Some(Red)
    else if name == "blue" then Some(Blue)
    else if name == "gray" then Some(Gray)
    else None
  }

  /** Reads `:colour[text]` back, for a colour word followed by `[`. */
  function ParseMarkup(m: string): Option<(Colour, string)>
  {
    if |m| < 2 || m[0] != ':' || m[|m| - 1] != ']' then None
    else
      var inner := m[1..|m| - 1];
      if |inner| >= 6 && inner[5] == '[' && ColourNamed(inner[..5]).Some? then
        Some((ColourNamed(inner[..5]).value, inner[6..]))
      else if |inner| >= 5 && inner[4] == '[' && ColourNamed(inner[..4]).Some? then
        Some((ColourNamed(inner[..4]).value, inner[5..]))
      else if |inner| >= 4 && inner[3] == '[' && ColourNamed(inner[..3]).Some? then
        Some((ColourNamed(inner[..3]).value, inner[4..]))
      else None
  }

  /** The markup is read back to the colour and the untouched text. */
  lemma ParseMarkupInverts(c: Colour, text: string)
    ensures ParseMarkup(Markup(c, text)) == Some((c, text))
  {
    var name := ColourName(c);
    var m := Markup(c, text);
    var inner := m[1..|m| - 1];
    assert inner == name + "[" + text;
    assert inner[..|name|] == name;
    assert inner[|name| + 1..] == text;
    match c
    case Green =>
    case Red =>
      assert inner[3] == '[';
      if |inner| >= 5 {
        assert inner[..5][0] == 'r';
      }
      assert inner[..4][0] == 'r';
    case Blue =>
      assert inner[4] == '[';
      assert inner[..5] != "green" by { assert inner[4] == '['; }
    case Gray =>
      assert inner[4] == '[';
      assert inner[..5] != "green" by { assert inner[4] == '['; }
  }

  /** The formatted status shows the status unchanged, in the colour its marks select. */
  lemma FormatStatusEmbeds(status: string)
    ensures ParseMarkup(FormatStatus(status)) == Some((StatusColour(status), status))
  {
    ParseMarkupInverts(StatusColour(status), status);
  }

  /** Two different statuses never format alike. */
  lemma FormatStatusInjective(a: string, b: string)
    requires FormatStatus(a) == FormatStatus(b)
    ensures a == b
  {
    FormatStatusEmbeds(a);
    FormatStatusEmbeds(b);
  }

  // ---------------------------------------------------------------------
  // Export

  /** `line.strip() for line in lines if line.strip()`. */
  function Kept(lines: seq<string>): (r: seq<string>)
    ensures |r| <= |lines|
    ensures forall i :: 0 <= i < |r| ==> r[i] != ""
  {
    if |lines| == 0 then []
    else
      var line := Text.Strip(lines[0]);
      var rest := Kept(lines[1..]);
      if line == "" then rest else [line] + rest
  }

  /** Stripping never introduces a newline. */
  lemma {:induction false} KeptNoNewline(lines: seq<string>)
    requires forall j :: 0 <= j < |lines| ==> '\n' !in lines[j]
    ensures forall i :: 0 <= i < |Kept(lines)| ==> '\n' !in Kept(lines)[i]
  {
    if |lines| > 0 {
      KeptNoNewline(lines[1..]);
      Text.StripInside(lines[0], '\n');
    }
  }

  /** The text written into the PDF. */
  function CleanLines(text: string): string
  {
    Text.Join(Kept(Text.Split(text, '\n')), "\n")
  }

  /** Filtering keeps the order of the lines: it distributes over concatenation. */
  lemma {:induction false} KeptAppend(a: seq<string>, b: seq<string>)
    ensures Kept(a + b) == Kept(a) + Kept(b)
  {
    if |a| > 0 {
      assert (a + b)[1..] == a[1..] + b;
      KeptAppend(a[1..], b);
    } else {
      assert a + b == b;
    }
  }

  /** The lines of a text all strip to nothing exactly when the whole text is whitespace. */
  lemma {:induction false} KeptSplitEmpty(text: string)
    ensures Kept(Text.Split(text, '\n')) == [] <==> Text.AllSpace(text)
  {
    if |text| > 0 {
      var rest := Text.Split(text[1..], '\n');
      KeptSplitEmpty(text[1..]);
      Text.StripEmpty("");
      if text[0] == '\n' {
        assert Text.Split(text, '\n') == [""] + rest;
        assert ([""] + rest)[1..] == rest;
        assert Text.AllSpace(text) <==> Text.AllSpace(text[1..]) by {
          if Text.AllSpace(text[1..]) {
            forall i | 0 <= i < |text| ensures Text.IsSpace(text[i]) {
              if i > 0 { assert text[i] == text[1..][i - 1]; }
            }
          }
        }
      } else {
        var first := [text[0]] + rest[0];
        assert Text.Split(text, '\n') == [first] + rest[1..];
        assert ([first] + rest[1..])[1..] == rest[1..];
        assert rest == [rest[0]] + rest[1..];
        assert rest[1..] == rest[1..][..];
        Text.StripEmpty(first);
        Text.StripEmpty(rest[0]);
        assert Kept(rest) == Kept([rest[0]] + rest[1..]);
        assert ([rest[0]] + rest[1..])[1..] == rest[1..];
        // text is all whitespace iff its first line is and the text after that line is.
        assert Text.AllSpace(text) <==> Text.AllSpace(first) && Text.AllSpace(text[1..]) by {
          assert first[0] == text[0];
          if Text.AllSpace(first) && Text.AllSpace(text[1..]) {
            forall i | 0 <= i < |text| ensures Text.IsSpace(text[i]) {
              if i > 0 { assert text[i] == text[1..][i - 1]; }
            }
          }
          if Text.AllSpace(text) {
            forall i | 0 <= i < |text[1..]| ensures Text.IsSpace(text[1..][i]) {
              assert text[1..][i] == text[i + 1];
            }
            AllSpaceFirstLine(text[1..]);
            forall i | 0 <= i < |first| ensures Text.IsSpace(first[i]) {
              if i > 0 { assert first[i] == rest[0][i - 1]; }
            }
          }
        }
        if Text.AllSpace(first) {
          forall i | 0 <= i < |rest[0]| ensures Text.IsSpace(rest[0][i]) {
            assert rest[0][i] == first[i + 1];
          }
        }
      }
    }
  }

  /** The first line of a whitespace-only text is whitespace-only. */
  lemma {:induction false} AllSpaceFirstLine(text: string)
    requires Text.AllSpace(text)
    ensures Text.AllSpace(Text.Split(text, '\n')[0])
  {
    if |text| > 0 {
      var tail := text[1..];
      assert Text.AllSpace(tail) by {
        forall i | 0 <= i < |tail| ensures Text.IsSpace(tail[i]) {
          assert tail[i] == text[i + 1];
        }
      }
      AllSpaceFirstLine(tail);
      if text[0] != '\n' {
        var line := [text[0]] + Text.Split(tail, '\n')[0];
        assert Text.Split(text, '\n')[0] == line;
        forall i | 0 <= i < |line| ensures Text.IsSpace(line[i]) {
          if i > 0 { assert line[i] == Text.Split(tail, '\n')[0][i - 1]; }
        }
      }
    }
  }

  /** The cleaned text is empty exactly when the original text is whitespace-only. */
  lemma CleanLinesEmpty(text: string)
    ensures CleanLines(text) == "" <==> Text.AllSpace(text)
  {
    KeptSplitEmpty(text);
    Text.JoinEmpty(Kept(Text.Split(text, '\n')), "\n");
  }

  /** Splitting the cleaned text at newlines gives back exactly the kept lines, in order. */
  lemma CleanLinesSplit(text: string)
    requires !Text.AllSpace(text)
    ensures Text.Split(CleanLines(text), '\n') == Kept(Text.Split(text, '\n'))
  {
    KeptSplitEmpty(text);
    KeptNoNewline(Text.Split(text, '\n'));
    Text.SplitJoin(Kept(Text.Split(text, '\n')), '\n');
  }

  /** What the export button does with the fetched text. */
  datatype ExportOutcome = Refused | Exported(pdfText: string)

  /**
   * The export step: `fetched` is the `proposal` field of a successful reply
   * and `None` when the request failed, in which case the text is empty.
   */
  function Export(fetched: Option<string>): (r: ExportOutcome)
    ensures r.Refused? <==> Text.AllSpace(fetched.GetOr(""))
    ensures r.Exported? ==> r.pdfText != "" && r.pdfText == CleanLines(fetched.value)
  {
    var text := fetched.GetOr("");
    Text.StripEmpty(text);
    if Text.Strip(text) == "" then Refused
    else
      CleanLinesEmpty(text);
      Exported(CleanLines(text))
  }

  /** The backend's reply for a memory holding `latest`, as the export step reads it. */
  function FetchLatest(latest: string): Option<string>
  {
    Some(ProposalRoutes.LatestReply(latest)["proposal"].s)
  }

  /**
   * With no proposal stored, the backend answers with its sentinel sentence
   * rather than an empty text, so the blank check lets it through and the
   * sentence is exported as the proposal.
   */
  lemma EmptyMemoryExportsSentinel()
    ensures Export(FetchLatest("")) == Exported(CleanLines(ProposalRoutes.NoProposal))
  {
    var s := ProposalRoutes.NoProposal;
    assert FetchLatest("") == Some(s);
    assert s == "No proposal found. Please generate or refine the proposal first.";
    assert s[|s| - 1] == '.';
    assert !Text.AllSpace(s) by { assert !Text.IsSpace(s[|s| - 1]); }
  }

  /** A one-line text without surrounding whitespace is exported as it is. */
  lemma CleanOneLine(s: string)
    requires '\n' !in s && |s| > 0 && !Text.IsSpace(s[0]) && !Text.IsSpace(s[|s| - 1])
    ensures CleanLines(s) == s
  {
    assert Text.TrimStart(s) == s;
    assert Text.Strip(s) == s;
    Text.SplitNoSeparator(s, '\n');
    assert Kept([s]) == [s] by { assert [s][1..] == []; }
  }

  /** The export step with the sentinel sentence treated as no proposal. */
  function ExportGuarded(fetched: Option<string>): (r: ExportOutcome)
    ensures r.Refused? <==> Text.AllSpace(fetched.GetOr("")) || fetched == Some(ProposalRoutes.NoProposal)
    ensures r.Exported? ==> r == Export(fetched)
  {
    if fetched == Some(ProposalRoutes.NoProposal) then Refused else Export(fetched)
  }

  /** With the guard, export is refused exactly when the stored proposal is blank. */
  lemma GuardedExportRefusesBlank(latest: string)
    requires latest != ProposalRoutes.NoProposal
    ensures ExportGuarded(FetchLatest(latest)).Refused? <==> Text.AllSpace(latest)
  {
    if latest == "" {
      assert FetchLatest(latest) == Some(ProposalRoutes.NoProposal);
    } else {
      assert FetchLatest(latest) == Some(latest);
    }
  }
}
