/**
 * The deterministic parts of the language-model helper module: the Latin-1
 * filter applied before PDF export, the default-merge-dedupe of extracted
 * RFP metadata, the token tally kept across calls, and the block of past
 * proposals quoted in the drafting prompt. The model calls themselves are
 * opaque; their answers arrive here as parameters.
 */
module LlmUtils {
  import opened Wrappers
  import opened Values
  import Text

  // ---------------------------------------------------------------------
  // remove_unsupported_unicode: text.encode('latin-1', errors='ignore').decode('latin-1')

  predicate IsLatin1(c: char)
  {
    c as int <= 255
  }

  /** Drops every character Latin-1 cannot encode, keeping the others in order. */
  function RemoveUnsupportedUnicode(text: string): (r: string)
    ensures forall i :: 0 <= i < |r| ==> IsLatin1(r[i])
    ensures |r| <= |text|
  {
    if |text| == 0 then ""
    else (if IsLatin1(text[0]) then [text[0]] else []) + RemoveUnsupportedUnicode(text[1..])
  }

  /** The filter works character by character: it distributes over concatenation. */
  lemma {:induction false} RemoveUnsupportedUnicodeAppend(a: string, b: string)
    ensures RemoveUnsupportedUnicode(a + b) == RemoveUnsupportedUnicode(a) + RemoveUnsupportedUnicode(b)
  {
    if |a| == 0 {
      assert a + b == b;
    } else {
      assert (a + b)[0] == a[0] && (a + b)[1..] == a[1..] + b;
      RemoveUnsupportedUnicodeAppend(a[1..], b);
    }
  }

  /** Text that Latin-1 can already encode passes through unchanged. */
  lemma {:induction false} RemoveUnsupportedUnicodeKeepsLatin1(text: string)
    requires forall i :: 0 <= i < |text| ==> IsLatin1(text[i])
    ensures RemoveUnsupportedUnicode(text) == text
  {
    if |text| > 0 {
      RemoveUnsupportedUnicodeKeepsLatin1(text[1..]);
      assert text == [text[0]] + text[1..];
    }
  }

  /** Applying the filter twice is the same as applying it once. */
  lemma RemoveUnsupportedUnicodeIdempotent(text: string)
    ensures RemoveUnsupportedUnicode(RemoveUnsupportedUnicode(text)) == RemoveUnsupportedUnicode(text)
  {
    RemoveUnsupportedUnicodeKeepsLatin1(RemoveUnsupportedUnicode(text));
  }

  /** A character survives exactly when it occurs in the input and is Latin-1. */
  lemma {:induction false} RemoveUnsupportedUnicodeMembers(text: string, c: char)
    ensures c in RemoveUnsupportedUnicode(text) <==> c in text && IsLatin1(c)
  {
    if |text| > 0 {
      RemoveUnsupportedUnicodeMembers(text[1..], c);
      assert text == [text[0]] + text[1..];
    }
  }

  // ---------------------------------------------------------------------
  // extract_rfp_metadata: merge the parsed answer into the defaults, then dedupe

  /** What `safe_json_parse` made of the model's answer. */
  datatype ParseOutcome =
    | ParseFailed          // json.loads and json5.loads both raised
    | Parsed(value: Json)

  /** The seven keys the result always carries, with their defaults. */
  function Defaults(): (m: map<string, Json>)
    ensures m.Keys == {"project_name", "client_name", "deadline", "industry", "region", "constraints", "client_needs"}
    ensures m["industry"] == JStr("generic") && m["region"] == JStr("global")
    ensures m["project_name"] == m["client_name"] == m["deadline"] == JStr("")
    ensures m["constraints"] == m["client_needs"] == JList([])
  {
    map["project_name" := JStr(""), "client_name" := JStr(""), "deadline" := JStr(""),
        "industry" := JStr("generic"), "region" := JStr("global"),
        "constraints" := JList([]), "client_needs" := JList([])]
  }

  /**
   * One iteration of the merge loop. `None` means the iteration raised (a
   * list for a key that is absent, or whose value has no `extend`), which
   * ends the loop; earlier iterations keep their effect.
   */
  function MergeStep(m: map<string, Json>, k: string, v: Json): (r: Option<map<string, Json>>)
    ensures r.None? <==> v.JList? && !(k in m && m[k].JList?)
    ensures v.JList? && k in m && m[k].JList? ==> r == Some(m[k := JList(m[k].items + v.items)])
    ensures !v.JList? && Truthy(v) ==> r == Some(m[k := v])
    ensures !v.JList? && !Truthy(v) ==> r == Some(m)
  {
    if v.JList? then
      if k in m && m[k].JList? then Some(m[k := JList(m[k].items + v.items)]) else None
    else if Truthy(v) then Some(m[k := v])
    else Some(m)
  }

  function ItemKeys(items: seq<(string, Json)>): set<string>
  {
    set i | 0 <= i < |items| :: items[i].0
  }

  /** The loop over `meta.items()`, stopped by the first iteration that raises. */
  function MergeAll(m: map<string, Json>, items: seq<(string, Json)>): (r: map<string, Json>)
    ensures m.Keys <= r.Keys <= m.Keys + ItemKeys(items)
    decreases |items|
  {
    if |items| == 0 then m
    else
      match MergeStep(m, items[0].0, items[0].1)
      case None => m
      case Some(m') =>
        assert ItemKeys(items) == {items[0].0} + ItemKeys(items[1..]) by {
          assert forall i :: 0 < i < |items| ==> items[i] == items[1..][i - 1];
        }
        MergeAll(m', items[1..])
  }

  /** The dictionary after the merge loop; a non-dict answer fails at `.items()`. */
  function Merged(parsed: ParseOutcome): (m: map<string, Json>)
  {
    match parsed
    case Parsed(JObj(items)) => MergeAll(Defaults(), items)
    case _ => Defaults()
  }

  /** Python's `set.fromkeys`-like first-occurrence deduplication. */
  function Distinct(xs: seq<Json>): (r: seq<Json>)
    ensures forall i, j :: 0 <= i < j < |r| ==> r[i] != r[j]
    ensures forall x :: x in r <==> x in xs
  {
    if |xs| == 0 then []
    else
      var d := Distinct(xs[..|xs| - 1]);
      assert xs == xs[..|xs| - 1] + [xs[|xs| - 1]];
      if xs[|xs| - 1] in d then d else d + [xs[|xs| - 1]]
  }

  function FirstUnhashable(xs: seq<Json>): (i: nat)
    requires exists k :: 0 <= k < |xs| && !Hashable(xs[k])
    ensures i < |xs| && !Hashable(xs[i])
    ensures forall j :: 0 <= j < i ==> Hashable(xs[j])
  {
    if !Hashable(xs[0]) then 0
    else
      assert exists k :: 0 <= k < |xs[1..]| && !Hashable(xs[1..][k]) by {
        var k :| 0 <= k < |xs| && !Hashable(xs[k]);
        assert xs[1..][k - 1] == xs[k];
      }
      1 + FirstUnhashable(xs[1..])
  }

  function Chars(s: string): seq<Json>
  {
    seq(|s|, i requires 0 <= i < |s| => JStr([s[i]]))
  }

  function Keys(fields: seq<(string, Json)>): seq<Json>
  {
    seq(|fields|, i requires 0 <= i < |fields| => JStr(fields[i].0))
  }

  /**
   * `list(set(v))`: the distinct elements of a list, characters of a string
   * or keys of a dict; raises for anything else and for unhashable elements.
   * Python leaves the order unspecified; first occurrences are kept here.
   */
  function SetToList(v: Json): (r: Result<Json>)
    ensures r.Ok? ==> r.value.JList?
    ensures r.Ok? ==> forall i, j :: 0 <= i < j < |r.value.items| ==> r.value.items[i] != r.value.items[j]
    ensures v.JList? ==> (r.Ok? <==> forall i :: 0 <= i < |v.items| ==> Hashable(v.items[i]))
    ensures v.JList? && r.Ok? ==> forall x :: x in r.value.items <==> x in v.items
    ensures !v.JList? && !v.JStr? && !v.JObj? ==> r.Err?
  {
    match v
    case JList(xs) =>
      if forall i :: 0 <= i < |xs| ==> Hashable(xs[i]) then Ok(JList(Distinct(xs)))
      else Err("unhashable type: '" + TypeName(xs[FirstUnhashable(xs)]) + "'")
    case JStr(s) => Ok(JList(Distinct(Chars(s))))
    case JObj(fs) => Ok(JList(Distinct(Keys(fs))))
    case _ => Err("'" + TypeName(v) + "' object is not iterable")
  }

  /** The value `extract_rfp_metadata` returns, or the error it lets escape. */
  function ExtractedMetadata(parsed: ParseOutcome): Result<map<string, Json>>
  {
    var m := Merged(parsed);
    match SetToList(m["constraints"])
    case Err(e) => Err(e)
    case Ok(c) =>
      match SetToList(m["client_needs"])
      case Err(e) => Err(e)
      case Ok(n) => Ok(m["constraints" := c]["client_needs" := n])
  }

  /**
   * The merge loop and the deduplication, as the source runs them: list
   * values extend the current list, other truthy values overwrite, falsy
   * values are skipped, and an iteration that raises ends the loop silently.
   */
  method ExtractRfpMetadata(parsed: ParseOutcome) returns (r: Result<map<string, Json>>)
    ensures r == ExtractedMetadata(parsed)
  {
    var extracted := Defaults();
    if parsed.Parsed? && parsed.value.JObj? {
      var items := parsed.value.fields;
      var i := 0;
      while i < |items|
        invariant 0 <= i <= |items|
        invariant MergeAll(extracted, items[i..]) == MergeAll(Defaults(), items)
      {
        var (k, v) := items[i];
        assert items[i..][0] == (k, v) && items[i..][1..] == items[i + 1..];
        if v.JList? {
          if k in extracted && extracted[k].JList? {
            extracted := extracted[k := JList(extracted[k].items + v.items)];
          } else {
            break;
          }
        } else if Truthy(v) {
          extracted := extracted[k := v];
        }
        i := i + 1;
      }
    }
    assert extracted == Merged(parsed);
    var constraints := SetToList(extracted["constraints"]);
    if constraints.Err? {
      return Err(constraints.error);
    }
    var needs := SetToList(extracted["client_needs"]);
    if needs.Err? {
      return Err(needs.error);
    }
    extracted := extracted["constraints" := constraints.value];
    extracted := extracted["client_needs" := needs.value];
    r := Ok(extracted);
  }

  /** An answer that could not be parsed leaves exactly the defaults. */
  lemma MetadataParseFailure()
    ensures ExtractedMetadata(ParseFailed) == Ok(Defaults())
  {
    assert Distinct([]) == [];
    assert Defaults()["constraints" := JList([])]["client_needs" := JList([])] == Defaults();
  }

  /**
   * Whatever the answer, a returned dictionary holds the seven default
   * keys, and its `constraints` and `client_needs` are duplicate-free lists;
   * when the merge left them as lists, with the same elements as before.
   */
  lemma MetadataShape(parsed: ParseOutcome)
    ensures var r := ExtractedMetadata(parsed);
      r.Ok? ==>
        && Defaults().Keys <= r.value.Keys
        && (forall k :: k in r.value && k !in {"constraints", "client_needs"} ==> r.value[k] == Merged(parsed)[k])
        && (forall k | k in {"constraints", "client_needs"} ::
              && r.value[k].JList?
              && (forall i, j :: 0 <= i < j < |r.value[k].items| ==> r.value[k].items[i] != r.value[k].items[j])
              && (Merged(parsed)[k].JList? ==>
                    forall x :: x in r.value[k].items <==> x in Merged(parsed)[k].items))
  {
  }

  /** Deduplication fails exactly when a merged value cannot become a set. */
  lemma MetadataFailsOnlyOnDedupe(parsed: ParseOutcome)
    ensures ExtractedMetadata(parsed).Err? <==>
      SetToList(Merged(parsed)["constraints"]).Err? || SetToList(Merged(parsed)["client_needs"]).Err?
  {
  }

  /** Items with falsy, non-list values leave the dictionary as it was. */
  lemma {:induction false} MergeSkipsFalsy(m: map<string, Json>, items: seq<(string, Json)>)
    requires forall i :: 0 <= i < |items| ==> !items[i].1.JList? && !Truthy(items[i].1)
    ensures MergeAll(m, items) == m
  {
    if |items| > 0 {
      MergeSkipsFalsy(m, items[1..]);
    }
  }

  /** A key that no item names keeps its value through the whole merge. */
  lemma {:induction false} MergeKeepsUnnamed(m: map<string, Json>, items: seq<(string, Json)>, k: string)
    requires k in m
    requires forall i :: 0 <= i < |items| ==> items[i].0 != k
    ensures MergeAll(m, items)[k] == m[k]
    decreases |items|
  {
    if |items| > 0 {
      match MergeStep(m, items[0].0, items[0].1)
      case None =>
      case Some(m') =>
        MergeKeepsUnnamed(m', items[1..], k);
    }
  }

  /** A list answer extends the current list: defaults come first, then the answer's elements. */
  lemma MergeExtendsList(m: map<string, Json>, k: string, xs: seq<Json>, rest: seq<(string, Json)>)
    requires k in m && m[k].JList?
    ensures MergeAll(m, [(k, JList(xs))] + rest) == MergeAll(m[k := JList(m[k].items + xs)], rest)
  {
    assert ([(k, JList(xs))] + rest)[1..] == rest;
  }

  /** Any other truthy answer overwrites the current value, default or not. */
  lemma MergeOverwrites(m: map<string, Json>, k: string, v: Json, rest: seq<(string, Json)>)
    requires !v.JList? && Truthy(v)
    ensures MergeAll(m, [(k, v)] + rest) == MergeAll(m[k := v], rest)
  {
    assert ([(k, v)] + rest)[1..] == rest;
  }

  // ---------------------------------------------------------------------
  // Token accounting: _record_usage and _record_embedding_usage

  /** The `token_tally` counters. */
  datatype Tally = Tally(freshPrompt: int, cachedPrompt: int, completion: int, training: int, embeddings: int)

  /** A usage report: token counts by name; a missing name counts as 0. */
  type Usage = map<string, int>

  function Get(u: Usage, key: string): int
  {
    if key in u then u[key] else 0
  }

  /** The tally after `_record_usage(u)`. */
  function WithUsage(t: Tally, u: Usage): (r: Tally)
    ensures r.freshPrompt + r.cachedPrompt == t.freshPrompt + t.cachedPrompt + Get(u, "prompt_tokens")
    ensures r.cachedPrompt - t.cachedPrompt == Get(u, "cached_prompt_tokens")
    ensures r.completion - t.completion == Get(u, "completion_tokens")
    ensures r.training - t.training == Get(u, "training_tokens")
    ensures r.embeddings == t.embeddings
  {
    Tally(t.freshPrompt + (Get(u, "prompt_tokens") - Get(u, "cached_prompt_tokens")),
          t.cachedPrompt + Get(u, "cached_prompt_tokens"),
          t.completion + Get(u, "completion_tokens"),
          t.training + Get(u, "training_tokens"),
          t.embeddings)
  }

  /** The tokens an embedding call is charged: `prompt_tokens`, else `total_tokens`, else 0. */
  function EmbeddingTokens(u: Usage): (n: int)
    ensures "prompt_tokens" in u ==> n == u["prompt_tokens"]
    ensures "prompt_tokens" !in u ==> n == Get(u, "total_tokens")
  {
    if "prompt_tokens" in u then u["prompt_tokens"] else Get(u, "total_tokens")
  }

  /** The tally after `_record_embedding_usage(u)`: only `embeddings` moves. */
  function WithEmbeddingUsage(t: Tally, u: Usage): (r: Tally)
    ensures r == t.(embeddings := r.embeddings)
    ensures r.embeddings - t.embeddings == EmbeddingTokens(u)
  {
    t.(embeddings := t.embeddings + EmbeddingTokens(u))
  }

  /** The tally after recording each report of `us` in turn. */
  function WithUsages(t: Tally, us: seq<Usage>): Tally
    decreases |us|
  {
    if |us| == 0 then t else WithUsages(WithUsage(t, us[0]), us[1..])
  }

  function SumOf(us: seq<Usage>, key: string): int
  {
    if |us| == 0 then 0 else Get(us[0], key) + SumOf(us[1..], key)
  }

  /**
   * Across any number of calls, fresh plus cached prompt tokens account for
   * every reported prompt token, completions for every completion token,
   * and embedding tokens are never touched.
   */
  lemma {:induction false} WithUsagesTotals(t: Tally, us: seq<Usage>)
    ensures var r := WithUsages(t, us);
      && r.freshPrompt + r.cachedPrompt == t.freshPrompt + t.cachedPrompt + SumOf(us, "prompt_tokens")
      && r.cachedPrompt == t.cachedPrompt + SumOf(us, "cached_prompt_tokens")
      && r.completion == t.completion + SumOf(us, "completion_tokens")
      && r.training == t.training + SumOf(us, "training_tokens")
      && r.embeddings == t.embeddings
    decreases |us|
  {
    if |us| > 0 {
      WithUsagesTotals(WithUsage(t, us[0]), us[1..]);
    }
  }

  /** The order in which usage reports arrive does not change the tally. */
  lemma WithUsageCommutes(t: Tally, u: Usage, v: Usage)
    ensures WithUsage(WithUsage(t, u), v) == WithUsage(WithUsage(t, v), u)
  {
  }

  /**
   * The module-level counters: `llm_usage_count` and `token_tally`. The JSON
   * copy written to the token file after each update is not modelled.
   */
  class LlmAccounting {
    var llmUsageCount: int
    var freshPrompt: int
    var cachedPrompt: int
    var completion: int
    var training: int
    var embeddings: int

    function Snapshot(): Tally
      reads this
    {
      Tally(freshPrompt, cachedPrompt, completion, training, embeddings)
    }

    /** The counters as the module starts them: all zero. */
    constructor ()
      ensures llmUsageCount == 0 && Snapshot() == Tally(0, 0, 0, 0, 0)
    {
      llmUsageCount := 0;
      freshPrompt, cachedPrompt, completion, training, embeddings := 0, 0, 0, 0, 0;
    }

    /** `_record_usage(usage)`. */
    method RecordUsage(usage: Usage)
      modifies this
      ensures Snapshot() == WithUsage(old(Snapshot()), usage)
      ensures llmUsageCount == old(llmUsageCount)
    {
      freshPrompt := freshPrompt + (Get(usage, "prompt_tokens") - Get(usage, "cached_prompt_tokens"));
      cachedPrompt := cachedPrompt + Get(usage, "cached_prompt_tokens");
      completion := completion + Get(usage, "completion_tokens");
      training := training + Get(usage, "training_tokens");
    }

    /** `_record_embedding_usage(usage)`. */
    method RecordEmbeddingUsage(usage: Usage)
      modifies this
      ensures Snapshot() == WithEmbeddingUsage(old(Snapshot()), usage)
      ensures llmUsageCount == old(llmUsageCount)
    {
      var tokens := if "prompt_tokens" in usage then usage["prompt_tokens"]
                    else if "total_tokens" in usage then usage["total_tokens"] else 0;
      embeddings := embeddings + tokens;
    }

    /** `llm_utils.llm_usage_count = 0`, done by the upload route. */
    method ResetUsageCount()
      modifies this
      ensures llmUsageCount == 0 && Snapshot() == old(Snapshot())
    {
      llmUsageCount := 0;
    }
  }

  // ---------------------------------------------------------------------
  // expand_rfp: the block of past proposals

  const NoSimilarDocuments: string := "No similar documents found."

  /** The `i`-th reference, labelled from 1. */
  function ReferenceEntry(i: nat, doc: string): string
  {
    "\U{1F539} **Reference " + Text.NatToString(i) + "**:\n" + doc
  }

  function ReferenceEntries(docs: seq<string>): (r: seq<string>)
    ensures |r| == |docs|
    ensures forall i :: 0 <= i < |docs| ==> r[i] == ReferenceEntry(i + 1, docs[i])
  {
    seq(|docs|, i requires 0 <= i < |docs| => ReferenceEntry(i + 1, docs[i]))
  }

  /** `"\n\n".join(entries) or "No similar documents found."` for `retrieved_docs or []`. */
  function ReferencesBlock(docs: Option<seq<string>>): string
  {
    var joined := Text.Join(ReferenceEntries(docs.GetOr([])), "\n\n");
    if joined == "" then NoSimilarDocuments else joined
  }

  /**
   * The fallback text appears exactly when there are no documents: with at
   * least one document the join is never empty, and it starts with the
   * first label rather than with the fallback's text.
   */
  lemma ReferencesBlockFallback(docs: Option<seq<string>>)
    ensures ReferencesBlock(docs) == NoSimilarDocuments <==> docs.GetOr([]) == []
  {
    var entries := ReferenceEntries(docs.GetOr([]));
    forall i | 0 <= i < |entries| ensures entries[i] != "" {
      assert entries[i][0] == '\U{1F539}';
    }
    Text.JoinEmpty(entries, "\n\n");
    if |entries| > 0 {
      Text.JoinStartsWithFirst(entries, "\n\n");
      var joined := Text.Join(entries, "\n\n");
      assert joined[0] == entries[0][0] == '\U{1F539}';
      assert NoSimilarDocuments[0] == 'N';
    }
  }

  /** With documents, the block lists them all in order, labelled 1 to n. */
  lemma ReferencesBlockLists(docs: seq<string>)
    requires docs != []
    ensures ReferencesBlock(Some(docs)) == Text.Join(ReferenceEntries(docs), "\n\n")
  {
    ReferencesBlockFallback(Some(docs));
  }
}
