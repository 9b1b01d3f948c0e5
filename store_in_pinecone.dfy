/**
 * The document chunker of the indexing script: a text is cut into sections
 * at lines that open with a first- or second-level markdown heading, and
 * only sections longer than 100 characters become documents, each tagged
 * with the name of a source file.
 */
module StoreInPinecone {
  import Text

  /** `line.startswith('# ') or line.startswith('## ')`. */
  predicate IsHeading(line: string)
  {
    Text.StartsWith(line, "# ") || Text.StartsWith(line, "## ")
  }

  /** A third-level heading does not open a section. */
  lemma ThirdLevelIsNotHeading(line: string)
    requires Text.StartsWith(line, "### ")
    ensures !IsHeading(line)
  {
    assert line[1] == '#' && line[2] == '#';
  }

  // ---------------------------------------------------------------------
  // Sections as groups of lines

  /** The lines of all groups, in order. */
  function Flatten(gs: seq<seq<string>>): seq<string>
  {
    if |gs| == 0 then [] else gs[0] + Flatten(gs[1..])
  }

  predicate NonEmptyGroups(gs: seq<seq<string>>)
  {
    forall i :: 0 <= i < |gs| ==> |gs[i]| >= 1
  }

  /**
   * The lines `c` put in front of the groups `g`: a group of their own when
   * `g` opens with a heading, the start of `g`'s first group otherwise.
   */
  function Combine(c: seq<string>, g: seq<seq<string>>): (r: seq<seq<string>>)
    requires NonEmptyGroups(g)
    ensures NonEmptyGroups(r)
    ensures Flatten(r) == c + Flatten(g)
    ensures c != [] ==> |r| >= 1 && |c| <= |r[0]| && r[0][..|c|] == c
  {
    if c == [] then g
    else if g == [] then [c]
    else if IsHeading(g[0][0]) then
      assert ([c] + g)[1..] == g;
      [c] + g
    else
      assert ([c + g[0]] + g[1..])[1..] == g[1..];
      [c + g[0]] + g[1..]
  }

  /** The line groups `create_meaningful_chunks` forms: a new group at every heading line. */
  function Groups(lines: seq<string>): (r: seq<seq<string>>)
    ensures NonEmptyGroups(r)
    ensures lines != [] ==> |r| >= 1 && r[0][0] == lines[0]
  {
    if |lines| == 0 then [] else Combine([lines[0]], Groups(lines[1..]))
  }

  /** The groups hold every line, in order. */
  lemma {:induction false} GroupsFlatten(lines: seq<string>)
    ensures Flatten(Groups(lines)) == lines
  {
    if |lines| > 0 {
      GroupsFlatten(lines[1..]);
      assert lines == [lines[0]] + lines[1..];
    }
  }

  /** Every group after the first opens with a heading, and no heading is inside a group. */
  lemma {:induction false} GroupsHeadings(lines: seq<string>)
    ensures forall i :: 1 <= i < |Groups(lines)| ==> IsHeading(Groups(lines)[i][0])
    ensures forall i, j :: 0 <= i < |Groups(lines)| && 1 <= j < |Groups(lines)[i]| ==> !IsHeading(Groups(lines)[i][j])
  {
    if |lines| > 0 {
      var g := Groups(lines[1..]);
      GroupsHeadings(lines[1..]);
      var r := Groups(lines);
      if g == [] {
        assert r == [[lines[0]]];
      } else if IsHeading(g[0][0]) {
        assert r == [[lines[0]]] + g;
        forall i | 1 <= i < |r| ensures IsHeading(r[i][0]) {
          assert r[i] == g[i - 1];
        }
        forall i, j | 0 <= i < |r| && 1 <= j < |r[i]| ensures !IsHeading(r[i][j]) {
          assert i >= 1 && r[i] == g[i - 1];
        }
      } else {
        assert r == [[lines[0]] + g[0]] + g[1..];
        forall i | 1 <= i < |r| ensures IsHeading(r[i][0]) {
          assert r[i] == g[i];
        }
        forall i, j | 0 <= i < |r| && 1 <= j < |r[i]| ensures !IsHeading(r[i][j]) {
          if i == 0 {
            assert r[0][j] == g[0][j - 1];
          } else {
            assert r[i] == g[i];
          }
        }
      }
    }
  }

  /** Each group joined back into one text. */
  function JoinEach(gs: seq<seq<string>>): (r: seq<string>)
    ensures |r| == |gs| && forall i :: 0 <= i < |gs| ==> r[i] == Text.Join(gs[i], "\n")
  {
    seq(|gs|, i requires 0 <= i < |gs| => Text.Join(gs[i], "\n"))
  }

  /** `create_meaningful_chunks(text)`. */
  function Sections(text: string): seq<string>
  {
    JoinEach(Groups(Text.Split(text, '\n')))
  }

  /** The number of heading lines. */
  function HeadingCount(lines: seq<string>): nat
  {
    if |lines| == 0 then 0 else (if IsHeading(lines[0]) then 1 else 0) + HeadingCount(lines[1..])
  }

  // ---------------------------------------------------------------------
  // The loop

  lemma CombineSnoc(c: seq<string>, line: string, g: seq<seq<string>>)
    requires c != [] && !IsHeading(line) && NonEmptyGroups(g)
    ensures Combine(c + [line], g) == Combine(c, Combine([line], g))
  {
    if g != [] && !IsHeading(g[0][0]) {
      assert c + [line] + g[0] == c + ([line] + g[0]);
    }
  }

  lemma CombineHeading(c: seq<string>, line: string, g: seq<seq<string>>)
    requires c != [] && IsHeading(line) && NonEmptyGroups(g)
    ensures Combine(c, Combine([line], g)) == [c] + Combine([line], g)
  {
  }

  /** What one line does to the loop's split of `Groups(lines)` into closed groups and the open one. */
  lemma {:induction false} ChunkStep(lines: seq<string>, i: nat, done: seq<seq<string>>, current: seq<string>)
    requires i < |lines|
    requires i == 0 ==> current == [] && done == []
    requires i > 0 ==> current != []
    requires Groups(lines) == done + Combine(current, Groups(lines[i..]))
    ensures IsHeading(lines[i]) && current != [] ==>
      Groups(lines) == (done + [current]) + Combine([lines[i]], Groups(lines[i + 1..]))
    ensures !(IsHeading(lines[i]) && current != []) ==>
      Groups(lines) == done + Combine(current + [lines[i]], Groups(lines[i + 1..]))
  {
    var line := lines[i];
    var rest := Groups(lines[i + 1..]);
    assert lines[i..] == [line] + lines[i + 1..];
    assert Groups(lines[i..]) == Combine([line], rest);
    if current == [] {
      assert i == 0 && lines[i..] == lines;
      assert current + [line] == [line];
    } else if IsHeading(line) {
      CombineHeading(current, line, rest);
    } else {
      CombineSnoc(current, line, rest);
    }
  }

  /** After the last line, the open group (if any) is the last group. */
  lemma ChunkEnd(lines: seq<string>, done: seq<seq<string>>, current: seq<string>)
    requires Groups(lines) == done + Combine(current, Groups(lines[|lines|..]))
    ensures Groups(lines) == if current == [] then done else done + [current]
  {
    assert lines[|lines|..] == [];
  }

  lemma JoinEachSnoc(gs: seq<seq<string>>, g: seq<string>)
    ensures JoinEach(gs + [g]) == JoinEach(gs) + [Text.Join(g, "\n")]
  {
  }

  /** `create_meaningful_chunks`: one pass over the lines, closing a section at each heading. */
  method CreateMeaningfulChunks(text: string) returns (sections: seq<string>)
    ensures sections == Sections(text)
  {
    var lines := Text.Split(text, '\n');
    sections := [];
    var current: seq<string> := [];
    ghost var done: seq<seq<string>> := [];
    for i := 0 to |lines|
      invariant sections == JoinEach(done)
      invariant i == 0 ==> current == [] && done == []
      invariant i > 0 ==> current != []
      invariant Groups(lines) == done + Combine(current, Groups(lines[i..]))
    {
      var line := lines[i];
      ChunkStep(lines, i, done, current);
      if IsHeading(line) && current != [] {
        JoinEachSnoc(done, current);
        sections := sections + [Text.Join(current, "\n")];
        done := done + [current];
        current := [line];
      } else {
        current := current + [line];
      }
    }
    ChunkEnd(lines, done, current);
    if current != [] {
      JoinEachSnoc(done, current);
      sections := sections + [Text.Join(current, "\n")];
      done := done + [current];
    }
  }

  // ---------------------------------------------------------------------
  // Properties of the sections

  lemma {:induction false} JoinFlatten(gs: seq<seq<string>>)
    requires |gs| >= 1 && NonEmptyGroups(gs)
    ensures Text.Join(JoinEach(gs), "\n") == Text.Join(Flatten(gs), "\n")
  {
    if |gs| == 1 {
      assert Flatten(gs) == gs[0] + Flatten([]) == gs[0];
      assert JoinEach(gs) == [Text.Join(gs[0], "\n")];
    } else {
      var rest := gs[1..];
      JoinFlatten(rest);
      assert JoinEach(gs) == [Text.Join(gs[0], "\n")] + JoinEach(rest);
      Text.JoinCons(Text.Join(gs[0], "\n"), JoinEach(rest), "\n");
      Text.JoinAppend(gs[0], Flatten(rest), "\n");
    }
  }

  /** Joining the sections with newlines gives back the text. */
  lemma SectionsRejoin(text: string)
    ensures Text.Join(Sections(text), "\n") == text
  {
    var lines := Text.Split(text, '\n');
    JoinFlatten(Groups(lines));
    GroupsFlatten(lines);
    Text.JoinSplit(text, '\n');
  }

  /** There is always at least one section, even for the empty text. */
  lemma SectionsNonEmpty(text: string)
    ensures |Sections(text)| >= 1
    ensures text == "" ==> Sections(text) == [""]
  {
    if text == "" {
      assert Text.Split(text, '\n') == [""];
      assert Groups([""]) == [[""]];
    }
  }

  /** Every section after the first begins with a first- or second-level heading. */
  lemma SectionsStartWithHeading(text: string)
    ensures forall i :: 1 <= i < |Sections(text)| ==>
      Text.StartsWith(Sections(text)[i], "# ") || Text.StartsWith(Sections(text)[i], "## ")
  {
    var gs := Groups(Text.Split(text, '\n'));
    GroupsHeadings(Text.Split(text, '\n'));
    forall i | 1 <= i < |gs|
      ensures Text.StartsWith(Sections(text)[i], "# ") || Text.StartsWith(Sections(text)[i], "## ")
    {
      Text.JoinStartsWithFirst(gs[i], "\n");
      if Text.StartsWith(gs[i][0], "# ") {
        Text.StartsWithTrans(Sections(text)[i], gs[i][0], "# ");
      } else {
        Text.StartsWithTrans(Sections(text)[i], gs[i][0], "## ");
      }
    }
  }

  /** A heading line is only ever the first line of a section. */
  lemma HeadingsOpenSections(text: string)
    ensures forall i :: 0 <= i < |Sections(text)| ==>
      var lines := Text.Split(Sections(text)[i], '\n');
      forall j :: 1 <= j < |lines| ==> !IsHeading(lines[j])
  {
    var gs := Groups(Text.Split(text, '\n'));
    GroupsHeadings(Text.Split(text, '\n'));
    GroupsFlatten(Text.Split(text, '\n'));
    forall i | 0 <= i < |gs|
      ensures Text.Split(Sections(text)[i], '\n') == gs[i]
    {
      assert forall j :: 0 <= j < |gs[i]| ==> gs[i][j] in Flatten(gs) by {
        forall j | 0 <= j < |gs[i]| ensures gs[i][j] in Flatten(gs) {
          InFlatten(gs, i, j);
        }
      }
      Text.SplitJoin(gs[i], '\n');
    }
  }

  lemma {:induction false} InFlatten(gs: seq<seq<string>>, i: nat, j: nat)
    requires i < |gs| && j < |gs[i]|
    ensures gs[i][j] in Flatten(gs)
  {
    if i > 0 {
      InFlatten(gs[1..], i - 1, j);
    }
  }

  lemma {:induction false} GroupsCount(lines: seq<string>)
    requires |lines| >= 1
    ensures |Groups(lines)| == HeadingCount(lines) + (if IsHeading(lines[0]) then 0 else 1)
  {
    if |lines| > 1 {
      GroupsCount(lines[1..]);
    }
  }

  /** There are as many sections as heading lines, plus one when the text does not open with a heading. */
  lemma SectionsCount(text: string)
    ensures var lines := Text.Split(text, '\n');
      |Sections(text)| == HeadingCount(lines) + (if IsHeading(lines[0]) then 0 else 1)
  {
    GroupsCount(Text.Split(text, '\n'));
  }

  // ---------------------------------------------------------------------
  // Documents

  datatype Document = Document(pageContent: string, source: string)

  /** A document file that was read, with its name as listed. */
  datatype SourceFile = SourceFile(name: string, text: string)

  /** The chunks longer than 100 characters, in order, each tagged with `source`. */
  function LongDocuments(chunks: seq<string>, source: string): (r: seq<Document>)
    ensures forall d :: d in r ==> |d.pageContent| > 100 && d.pageContent in chunks && d.source == source
    ensures forall c :: c in chunks && |c| > 100 ==> Document(c, source) in r
    ensures |r| <= |chunks|
  {
    if |chunks| == 0 then []
    else
      var front := chunks[..|chunks| - 1];
      var last := chunks[|chunks| - 1];
      var r := LongDocuments(front, source) + (if |last| > 100 then [Document(last, source)] else []);
      assert chunks == front + [last];
      r
  }

  /** The filter loop for one text's chunks. */
  method KeepMeaningful(chunks: seq<string>, source: string) returns (docs: seq<Document>)
    ensures docs == LongDocuments(chunks, source)
  {
    docs := [];
    for i := 0 to |chunks|
      invariant docs == LongDocuments(chunks[..i], source)
    {
      assert chunks[..i + 1][..i] == chunks[..i];
      if |chunks[i]| > 100 {
        docs := docs + [Document(chunks[i], source)];
      }
    }
    assert chunks[..|chunks|] == chunks;
  }

  /**
   * The documents as the script builds them: every chunk of every text is
   * tagged with the same name, the last one the directory listing gave.
   */
  function DocumentsAsWritten(texts: seq<string>, lastListed: string): (r: seq<Document>)
    ensures forall d :: d in r ==> d.source == lastListed
  {
    if |texts| == 0 then []
    else DocumentsAsWritten(texts[..|texts| - 1], lastListed) + LongDocuments(Sections(texts[|texts| - 1]), lastListed)
  }

  /** Each file's long chunks tagged with that file's own name. */
  function Documents(files: seq<SourceFile>): seq<Document>
  {
    if |files| == 0 then []
    else Documents(files[..|files| - 1]) + LongDocuments(Sections(files[|files| - 1].text), files[|files| - 1].name)
  }

  /** Every document is a long section of a file that was read, tagged with that file's name. */
  lemma {:induction false} DocumentsSourced(files: seq<SourceFile>, d: Document)
    requires d in Documents(files)
    ensures |d.pageContent| > 100
    ensures exists k :: 0 <= k < |files| && d.source == files[k].name && d.pageContent in Sections(files[k].text)
  {
    var front := files[..|files| - 1];
    var last := files[|files| - 1];
    if d in Documents(front) {
      DocumentsSourced(front, d);
      var k :| 0 <= k < |front| && d.source == front[k].name && d.pageContent in Sections(front[k].text);
      assert front[k] == files[k];
    } else {
      assert d in LongDocuments(Sections(last.text), last.name);
    }
  }

  /** Building the documents: chunk each file's text and keep its long chunks under its own name. */
  method BuildDocuments(files: seq<SourceFile>) returns (docs: seq<Document>)
    ensures docs == Documents(files)
  {
    docs := [];
    for i := 0 to |files|
      invariant docs == Documents(files[..i])
    {
      var file := files[i];
      assert files[..i + 1][..i] == files[..i] && files[..i + 1][i] == file;
      assert Documents(files[..i + 1]) == Documents(files[..i]) + LongDocuments(Sections(file.text), file.name);
      var chunks := CreateMeaningfulChunks(file.text);
      var kept := KeepMeaningful(chunks, file.name);
      docs := docs + kept;
    }
    assert files[..|files|] == files;
  }

  /** A single-line text is one section. */
  lemma SingleLineSection(t: string)
    requires '\n' !in t
    ensures Sections(t) == [t]
  {
    Text.SplitNoSeparator(t, '\n');
    assert Groups([t]) == [[t]];
  }

  /**
   * As written, a long chunk of the first file is attributed to the last
   * file listed: two single-line files `n1` and `n2`, the first longer than
   * 100 characters, give a document of `t1` whose source is `n2`.
   */
  lemma AsWrittenMislabels(t1: string, t2: string, n1: string, n2: string)
    requires '\n' !in t1 && |t1| > 100 && n1 != n2
    ensures Document(t1, n2) in DocumentsAsWritten([t1, t2], n2)
    ensures forall d :: d in DocumentsAsWritten([t1, t2], n2) ==> d.source != n1
  {
    SingleLineSection(t1);
    assert [t1, t2][..1] == [t1];
    assert DocumentsAsWritten([t1], n2) == LongDocuments([t1], n2);
  }

  /** Tagging each chunk with its own file names the first file for `t1`. */
  lemma DocumentsKeepSource(t1: string, t2: string, n1: string, n2: string)
    requires '\n' !in t1 && |t1| > 100
    ensures Document(t1, n1) in Documents([SourceFile(n1, t1), SourceFile(n2, t2)])
  {
    SingleLineSection(t1);
    var files := [SourceFile(n1, t1), SourceFile(n2, t2)];
    assert files[..1] == [SourceFile(n1, t1)];
    assert Documents([SourceFile(n1, t1)]) == LongDocuments([t1], n1);
  }
}
