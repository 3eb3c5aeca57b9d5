/**
 * The docstring reflow of `mundane/app.py`: a text is cut into paragraphs
 * (its first line alone, then every maximal block of non-blank lines of
 * the rest), each paragraph is reflowed to a width, and the result is a
 * summary (the first non-empty paragraph) and a description (all
 * paragraphs, separated by blank lines). The class `Docstring` computes
 * both lazily, once.
 */
module Docstrings {
  import opened Wrappers
  import opened Strings
  import opened MaximalRuns
  import opened TextWrap
  import opened Sequences

  /** A stripped line that separates paragraphs. */
  predicate IsBlank(line: string) {
    |line| == 0
  }

  /** Each line, stripped. */
  function StripEach(lines: seq<string>): seq<string> {
    seq(|lines|, i requires 0 <= i < |lines| => Strip(lines[i]))
  }

  /** The maximal blocks of consecutive non-blank lines, each line stripped. */
  function Blocks(lines: seq<string>): seq<seq<string>> {
    Runs(StripEach(lines), IsBlank)
  }

  /** Each block's lines joined by single spaces and reflowed. */
  function FillEach(blocks: seq<seq<string>>, width: nat): seq<string>
    requires width > 0
  {
    seq(|blocks|, i requires 0 <= i < |blocks| => Fill(Join(" ", blocks[i]), width))
  }

  /**
   * The reflowed paragraphs of `content`: its first line, stripped, on its
   * own, then one paragraph per block of the lines after it.
   */
  function Paragraphs(content: string, width: nat): seq<string>
    requires width > 0
  {
    var lines := Split(content, '\n');
    [Fill(Strip(lines[0]), width)] + FillEach(Blocks(lines[1..]), width)
  }

  /** The first non-empty string of `ps`, or the empty string when there is none. */
  function FirstNonEmpty(ps: seq<string>): (r: string)
    ensures r == "" <==> forall i | 0 <= i < |ps| :: ps[i] == ""
    ensures r != "" ==> exists k | 0 <= k < |ps| :: ps[k] == r && forall j | 0 <= j < k :: ps[j] == ""
  {
    if |ps| == 0 then ""
    else if ps[0] != "" then ps[0]
    else
      var r := FirstNonEmpty(ps[1..]);
      assert r != "" ==> exists k | 0 <= k < |ps[1..]| :: ps[1..][k] == r && forall j | 0 <= j < k :: ps[1..][j] == "";
      assert r != "" ==> exists k | 0 <= k < |ps| :: ps[k] == r && forall j | 0 <= j < k :: ps[j] == "" by {
        if r != "" {
          var k :| 0 <= k < |ps[1..]| && ps[1..][k] == r && forall j | 0 <= j < k :: ps[1..][j] == "";
          assert ps[k + 1] == r;
          assert forall j | 0 <= j < k + 1 :: ps[j] == "" by {
            forall j | 0 <= j < k + 1 ensures ps[j] == "" {
              if j > 0 { assert ps[j] == ps[1..][j - 1]; }
            }
          }
        }
      }
      assert r == "" ==> forall i | 0 <= i < |ps| :: ps[i] == "" by {
        if r == "" {
          forall i | 0 <= i < |ps| ensures ps[i] == "" {
            if i > 0 { assert ps[i] == ps[1..][i - 1]; }
          }
        }
      }
      r
  }

  /** There is text to reflow: the docstring exists and is not empty. */
  predicate HasText(doc: Option<string>) {
    doc.Some? && doc.value != ""
  }

  /** The `summary` of a docstring reflowed to `width`. */
  function SummaryOf(doc: Option<string>, width: nat): string
    requires width > 0
  {
    if HasText(doc) then FirstNonEmpty(Paragraphs(doc.value, width)) else ""
  }

  /** The `description` of a docstring reflowed to `width`. */
  function DescriptionOf(doc: Option<string>, width: nat): string
    requires width > 0
  {
    if HasText(doc) then Join("\n\n", Paragraphs(doc.value, width)) else ""
  }

  /**
   * The paragraph generator: one pass over the lines after the first,
   * collecting the current block and closing it at each blank line; the
   * first line and then each block are reflowed, in order.
   */
  method GenerateParagraphs(content: string, width: nat) returns (paras: seq<string>)
    requires width > 0
    ensures paras == Paragraphs(content, width)
  {
    var split := Split(content, '\n');
    var items := split[1..];
    var blocks := CollectBlocks(items);
    paras := [Fill(Strip(split[0]), width)] + FillEach(blocks, width);
  }

  /** The blocks of non-blank stripped lines, closing one at each blank line. */
  method CollectBlocks(items: seq<string>) returns (blocks: seq<seq<string>>)
    ensures blocks == Blocks(items)
  {
    blocks := [];
    var current: seq<string> := [];
    ghost var lines := StripEach(items);
    ghost var target := Runs(lines, IsBlank);
    assert current + lines[0..] == lines;
    for i := 0 to |items|
      invariant forall j | 0 <= j < |current| :: !IsBlank(current[j])
      invariant blocks + Runs(current + lines[i..], IsBlank) == target
    {
      var stripped := Strip(items[i]);
      assert lines[i] == stripped;
      blocks, current := CollectLine(blocks, current, stripped, lines, i, target);
    }
    BlockLast(blocks, current, lines, target);
    if |current| > 0 {
      blocks := blocks + [current];
    }
  }

  /** One stripped line: a non-blank one extends the current block, a blank one closes it. */
  method CollectLine(blocks: seq<seq<string>>, current: seq<string>, stripped: string,
                     ghost lines: seq<string>, ghost i: nat, ghost target: seq<seq<string>>)
    returns (blocks': seq<seq<string>>, current': seq<string>)
    requires i < |lines| && lines[i] == stripped
    requires forall j | 0 <= j < |current| :: !IsBlank(current[j])
    requires blocks + Runs(current + lines[i..], IsBlank) == target
    ensures forall j | 0 <= j < |current'| :: !IsBlank(current'[j])
    ensures blocks' + Runs(current' + lines[i + 1..], IsBlank) == target
  {
    blocks', current' := blocks, current;
    if stripped != "" {
      BlockGrow(blocks, current, lines, i, target);
      current' := current + [stripped];
    } else if |current| > 0 {
      BlockClose(blocks, current, lines, i, target);
      blocks' := blocks + [current];
      current' := [];
    } else {
      BlockSkip(blocks, current, lines, i, target);
    }
  }

  /** A non-blank line extends the current block. */
  lemma BlockGrow(done: seq<seq<string>>, current: seq<string>, lines: seq<string>, i: nat,
                  target: seq<seq<string>>)
    requires i < |lines|
    requires done + Runs(current + lines[i..], IsBlank) == target
    ensures done + Runs((current + [lines[i]]) + lines[i + 1..], IsBlank) == target
  {
    SliceCons(lines, i);
    assert current + lines[i..] == (current + [lines[i]]) + lines[i + 1..];
  }

  /** A blank line closes a non-empty current block. */
  lemma BlockClose(done: seq<seq<string>>, current: seq<string>, lines: seq<string>, i: nat,
                   target: seq<seq<string>>)
    requires i < |lines|
    requires |current| > 0 && forall j | 0 <= j < |current| :: !IsBlank(current[j])
    requires IsBlank(lines[i])
    requires done + Runs(current + lines[i..], IsBlank) == target
    ensures (done + [current]) + Runs([] + lines[i + 1..], IsBlank) == target
  {
    var rest := lines[i + 1..];
    SliceCons(lines, i);
    BlockCloseRuns(current, lines[i], rest);
    var tail := Runs(rest, IsBlank);
    assert Runs(current + lines[i..], IsBlank) == [current] + tail;
    assert [] + rest == rest;
    AppendAssoc(done, [current], tail);
  }

  lemma BlockCloseRuns(current: seq<string>, line: string, rest: seq<string>)
    requires |current| > 0 && forall j | 0 <= j < |current| :: !IsBlank(current[j])
    requires IsBlank(line)
    ensures Runs(current + ([line] + rest), IsBlank) == [current] + Runs(rest, IsBlank)
  {
    assert current + ([line] + rest) == current + [line] + rest;
    RunsSplitAt(current, line, rest, IsBlank);
    assert IsRun(current, IsBlank);
    RunsOfRun(current, IsBlank);
  }

  /** A blank line with no current block is skipped. */
  lemma BlockSkip(done: seq<seq<string>>, current: seq<string>, lines: seq<string>, i: nat,
                  target: seq<seq<string>>)
    requires i < |lines|
    requires |current| == 0
    requires IsBlank(lines[i])
    requires done + Runs(current + lines[i..], IsBlank) == target
    ensures done + Runs(current + lines[i + 1..], IsBlank) == target
  {
    SliceCons(lines, i);
    assert current == [];
    assert current + lines[i..] == [lines[i]] + lines[i + 1..];
    assert ([lines[i]] + lines[i + 1..])[1..] == lines[i + 1..];
    assert current + lines[i + 1..] == lines[i + 1..];
  }

  /** At the end of the lines, the current block is the last one, if any. */
  lemma BlockLast(done: seq<seq<string>>, current: seq<string>, lines: seq<string>, target: seq<seq<string>>)
    requires forall j | 0 <= j < |current| :: !IsBlank(current[j])
    requires done + Runs(current + lines[|lines|..], IsBlank) == target
    ensures |current| > 0 ==> done + [current] == target
    ensures |current| == 0 ==> done == target
  {
    assert current + lines[|lines|..] == current;
    if |current| > 0 {
      RunsOfRun(current, IsBlank);
    } else {
      assert current == [];
      assert done + [] == done;
    }
  }

  /**
   * A docstring reflowed to a width. `summary` and `description` stay
   * unset until first read; the first read of either computes both.
   */
  class Docstring {
    const doc: Option<string>
    const width: nat
    var summary: Option<string>
    var description: Option<string>
    /** How many times the paragraphs have been computed. */
    ghost var processed: nat

    ghost predicate Valid()
      reads this
    {
      && width > 0
      && ((summary.None? && description.None? && processed == 0) ||
          (summary == Some(SummaryOf(doc, width)) && description == Some(DescriptionOf(doc, width)) && processed == 1))
    }

    constructor (doc: Option<string>, width: nat)
      requires width > 0
      ensures Valid()
      ensures this.doc == doc && this.width == width
      ensures summary.None? && description.None? && processed == 0
    {
      this.doc := doc;
      this.width := width;
      summary := None;
      description := None;
      processed := 0;
    }

    /** The summary; computes both values on the first read only. */
    method Summary() returns (s: string)
      requires Valid()
      modifies this
      ensures Valid() && processed == 1
      ensures s == SummaryOf(doc, width)
      ensures old(summary).Some? ==> unchanged(this)
    {
      if summary.None? {
        Process();
      }
      s := summary.value;
    }

    /** The description; computes both values on the first read only. */
    method Description() returns (s: string)
      requires Valid()
      modifies this
      ensures Valid() && processed == 1
      ensures s == DescriptionOf(doc, width)
      ensures old(description).Some? ==> unchanged(this)
    {
      if description.None? {
        Process();
      }
      s := description.value;
    }

    /** Splits and reflows the docstring, setting both values. */
    method Process()
      requires width > 0
      modifies this
      ensures summary == Some(SummaryOf(doc, width))
      ensures description == Some(DescriptionOf(doc, width))
      ensures processed == old(processed) + 1
    {
      summary := Some("");
      description := Some("");
      var parts: seq<string> := [];
      if HasText(doc) {
        var paras := GenerateParagraphs(doc.value, width);
        for i := 0 to |paras|
          invariant summary == Some(FirstNonEmpty(paras[..i]))
          invariant parts == paras[..i]
          invariant processed == old(processed)
        {
          FirstNonEmptyAppend(paras[..i], paras[i]);
          SlicePush(paras, i);
          if summary.value == "" {
            summary := Some(paras[i]);
          }
          parts := parts + [paras[i]];
        }
        assert paras[..|paras|] == paras;
        ProcessedValues(doc, width, paras);
      }
      description := Some(Join("\n\n", parts));
      processed := processed + 1;
    }
  }

  /** One more string: the first non-empty string does not change once found. */
  lemma {:induction false} FirstNonEmptyAppend(ps: seq<string>, p: string)
    ensures FirstNonEmpty(ps + [p]) == if FirstNonEmpty(ps) != "" then FirstNonEmpty(ps) else p
    decreases |ps|
  {
    if |ps| == 0 {
      assert ([] + [p])[1..] == [];
    } else {
      assert (ps + [p])[0] == ps[0];
      assert (ps + [p])[1..] == ps[1..] + [p];
      FirstNonEmptyAppend(ps[1..], p);
    }
  }

  /** What `Process` stores, in terms of the generated paragraphs. */
  lemma ProcessedValues(doc: Option<string>, width: nat, paras: seq<string>)
    requires width > 0 && HasText(doc) && paras == Paragraphs(doc.value, width)
    ensures SummaryOf(doc, width) == FirstNonEmpty(paras)
    ensures DescriptionOf(doc, width) == Join("\n\n", paras)
  {
  }

  /** The paragraphs one by one: the reflowed first line, then the reflowed blocks. */
  lemma ParagraphsShape(content: string, width: nat)
    requires width > 0
    ensures |Paragraphs(content, width)| == 1 + |Blocks(Split(content, '\n')[1..])|
    ensures Paragraphs(content, width)[0] == Fill(Strip(Split(content, '\n')[0]), width)
    ensures forall i | 1 <= i < |Paragraphs(content, width)| ::
      Paragraphs(content, width)[i] == Fill(Join(" ", Blocks(Split(content, '\n')[1..])[i - 1]), width)
  {
    var lines := Split(content, '\n');
    var b := Blocks(lines[1..]);
    var f := FillEach(b, width);
    var x := Fill(Strip(lines[0]), width);
    var p := Paragraphs(content, width);
    assert p == [x] + f;
    ConsIndex(x, f);
    FillEachIndex(b, width);
    assert forall i | 1 <= i < |p| :: p[i] == f[i - 1];
  }

  lemma FillEachIndex(blocks: seq<seq<string>>, width: nat)
    requires width > 0
    ensures |FillEach(blocks, width)| == |blocks|
    ensures forall k | 0 <= k < |blocks| :: FillEach(blocks, width)[k] == Fill(Join(" ", blocks[k]), width)
  {
  }

  /** A docstring that yields no text: absent, or whitespace only. */
  predicate IsBlankDoc(doc: Option<string>) {
    doc.None? || AllSpace(doc.value)
  }

  /** Every line of every block is one of the lines, stripped. */
  lemma BlockLinesFrom(lines: seq<string>)
    ensures forall k, j | 0 <= k < |Blocks(lines)| && 0 <= j < |Blocks(lines)[k]| ::
      exists m | 0 <= m < |lines| :: Blocks(lines)[k][j] == Strip(lines[m])
  {
    var b := Blocks(lines);
    RunsFrom(StripEach(lines), IsBlank);
    forall k, j | 0 <= k < |b| && 0 <= j < |b[k]|
      ensures exists m | 0 <= m < |lines| :: b[k][j] == Strip(lines[m])
    {
      assert b[k][j] in StripEach(lines);
      var m :| 0 <= m < |lines| && StripEach(lines)[m] == b[k][j];
      assert b[k][j] == Strip(lines[m]);
    }
  }

  /** The first paragraph is empty exactly when the first line is whitespace only. */
  lemma FirstParagraphEmpty(content: string, width: nat)
    requires width > 0
    ensures Paragraphs(content, width)[0] == "" <==> AllSpace(Split(content, '\n')[0])
  {
    var t := Split(content, '\n')[0];
    StripEmpty(t);
    FillEmpty(Strip(t), width);
    if Strip(t) != "" {
      WordsOfNonSpace(Strip(t));
    } else {
      assert Words("") == [];
    }
  }

  /** A block whose first line starts with a non-whitespace character reflows to a non-empty paragraph. */
  lemma BlockParagraphNonEmpty(block: seq<string>, width: nat)
    requires width > 0
    requires |block| > 0 && |block[0]| > 0 && !IsSpace(block[0][0])
    ensures Fill(Join(" ", block), width) != ""
  {
    JoinHead(" ", block);
    var t := Join(" ", block);
    assert t[0] == t[..|block[0]|][0] == block[0][0];
    WordsOfNonSpace(t);
    FillEmpty(t, width);
  }

  /** The first line of every block starts with a non-whitespace character. */
  lemma BlockHeads(lines: seq<string>)
    ensures forall k | 0 <= k < |Blocks(lines)| ::
      |Blocks(lines)[k]| > 0 && |Blocks(lines)[k][0]| > 0 && !IsSpace(Blocks(lines)[k][0][0])
  {
    var b := Blocks(lines);
    LayoutOfRuns(StripEach(lines), IsBlank);
    BlockLinesFrom(lines);
    forall k | 0 <= k < |b| ensures |b[k]| > 0 && |b[k][0]| > 0 && !IsSpace(b[k][0][0]) {
      assert IsRun(b[k], IsBlank);
      var m :| 0 <= m < |lines| && b[k][0] == Strip(lines[m]);
    }
  }

  /** Every paragraph after the first is non-empty: blank lines only separate blocks. */
  lemma LaterParagraphsNonEmpty(content: string, width: nat)
    requires width > 0
    ensures forall i | 1 <= i < |Paragraphs(content, width)| :: Paragraphs(content, width)[i] != ""
  {
    var p := Paragraphs(content, width);
    var b := Blocks(Split(content, '\n')[1..]);
    ParagraphsShape(content, width);
    BlockHeads(Split(content, '\n')[1..]);
    forall i | 1 <= i < |p| ensures p[i] != "" {
      BlockParagraphNonEmpty(b[i - 1], width);
    }
  }

  /** There are no blocks exactly when every line is whitespace only. */
  lemma BlocksEmpty(lines: seq<string>)
    ensures Blocks(lines) == [] <==> forall j | 0 <= j < |lines| :: AllSpace(lines[j])
  {
    var stripped := StripEach(lines);
    RunsEmpty(stripped, IsBlank);
    forall j | 0 <= j < |lines| ensures IsBlank(stripped[j]) <==> AllSpace(lines[j]) {
      StripEmpty(lines[j]);
    }
  }

  /** There is one paragraph exactly when every line after the first is whitespace only. */
  lemma SingleParagraph(content: string, width: nat)
    requires width > 0
    ensures |Paragraphs(content, width)| == 1 <==>
            forall j | 1 <= j < |Split(content, '\n')| :: AllSpace(Split(content, '\n')[j])
  {
    var lines := Split(content, '\n');
    ParagraphsShape(content, width);
    BlocksEmpty(lines[1..]);
    assert forall j | 1 <= j < |lines| :: lines[j] == lines[1..][j - 1];
  }

  /**
   * When every line after the first is whitespace only, there is a single
   * paragraph: summary and description are both the reflowed first line.
   */
  lemma OneParagraph(doc: string, width: nat)
    requires width > 0
    requires forall j | 1 <= j < |Split(doc, '\n')| :: AllSpace(Split(doc, '\n')[j])
    ensures SummaryOf(Some(doc), width) == DescriptionOf(Some(doc), width)
    ensures SummaryOf(Some(doc), width) == Fill(Strip(Split(doc, '\n')[0]), width)
  {
    if doc == "" {
      assert Split(doc, '\n') == [""];
      FillEmpty("", width);
    } else {
      SingleParagraph(doc, width);
      ParagraphsShape(doc, width);
    }
  }

  /** Every paragraph is empty exactly when the whole text is whitespace only. */
  lemma ParagraphsAllEmpty(content: string, width: nat)
    requires width > 0
    ensures (forall i | 0 <= i < |Paragraphs(content, width)| :: Paragraphs(content, width)[i] == "") <==>
            AllSpace(content)
    ensures AllSpace(content) <==> |Paragraphs(content, width)| == 1 && Paragraphs(content, width)[0] == ""
  {
    var lines := Split(content, '\n');
    var p := Paragraphs(content, width);
    FirstParagraphEmpty(content, width);
    LaterParagraphsNonEmpty(content, width);
    SingleParagraph(content, width);
    AllSpaceLines(content);
    HeadAndTail(p);
    AllSpaceHeadAndTail(lines);
  }

  lemma HeadAndTail(p: seq<string>)
    requires |p| >= 1
    requires forall i | 1 <= i < |p| :: p[i] != ""
    ensures (forall i | 0 <= i < |p| :: p[i] == "") <==> p[0] == "" && |p| == 1
  {
    if |p| > 1 {
      assert p[1] != "";
    }
  }

  lemma AllSpaceHeadAndTail(lines: seq<string>)
    requires |lines| >= 1
    ensures (forall j | 0 <= j < |lines| :: AllSpace(lines[j])) <==>
            AllSpace(lines[0]) && forall j | 1 <= j < |lines| :: AllSpace(lines[j])
  {
  }

  /**
   * Summary and description are empty exactly when the docstring is
   * absent or holds nothing but whitespace.
   */
  lemma BlankDocstring(doc: Option<string>, width: nat)
    requires width > 0
    ensures SummaryOf(doc, width) == "" <==> IsBlankDoc(doc)
    ensures DescriptionOf(doc, width) == "" <==> IsBlankDoc(doc)
  {
    if HasText(doc) {
      var p := Paragraphs(doc.value, width);
      ParagraphsAllEmpty(doc.value, width);
      JoinEmpty("\n\n", p);
    }
  }

  /** The first line is a paragraph of its own, even with no blank line after it. */
  lemma FirstLineParagraph(first: string, body: string, width: nat)
    requires width > 0
    requires '\n' !in first
    ensures Paragraphs(first + "\n" + body, width) ==
            [Fill(Strip(first), width)] + FillEach(Blocks(Split(body, '\n')), width)
    ensures !AllSpace(first) ==> SummaryOf(Some(first + "\n" + body), width) == Fill(Strip(first), width)
  {
    var content := first + "\n" + body;
    FirstLineSplit(first, body);
    assert Paragraphs(content, width) ==
      [Fill(Strip(Split(content, '\n')[0]), width)] + FillEach(Blocks(Split(content, '\n')[1..]), width);
    if !AllSpace(first) {
      FirstParagraphEmpty(content, width);
    }
  }

  lemma FirstLineSplit(first: string, body: string)
    requires '\n' !in first
    ensures Split(first + "\n" + body, '\n')[0] == first
    ensures Split(first + "\n" + body, '\n')[1..] == Split(body, '\n')
  {
    SplitAround(first, '\n', body);
    SplitFree(first, '\n');
    ConsIndex(first, Split(body, '\n'));
  }

  /**
   * The paragraphs after the first line are the reflowed blocks of any
   * layout of the stripped lines into blank gaps and non-blank blocks.
   */
  lemma BodyLayout(first: string, body: string, gaps: seq<seq<string>>, gs: seq<seq<string>>, width: nat)
    requires width > 0
    requires '\n' !in first
    requires IsLayout(gaps, gs, IsBlank)
    requires Interleave(gaps, gs) == StripEach(Split(body, '\n'))
    ensures Paragraphs(first + "\n" + body, width) == [Fill(Strip(first), width)] + FillEach(gs, width)
  {
    FirstLineParagraph(first, body, width);
    RunsOfLayout(gaps, gs, IsBlank);
  }

  /** A docstring of one line: summary and description are that line, stripped and reflowed. */
  lemma SingleLine(line: string, width: nat)
    requires width > 0
    requires '\n' !in line
    ensures SummaryOf(Some(line), width) == Fill(Strip(line), width)
    ensures DescriptionOf(Some(line), width) == Fill(Strip(line), width)
  {
    SplitFree(line, '\n');
    assert Blocks([]) == [];
    if line == "" {
      assert Words("") == [];
      FillEmpty("", width);
    }
  }

  /** A stripped line has no longer word than the line. */
  lemma StripBounded(t: string, width: nat)
    requires Bounded(t, IsWrapSpace, width)
    ensures Bounded(Strip(t), IsWrapSpace, width)
  {
    var n := LeadingSpace(t);
    BoundedSlice(t, n, n + |Strip(t)|, IsWrapSpace, width);
  }

  /** Texts whose lines fit, joined by blank lines, still have lines that fit. */
  lemma {:induction false} JoinParagraphsFit(ps: seq<string>, width: nat)
    requires forall i | 0 <= i < |ps| :: LinesFit(ps[i], width)
    ensures LinesFit(Join("\n\n", ps), width)
    decreases |ps|
  {
    if |ps| == 0 {
      assert Split("", '\n') == [""];
    } else if |ps| > 1 {
      var rest := Join("\n\n", ps[1..]);
      JoinParagraphsFit(ps[1..], width);
      assert Split("", '\n') == [""];
      LinesFitAround("", rest, width);
      assert "" + "\n" + rest == "\n" + rest;
      LinesFitAround(ps[0], "\n" + rest, width);
      assert Join("\n\n", ps) == ps[0] + "\n" + ("\n" + rest);
    }
  }

  /** No line is longer-worded than the text. */
  lemma LinesBounded(content: string, width: nat)
    requires Bounded(content, IsWrapSpace, width)
    ensures forall j | 0 <= j < |Split(content, '\n')| :: Bounded(Split(content, '\n')[j], IsWrapSpace, width)
  {
    JoinSplit(content, '\n');
    BoundedJoin('\n', Split(content, '\n'), width);
  }

  /** Blocks of lines with no long word, joined by spaces, have no long word. */
  lemma BlocksBounded(lines: seq<string>, width: nat)
    requires forall j | 0 <= j < |lines| :: Bounded(lines[j], IsWrapSpace, width)
    ensures forall k | 0 <= k < |Blocks(lines)| :: Bounded(Join(" ", Blocks(lines)[k]), IsWrapSpace, width)
  {
    var b := Blocks(lines);
    BlockLinesFrom(lines);
    forall k | 0 <= k < |b| ensures Bounded(Join(" ", b[k]), IsWrapSpace, width) {
      forall j | 0 <= j < |b[k]| ensures Bounded(b[k][j], IsWrapSpace, width) {
        var m :| 0 <= m < |lines| && b[k][j] == Strip(lines[m]);
        StripBounded(lines[m], width);
      }
      BoundedJoin(' ', b[k], width);
      assert [' '] == " ";
    }
  }

  /** When no word is longer than the width, no line of any paragraph is either. */
  lemma ParagraphsFit(content: string, width: nat)
    requires width > 0
    requires Bounded(content, IsWrapSpace, width)
    ensures forall i | 0 <= i < |Paragraphs(content, width)| :: LinesFit(Paragraphs(content, width)[i], width)
  {
    var lines := Split(content, '\n');
    var f := FillEach(Blocks(lines[1..]), width);
    var x := Fill(Strip(lines[0]), width);
    assert Paragraphs(content, width) == [x] + f;
    LinesBounded(content, width);
    StripBounded(lines[0], width);
    FillLinesFit(Strip(lines[0]), width);
    LaterParagraphsFit(content, width);
    ConsLinesFit(x, f, width);
  }

  lemma LaterParagraphsFit(content: string, width: nat)
    requires width > 0
    requires Bounded(content, IsWrapSpace, width)
    ensures forall k | 0 <= k < |FillEach(Blocks(Split(content, '\n')[1..]), width)| ::
      LinesFit(FillEach(Blocks(Split(content, '\n')[1..]), width)[k], width)
  {
    var lines := Split(content, '\n');
    var b := Blocks(lines[1..]);
    LinesBounded(content, width);
    assert forall j | 0 <= j < |lines[1..]| :: lines[1..][j] == lines[j + 1];
    BlocksBounded(lines[1..], width);
    BlockParagraphsFit(b, width);
    FillEachIndex(b, width);
  }

  lemma ConsLinesFit(x: string, f: seq<string>, width: nat)
    requires LinesFit(x, width)
    requires forall k | 0 <= k < |f| :: LinesFit(f[k], width)
    ensures forall i | 0 <= i < |[x] + f| :: LinesFit(([x] + f)[i], width)
  {
    ConsIndex(x, f);
  }

  lemma BlockParagraphsFit(blocks: seq<seq<string>>, width: nat)
    requires width > 0
    requires forall k | 0 <= k < |blocks| :: Bounded(Join(" ", blocks[k]), IsWrapSpace, width)
    ensures forall k | 0 <= k < |blocks| :: LinesFit(Fill(Join(" ", blocks[k]), width), width)
  {
    forall k | 0 <= k < |blocks| ensures LinesFit(Fill(Join(" ", blocks[k]), width), width) {
      FillLinesFit(Join(" ", blocks[k]), width);
    }
  }

  /** When no word of the docstring is longer than the width, no line of the description is either. */
  lemma DescriptionLinesFit(doc: string, width: nat)
    requires width > 0
    requires Bounded(doc, IsWrapSpace, width)
    ensures LinesFit(DescriptionOf(Some(doc), width), width)
  {
    if doc == "" {
      assert Split("", '\n') == [""];
    } else {
      ParagraphsFit(doc, width);
      JoinParagraphsFit(Paragraphs(doc, width), width);
    }
  }
}
