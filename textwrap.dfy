/**
 * A greedy word wrapper standing for Python's `textwrap.fill(text, width)`:
 * the text is cut into words at whitespace, and the words are laid out on
 * lines joined by single spaces, each line taking as many words as fit
 * within `width` columns; the lines are joined by newlines.
 */
module TextWrap {
  import opened Strings
  import opened MaximalRuns
  import opened Sequences

  /** The characters `textwrap` splits words at: ASCII tab, newline, vertical tab, form feed, carriage return and space. */
  predicate IsWrapSpace(c: char) {
    c == '\t' || c == '\n' || c == '\U{000B}' || c == '\U{000C}' || c == '\r' || c == ' '
  }

  /** The words of `text`: its maximal runs of non-whitespace characters. */
  function Words(text: string): seq<string> {
    Runs(text, IsWrapSpace)
  }

  /** The words of each of `parts`. */
  function WordsEach(parts: seq<string>): seq<seq<string>> {
    seq(|parts|, i requires 0 <= i < |parts| => Words(parts[i]))
  }

  /** Columns taken by `words` placed after a word already on the line: a space and the word, each. */
  function Cost(words: seq<string>): nat {
    if |words| == 0 then 0 else 1 + |words[0]| + Cost(words[1..])
  }

  /**
   * How many of `words` fit, one space before each, into `room` columns:
   * the longest prefix that fits.
   */
  function FitCount(words: seq<string>, room: int): (k: nat)
    ensures k <= |words|
    ensures k > 0 ==> Cost(words[..k]) <= room
    ensures k < |words| ==> Cost(words[..k + 1]) > room
  {
    if |words| == 0 || room < 1 + |words[0]| then
      assert |words| > 0 ==> words[..1][1..] == [];
      0
    else
      var k := FitCount(words[1..], room - 1 - |words[0]|);
      assert words[..k + 1][1..] == words[1..][..k];
      assert k + 1 < |words| ==> words[..k + 2][1..] == words[1..][..k + 1];
      1 + k
  }

  /** The words of each line: greedily, as many as fit within `width`, at least one per line. */
  function Pack(words: seq<string>, width: nat): seq<seq<string>>
    decreases |words|
  {
    if |words| == 0 then []
    else
      var k := 1 + FitCount(words[1..], width - |words[0]|);
      [words[..k]] + Pack(words[k..], width)
  }

  /** Each line's words joined by single spaces. */
  function Render(lines: seq<seq<string>>): seq<string> {
    seq(|lines|, i requires 0 <= i < |lines| => Join(" ", lines[i]))
  }

  /** `textwrap.fill(text, width)`; `textwrap` refuses a width below one. */
  function Fill(text: string, width: nat): string
    requires width > 0
  {
    Join("\n", Render(Pack(Words(text), width)))
  }

  /** No line of `s` is longer than `width`. */
  predicate LinesFit(s: string, width: nat) {
    forall i | 0 <= i < |Split(s, '\n')| :: |Split(s, '\n')[i]| <= width
  }

  lemma {:induction false} CostAppend(a: seq<string>, x: string)
    ensures Cost(a + [x]) == Cost(a) + 1 + |x|
    decreases |a|
  {
    if |a| == 0 {
      assert ([] + [x])[1..] == [];
    } else {
      assert (a + [x])[1..] == a[1..] + [x];
      CostAppend(a[1..], x);
    }
  }

  /** A line of words takes its first word's width plus a space and the width of each further word. */
  lemma {:induction false} JoinCost(x: string, xs: seq<string>)
    ensures |Join(" ", [x] + xs)| == |x| + Cost(xs)
    decreases |xs|
  {
    if |xs| > 0 {
      JoinCost(xs[0], xs[1..]);
      assert [xs[0]] + xs[1..] == xs;
      assert ([x] + xs)[1..] == xs;
    }
  }

  /** Every word is non-empty and free of whitespace. */
  lemma WordsAreRuns(text: string)
    ensures forall i | 0 <= i < |Words(text)| :: IsRun(Words(text)[i], IsWrapSpace)
  {
    LayoutOfRuns(text, IsWrapSpace);
  }

  /** A single word is its own only word. */
  lemma WordsOfWord(w: string)
    requires IsRun(w, IsWrapSpace)
    ensures Words(w) == [w]
  {
    RunsCons(w, [], IsWrapSpace);
    assert w + [] == w;
  }

  /** Joining at a whitespace character keeps the words of each part, in order. */
  lemma {:induction false} WordsOfJoin(c: char, parts: seq<string>)
    requires IsWrapSpace(c)
    ensures Words(Join([c], parts)) == Flatten(WordsEach(parts))
    decreases |parts|
  {
    if |parts| == 1 {
      assert Flatten(WordsEach(parts)) == Words(parts[0]) + Flatten([]);
    } else if |parts| > 1 {
      WordsOfJoin(c, parts[1..]);
      RunsSplitAt(parts[0], c, Join([c], parts[1..]), IsWrapSpace);
      assert WordsEach(parts) == [Words(parts[0])] + WordsEach(parts[1..]);
    }
  }

  /** Words joined by single spaces are split back into the same words. */
  lemma WordsOfLine(line: seq<string>)
    requires forall i | 0 <= i < |line| :: IsRun(line[i], IsWrapSpace)
    ensures Words(Join(" ", line)) == line
  {
    WordsOfJoin(' ', line);
    forall i | 0 <= i < |line| ensures WordsEach(line)[i] == [line[i]] {
      WordsOfWord(line[i]);
    }
    SingletonsFlatten(line, WordsEach(line));
  }

  lemma {:induction false} SingletonsFlatten(xs: seq<string>, gs: seq<seq<string>>)
    requires |gs| == |xs|
    requires forall i | 0 <= i < |xs| :: gs[i] == [xs[i]]
    ensures Flatten(gs) == xs
    decreases |xs|
  {
    if |xs| > 0 {
      SingletonsFlatten(xs[1..], gs[1..]);
      assert xs == [xs[0]] + xs[1..];
    }
  }

  /** Packing loses, adds and reorders no word, and puts at least one word on each line. */
  lemma PackKeepsWords(words: seq<string>, width: nat)
    ensures Flatten(Pack(words, width)) == words
    ensures forall i | 0 <= i < |Pack(words, width)| :: |Pack(words, width)[i]| > 0
  {
    PackFlatten(words, width);
    PackLinesNonEmpty(words, width);
  }

  lemma {:induction false} PackFlatten(words: seq<string>, width: nat)
    ensures Flatten(Pack(words, width)) == words
    decreases |words|
  {
    if |words| > 0 {
      var k := 1 + FitCount(words[1..], width - |words[0]|);
      var rest := Pack(words[k..], width);
      PackFlatten(words[k..], width);
      assert Pack(words, width) == [words[..k]] + rest;
      FlattenCons(words[..k], rest);
      assert Flatten(rest) == words[k..];
      TakeDrop(words, k);
    }
  }

  lemma {:induction false} PackLinesNonEmpty(words: seq<string>, width: nat)
    ensures forall i | 0 <= i < |Pack(words, width)| :: |Pack(words, width)[i]| > 0
    decreases |words|
  {
    if |words| > 0 {
      var k := 1 + FitCount(words[1..], width - |words[0]|);
      var rest := Pack(words[k..], width);
      PackLinesNonEmpty(words[k..], width);
      assert Pack(words, width) == [words[..k]] + rest;
      NonEmptyCons(words[..k], rest);
    }
  }

  /** Every word of a line is one of the words packed. */
  lemma {:induction false} PackWordsFrom(words: seq<string>, width: nat)
    ensures forall i, j | 0 <= i < |Pack(words, width)| && 0 <= j < |Pack(words, width)[i]| ::
              Pack(words, width)[i][j] in words
    decreases |words|
  {
    if |words| > 0 {
      var k := 1 + FitCount(words[1..], width - |words[0]|);
      PackWordsFrom(words[k..], width);
      var p := Pack(words, width);
      assert forall i | 1 <= i < |p| :: p[i] == Pack(words[k..], width)[i - 1];
      assert forall x | x in words[k..] :: x in words;
      assert forall x | x in words[..k] :: x in words;
    }
  }

  /** The first line takes its first word and the further words that fit. */
  lemma FirstLine(words: seq<string>, width: nat)
    requires |words| > 0
    ensures var f := FitCount(words[1..], width - |words[0]|);
            && Pack(words, width) == [words[..1 + f]] + Pack(words[1 + f..], width)
            && |Join(" ", words[..1 + f])| == |words[0]| + Cost(words[1..][..f])
  {
    var f := FitCount(words[1..], width - |words[0]|);
    assert words[..1 + f] == [words[0]] + words[1..][..f];
    JoinCost(words[0], words[1..][..f]);
  }

  /** A line is never wider than `width` unless it holds a single word. */
  lemma {:induction false} PackWithin(words: seq<string>, width: nat)
    ensures forall i | 0 <= i < |Pack(words, width)| ::
              |Pack(words, width)[i]| == 1 || |Join(" ", Pack(words, width)[i])| <= width
    decreases |words|
  {
    if |words| > 0 {
      var f := FitCount(words[1..], width - |words[0]|);
      var k := 1 + f;
      var rest := Pack(words[k..], width);
      PackWithin(words[k..], width);
      FirstLine(words, width);
      var p := Pack(words, width);
      assert forall i | 1 <= i < |p| :: p[i] == rest[i - 1];
    }
  }

  /** The first word of the second line would not have fit on the first. */
  lemma FirstBreak(words: seq<string>, width: nat)
    requires |words| > 0
    requires 1 + FitCount(words[1..], width - |words[0]|) < |words|
    ensures var k := 1 + FitCount(words[1..], width - |words[0]|);
            |Join(" ", words[..k])| + 1 + |words[k]| > width
  {
    var f := FitCount(words[1..], width - |words[0]|);
    FirstLine(words, width);
    assert words[1..][..f + 1] == words[1..][..f] + [words[1 + f]];
    CostAppend(words[1..][..f], words[1 + f]);
  }

  /** The greedy layout never breaks a line before a word that would have fit on it. */
  lemma {:induction false} PackGreedy(words: seq<string>, width: nat)
    ensures forall i | 1 <= i < |Pack(words, width)| ::
              |Pack(words, width)[i]| > 0 &&
              |Join(" ", Pack(words, width)[i - 1])| + 1 + |Pack(words, width)[i][0]| > width
    decreases |words|
  {
    if |words| > 0 {
      var k := 1 + FitCount(words[1..], width - |words[0]|);
      var first := words[..k];
      var rest := Pack(words[k..], width);
      assert Pack(words, width) == [first] + rest;
      PackGreedy(words[k..], width);
      if k < |words| {
        FirstBreak(words, width);
        PackHead(words[k..], width);
      }
      GreedyCons(first, rest, width);
    }
  }

  /** A non-empty list of words packs to a first line that starts with the first word. */
  lemma PackHead(words: seq<string>, width: nat)
    requires |words| > 0
    ensures |Pack(words, width)| > 0 && |Pack(words, width)[0]| > 0 && Pack(words, width)[0][0] == words[0]
  {
    var k := 1 + FitCount(words[1..], width - |words[0]|);
    assert Pack(words, width)[0] == words[..k];
  }

  /** The greedy property of `rest`, with `first` before it and the first break greedy, holds of the whole. */
  lemma GreedyCons(first: seq<string>, rest: seq<seq<string>>, width: nat)
    requires forall i | 1 <= i < |rest| :: |rest[i]| > 0 && |Join(" ", rest[i - 1])| + 1 + |rest[i][0]| > width
    requires |rest| > 0 ==> |rest[0]| > 0 && |Join(" ", first)| + 1 + |rest[0][0]| > width
    ensures forall i | 1 <= i < |[first] + rest| ::
              |([first] + rest)[i]| > 0 && |Join(" ", ([first] + rest)[i - 1])| + 1 + |([first] + rest)[i][0]| > width
  {
    var p := [first] + rest;
    forall i | 1 <= i < |p|
      ensures |p[i]| > 0 && |Join(" ", p[i - 1])| + 1 + |p[i][0]| > width
    {
      assert p[i] == rest[i - 1];
      if i > 1 {
        assert p[i - 1] == rest[i - 2];
      } else {
        assert p[i - 1] == first;
      }
    }
  }

  /** Wrapping keeps the words of the text, in order. */
  lemma FillKeepsWords(text: string, width: nat)
    requires width > 0
    ensures Words(Fill(text, width)) == Words(text)
  {
    var ws := Words(text);
    var p := Pack(ws, width);
    var r := Render(p);
    WordsAreRuns(text);
    PackWordsFrom(ws, width);
    PackKeepsWords(ws, width);
    WordsOfJoin('\n', r);
    forall i | 0 <= i < |r| ensures WordsEach(r)[i] == p[i] {
      forall j | 0 <= j < |p[i]| ensures IsRun(p[i][j], IsWrapSpace) {
        var x := p[i][j];
        assert x in ws;
      }
      WordsOfLine(p[i]);
    }
    assert WordsEach(r) == p;
  }

  /** Wrapping yields the empty string exactly when the text has no word. */
  lemma FillEmpty(text: string, width: nat)
    requires width > 0
    ensures Fill(text, width) == "" <==> |Words(text)| == 0
  {
    var ws := Words(text);
    if |ws| > 0 {
      var p := Pack(ws, width);
      var r := Render(p);
      WordsAreRuns(text);
      PackKeepsWords(ws, width);
      PackWordsFrom(ws, width);
      assert |p| > 0 && |p[0]| > 0;
      assert p[0][0] in ws;
      assert |p[0][0]| > 0;
      assert |r[0]| > 0 by {
        if |p[0]| > 1 {
          assert r[0] == p[0][0] + " " + Join(" ", p[0][1..]);
        }
      }
      if |r| > 1 {
        assert Fill(text, width) == r[0] + "\n" + Join("\n", r[1..]);
      }
    }
  }

  /** Lines no wider than `width` and free of newlines, joined by newlines, fit. */
  lemma {:induction false} LinesFitJoin(lines: seq<string>, width: nat)
    requires forall i | 0 <= i < |lines| :: |lines[i]| <= width && '\n' !in lines[i]
    ensures LinesFit(Join("\n", lines), width)
    decreases |lines|
  {
    if |lines| == 1 {
      SplitFree(lines[0], '\n');
    } else if |lines| > 1 {
      var rest := Join("\n", lines[1..]);
      LinesFitJoin(lines[1..], width);
      SplitFree(lines[0], '\n');
      SplitAround(lines[0], '\n', rest);
      assert Join("\n", lines) == lines[0] + "\n" + rest;
      FitsCons(lines[0], Split(rest, '\n'), width);
    }
  }

  lemma FitsCons(x: string, t: seq<string>, width: nat)
    requires |x| <= width
    requires forall i | 0 <= i < |t| :: |t[i]| <= width
    ensures forall i | 0 <= i < |[x] + t| :: |([x] + t)[i]| <= width
  {
    ConsIndex(x, t);
  }

  /** Two texts whose lines fit, joined by a newline, still have lines that fit. */
  lemma LinesFitAround(a: string, b: string, width: nat)
    requires LinesFit(a, width) && LinesFit(b, width)
    ensures LinesFit(a + "\n" + b, width)
  {
    SplitAround(a, '\n', b);
    var sa, sb := Split(a, '\n'), Split(b, '\n');
    assert forall i | 0 <= i < |sb| :: (sa + sb)[|sa| + i] == sb[i];
    assert forall i | 0 <= i < |sa| :: (sa + sb)[i] == sa[i];
  }

  /**
   * When no word of the text is wider than `width`, no line of the wrapped
   * text is either.
   */
  lemma FillLinesFit(text: string, width: nat)
    requires width > 0
    requires Bounded(text, IsWrapSpace, width)
    ensures LinesFit(Fill(text, width), width)
  {
    var ws := Words(text);
    var p := Pack(ws, width);
    var r := Render(p);
    WordsAreRuns(text);
    PackWithin(ws, width);
    PackWordsFrom(ws, width);
    forall i | 0 <= i < |r| ensures |r[i]| <= width && '\n' !in r[i] {
      forall j | 0 <= j < |p[i]| ensures '\n' !in p[i][j] && |p[i][j]| <= width {
        var x := p[i][j];
        assert x in ws;
        var k :| 0 <= k < |ws| && ws[k] == x;
        assert IsRun(ws[k], IsWrapSpace);
      }
      NotInJoin(" ", p[i], '\n');
      if |p[i]| == 1 {
        assert r[i] == p[i][0];
      }
    }
    LinesFitJoin(r, width);
  }

  /** A text that starts with a non-whitespace character has a word. */
  lemma WordsOfNonSpace(text: string)
    requires |text| > 0 && !IsSpace(text[0])
    ensures |Words(text)| > 0
  {
    assert !IsWrapSpace(text[0]);
  }

  /** Parts joined by one whitespace character have no long word exactly when no part has one. */
  lemma {:induction false} BoundedJoin(c: char, parts: seq<string>, width: nat)
    requires IsWrapSpace(c)
    ensures Bounded(Join([c], parts), IsWrapSpace, width) <==>
            forall i | 0 <= i < |parts| :: Bounded(parts[i], IsWrapSpace, width)
    decreases |parts|
  {
    if |parts| == 0 {
      assert Runs("", IsWrapSpace) == [];
    } else if |parts| > 1 {
      BoundedJoin(c, parts[1..], width);
      BoundedSplitAt(parts[0], c, Join([c], parts[1..]), IsWrapSpace, width);
      assert Join([c], parts) == parts[0] + [c] + Join([c], parts[1..]);
      assert forall i | 1 <= i < |parts| :: parts[i] == parts[1..][i - 1];
    }
  }
}
