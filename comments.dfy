/** What `extract_code_comments` computes: a two-state scan (inside or outside a triple-quoted
    string) over the stripped lines of the source, sorting lines into comments and docstrings. */
module Comments {
  import opened Text

  const TripleDouble := "\"\"\""
  const TripleSingle := "'''"

  /** The scan's state: whether a triple-quoted string is open, the quote that opened the last
      one, and the two lists built so far. */
  datatype Extraction = Extraction(inString: bool, quote: string, comments: seq<string>, docstrings: seq<string>)

  const Start := Extraction(false, "", [], [])

  /** The text a `#` line contributes: what follows the `#`, stripped. */
  function CommentText(line: string): string {
    if line == [] then [] else Strip(line[1..])
  }

  predicate OpensString(line: string) {
    StartsWith(line, TripleDouble) || StartsWith(line, TripleSingle)
  }

  /** The quote a line that opens a string opens it with. */
  function OpeningQuote(line: string): string {
    if StartsWith(line, TripleDouble) then TripleDouble else TripleSingle
  }

  /** One stripped line. Inside a string every line is a docstring line, and one ending with the
      opening quote closes the string. Outside, a line starting with a triple quote is a docstring
      line that opens a string unless it also ends with that quote; otherwise a `#` line is a
      comment, and a line holding a triple quote anywhere is a docstring line. */
  function ExtractStep(st: Extraction, line: string): (r: Extraction)
    ensures |r.comments| + |r.docstrings| <= |st.comments| + |st.docstrings| + 1
  {
    if st.inString then
      st.(inString := !EndsWith(line, st.quote), docstrings := st.docstrings + [line])
    else if OpensString(line) then
      st.(inString := !EndsWith(line, OpeningQuote(line)), quote := OpeningQuote(line),
          docstrings := st.docstrings + [line])
    else if StartsWith(line, "#") then
      st.(comments := st.comments + [CommentText(line)])
    else if Contains(line, TripleDouble) || Contains(line, TripleSingle) then
      st.(docstrings := st.docstrings + [line])
    else st
  }

  /** Every line stripped, as the loop strips each line before looking at it. */
  function StripEach(lines: seq<string>): (r: seq<string>)
    ensures |r| == |lines|
    ensures forall k :: 0 <= k < |lines| ==> r[k] == Strip(lines[k])
  {
    if lines == [] then [] else StripEach(lines[..|lines| - 1]) + [Strip(lines[|lines| - 1])]
  }

  lemma StripEachNext(lines: seq<string>, i: nat)
    requires i < |lines|
    ensures StripEach(lines[..i + 1]) == StripEach(lines[..i]) + [Strip(lines[i])]
  {
    assert lines[..i + 1][..i] == lines[..i];
  }

  /** A scan over `lines` from state `st`, applying `step` once per line, in order. */
  function Fold(step: (Extraction, string) -> Extraction, st: Extraction, lines: seq<string>): Extraction {
    if lines == [] then st else step(Fold(step, st, lines[..|lines| - 1]), lines[|lines| - 1])
  }

  /** Scanning `a + b` is scanning `b` from where `a` left the scan. */
  lemma {:induction false} FoldAppend(step: (Extraction, string) -> Extraction, st: Extraction,
                                      a: seq<string>, b: seq<string>)
    ensures Fold(step, st, a + b) == Fold(step, Fold(step, st, a), b)
    decreases |b|
  {
    if b == [] {
      assert a + b == a;
    } else {
      var init := b[..|b| - 1];
      FoldAppend(step, st, a, init);
      assert (a + b)[..|a + b| - 1] == a + init;
    }
  }

  /** The scan over already stripped lines, from the state before the first line. */
  function Extract(lines: seq<string>): Extraction {
    Fold(ExtractStep, Start, lines)
  }

  lemma ExtractNext(lines: seq<string>, line: string)
    ensures Extract(lines + [line]) == ExtractStep(Extract(lines), line)
  {
    assert (lines + [line])[..|lines|] == lines;
  }

  /** A string left open was opened by one of the two triple quotes, and only the same quote closes it. */
  lemma {:induction false} OpenQuoteIsTriple(lines: seq<string>)
    ensures Extract(lines).inString ==> Extract(lines).quote == TripleDouble || Extract(lines).quote == TripleSingle
    decreases |lines|
  {
    if lines != [] {
      var init := lines[..|lines| - 1];
      OpenQuoteIsTriple(init);
      assert lines == init + [lines[|lines| - 1]];
      ExtractNext(init, lines[|lines| - 1]);
    }
  }

  /** `a` can be obtained from `b` by deleting elements: it keeps `b`'s order. */
  ghost predicate Subsequence<T>(a: seq<T>, b: seq<T>) {
    if a == [] then true
    else if b == [] then false
    else ((a[|a| - 1] == b[|b| - 1] && Subsequence(a[..|a| - 1], b[..|b| - 1]))
          || Subsequence(a, b[..|b| - 1]))
  }

  lemma SubsequenceExtend<T>(a: seq<T>, b: seq<T>, x: T)
    requires Subsequence(a, b)
    ensures Subsequence(a, b + [x]) && Subsequence(a + [x], b + [x])
  {
    assert (b + [x])[..|b|] == b;
    assert (a + [x])[..|a|] == a;
  }

  /** The comment text of every line, in order. */
  function CommentTexts(lines: seq<string>): (ts: seq<string>)
    ensures |ts| == |lines|
  {
    if lines == [] then [] else CommentTexts(lines[..|lines| - 1]) + [CommentText(lines[|lines| - 1])]
  }

  /** A line adds itself to the docstrings, or its comment text to the comments, or nothing. A
      comment comes only from a `#` line outside a string; a docstring line is inside a string or
      holds a triple quote; a string is opened only by a line that starts with a triple quote and
      does not end with it, and an open string keeps its quote. */
  lemma StepAddsAtMostOne(e: Extraction, line: string)
    ensures var e' := ExtractStep(e, line);
      (e'.docstrings == e.docstrings + [line] && e'.comments == e.comments) ||
      (e'.comments == e.comments + [CommentText(line)] && e'.docstrings == e.docstrings) ||
      (e'.comments == e.comments && e'.docstrings == e.docstrings)
    ensures ExtractStep(e, line).comments != e.comments ==> !e.inString && StartsWith(line, "#")
    ensures ExtractStep(e, line).docstrings != e.docstrings ==>
      e.inString || Contains(line, TripleDouble) || Contains(line, TripleSingle)
    ensures ExtractStep(e, line).inString && !e.inString ==>
      OpensString(line) && ExtractStep(e, line).quote == OpeningQuote(line) && !EndsWith(line, OpeningQuote(line))
    ensures ExtractStep(e, line).inString && e.inString ==> ExtractStep(e, line).quote == e.quote
  {
    assert StartsWith(line, TripleDouble) ==> MatchAt(line, TripleDouble, 0);
    assert StartsWith(line, TripleSingle) ==> MatchAt(line, TripleSingle, 0);
  }

  /** Each line lands in at most one list, the docstrings are lines of the input in input order,
      and the comments are comment texts of lines in input order. */
  lemma {:induction false} ExtractKeepsOrder(lines: seq<string>)
    ensures |Extract(lines).comments| + |Extract(lines).docstrings| <= |lines|
    ensures Subsequence(Extract(lines).docstrings, lines)
    ensures Subsequence(Extract(lines).comments, CommentTexts(lines))
    decreases |lines|
  {
    if lines != [] {
      var init := lines[..|lines| - 1];
      var line := lines[|lines| - 1];
      assert lines == init + [line];
      ExtractKeepsOrder(init);
      ExtractNext(init, line);
      assert CommentTexts(lines) == CommentTexts(init) + [CommentText(line)];
      var e := Extract(init);
      StepAddsAtMostOne(e, line);
      SubsequenceExtend(e.docstrings, init, line);
      SubsequenceExtend(e.comments, CommentTexts(init), CommentText(line));
    }
  }

  /** A line that starts and ends with the same triple quote, the bare `"""` line among them, is
      a docstring line that leaves no string open. */
  lemma SelfClosingLine(lines: seq<string>, line: string)
    requires !Extract(lines).inString
    requires OpensString(line) && EndsWith(line, OpeningQuote(line))
    ensures !Extract(lines + [line]).inString
    ensures Extract(lines + [line]).docstrings == Extract(lines).docstrings + [line]
    ensures Extract(lines + [line]).comments == Extract(lines).comments
  {
    ExtractNext(lines, line);
  }

  /** Inside a string, a line ending with the opening quote closes the string and is itself a
      docstring line. */
  lemma CloseString(lines: seq<string>, line: string)
    requires Extract(lines).inString && EndsWith(line, Extract(lines).quote)
    ensures !Extract(lines + [line]).inString
    ensures Extract(lines + [line]).docstrings == Extract(lines).docstrings + [line]
    ensures Extract(lines + [line]).comments == Extract(lines).comments
  {
    ExtractNext(lines, line);
  }

  /** Outside a string, a line starting with a triple quote and not ending with it opens a string
      with that quote, and is a docstring line. */
  lemma OpeningLine(lines: seq<string>, line: string)
    requires !Extract(lines).inString
    requires OpensString(line) && !EndsWith(line, OpeningQuote(line))
    ensures Extract(lines + [line]).inString
    ensures Extract(lines + [line]).quote == OpeningQuote(line)
    ensures Extract(lines + [line]).docstrings == Extract(lines).docstrings + [line]
    ensures Extract(lines + [line]).comments == Extract(lines).comments
  {
    ExtractNext(lines, line);
  }

  /** Outside a string, a `#` line is a comment, its text after the `#` stripped, even when it
      also holds a triple quote: the `#` test comes first. */
  lemma OutsideHashLine(lines: seq<string>, line: string)
    requires !Extract(lines).inString && StartsWith(line, "#")
    ensures !Extract(lines + [line]).inString
    ensures Extract(lines + [line]).comments == Extract(lines).comments + [Strip(line[1..])]
    ensures Extract(lines + [line]).docstrings == Extract(lines).docstrings
  {
    assert !OpensString(line) by { assert line[0] == '#'; }
    ExtractNext(lines, line);
  }

  /** Outside a string, a line that neither starts with a triple quote nor with `#` but holds a
      triple quote somewhere is a docstring line, and opens no string. */
  lemma InlineTripleQuote(lines: seq<string>, line: string)
    requires !Extract(lines).inString && !OpensString(line) && !StartsWith(line, "#")
    requires Contains(line, TripleDouble) || Contains(line, TripleSingle)
    ensures !Extract(lines + [line]).inString
    ensures Extract(lines + [line]).docstrings == Extract(lines).docstrings + [line]
    ensures Extract(lines + [line]).comments == Extract(lines).comments
  {
    ExtractNext(lines, line);
  }

  /** Once a string is open, every following line, `#` lines included, is a docstring line until
      one ends with the opening quote. */
  lemma OpenStringSwallowsLines(lines: seq<string>, more: seq<string>)
    requires Extract(lines).inString
    requires forall k :: 0 <= k < |more| ==> !EndsWith(more[k], Extract(lines).quote)
    ensures Extract(lines + more).inString
    ensures Extract(lines + more).quote == Extract(lines).quote
    ensures Extract(lines + more).docstrings == Extract(lines).docstrings + more
    ensures Extract(lines + more).comments == Extract(lines).comments
  {
    FoldAppend(ExtractStep, Start, lines, more);
    SwallowAll(Extract(lines), more);
  }

  lemma {:induction false} SwallowAll(st: Extraction, more: seq<string>)
    requires st.inString
    requires forall k :: 0 <= k < |more| ==> !EndsWith(more[k], st.quote)
    ensures Fold(ExtractStep, st, more) == st.(docstrings := st.docstrings + more)
    decreases |more|
  {
    if more != [] {
      var init := more[..|more| - 1];
      var line := more[|more| - 1];
      forall k | 0 <= k < |init| ensures !EndsWith(init[k], st.quote) {
        assert init[k] == more[k];
      }
      SwallowAll(st, init);
      assert st.docstrings + more == (st.docstrings + init) + [line];
    }
  }

  /** The `#` lines, each turned into its comment text, in order. */
  function HashComments(lines: seq<string>): seq<string> {
    if lines == [] then []
    else
      var rest := HashComments(lines[..|lines| - 1]);
      if StartsWith(lines[|lines| - 1], "#") then rest + [CommentText(lines[|lines| - 1])] else rest
  }

  /** A source with no triple quote on any line has no docstrings, and its comments are exactly
      its `#` lines, in order. */
  lemma {:induction false} NoTripleQuotesOnlyComments(lines: seq<string>)
    requires forall k :: 0 <= k < |lines| ==> !Contains(lines[k], TripleDouble) && !Contains(lines[k], TripleSingle)
    ensures !Extract(lines).inString
    ensures Extract(lines).docstrings == []
    ensures Extract(lines).comments == HashComments(lines)
    decreases |lines|
  {
    if lines != [] {
      var init := lines[..|lines| - 1];
      var line := lines[|lines| - 1];
      NoTripleQuotesOnlyComments(init);
      assert !Contains(line, TripleDouble) && !Contains(line, TripleSingle);
      assert StartsWith(line, TripleDouble) == MatchAt(line, TripleDouble, 0);
      assert StartsWith(line, TripleSingle) == MatchAt(line, TripleSingle, 0);
    }
  }
}
