/** The greedy line chunker of `chunk_and_summarize` and the one-documentation-entry-per-chunk loop
    around it. The lines of the input are grouped into runs; a chunk is a run written out with a
    newline after every line. */
module Chunking {
  import opened Oracles

  const DefaultMaxTokens := 15000
  const DocumentationErrorPrefix := "Documentation Error: "

  /** The documentation entry a completion reply yields for one chunk. */
  function ChunkDoc(reply: Reply): string {
    match reply
    case Text(t) => t
    case Failure(e) => DocumentationErrorPrefix + e
  }

  /** The entries for a list of chunks sent, in order, to the model named. */
  function Summaries(chunks: seq<string>, model: string, complete: Completion): (docs: seq<string>)
    ensures |docs| == |chunks|
  {
    if chunks == [] then []
    else Summaries(chunks[..|chunks| - 1], model, complete) + [ChunkDoc(complete(ChunkRequest(model, chunks[|chunks| - 1])))]
  }

  /** Entry `k` comes from chunk `k` alone: a failed call yields an error entry for its own chunk
      and the entries of the other chunks are unaffected. */
  lemma {:induction false} SummariesEntries(chunks: seq<string>, model: string, complete: Completion)
    ensures forall k :: 0 <= k < |chunks| ==>
      Summaries(chunks, model, complete)[k] == ChunkDoc(complete(ChunkRequest(model, chunks[k])))
    decreases |chunks|
  {
    if chunks != [] {
      var init := chunks[..|chunks| - 1];
      SummariesEntries(init, model, complete);
      var docs := Summaries(chunks, model, complete);
      var prev := Summaries(init, model, complete);
      assert docs == prev + [ChunkDoc(complete(ChunkRequest(model, chunks[|chunks| - 1])))];
      forall k | 0 <= k < |chunks| ensures docs[k] == ChunkDoc(complete(ChunkRequest(model, chunks[k]))) {
        if k < |init| {
          assert docs[k] == prev[k];
          assert chunks[k] == init[k];
        }
      }
    }
  }

  /** The completion requests for a list of chunks, in order. */
  ghost function ChunkRequests(chunks: seq<string>, model: string): seq<Request> {
    seq(|chunks|, k requires 0 <= k < |chunks| => ChunkRequest(model, chunks[k]))
  }

  lemma ChunkRequestsAppend(chunks: seq<string>, chunk: string, model: string)
    ensures ChunkRequests(chunks + [chunk], model) == ChunkRequests(chunks, model) + [ChunkRequest(model, chunk)]
  {
  }

  lemma SummariesAppend(chunks: seq<string>, chunk: string, model: string, complete: Completion)
    ensures Summaries(chunks + [chunk], model, complete)
      == Summaries(chunks, model, complete) + [ChunkDoc(complete(ChunkRequest(model, chunk)))]
  {
    assert (chunks + [chunk])[..|chunks|] == chunks;
  }

  /** A run of lines written out as the accumulator holds it: every line followed by a newline. */
  function Joined(run: seq<string>): string {
    if run == [] then "" else Joined(run[..|run| - 1]) + run[|run| - 1] + "\n"
  }

  /** The concatenation of a list of strings. */
  function Concat(ss: seq<string>): string {
    if ss == [] then "" else Concat(ss[..|ss| - 1]) + ss[|ss| - 1]
  }

  /** The concatenation of a list of runs. */
  function Flatten(rs: seq<seq<string>>): seq<string> {
    if rs == [] then [] else Flatten(rs[..|rs| - 1]) + rs[|rs| - 1]
  }

  /** The state of the loop over lines: the run in the accumulator and the runs already emitted. */
  datatype Scan = Scan(current: seq<string>, closed: seq<seq<string>>)

  /** One iteration: a line that does not fit closes a non-empty accumulator and starts the next
      one; while the accumulator is empty, such a line is skipped. */
  function Step(size: int, st: Scan, line: string): (r: Scan)
    ensures r == st <==> st.current == [] && |line| + 1 > size
  {
    if |Joined(st.current)| + |line| + 1 > size then
      if st.current != [] then
        assert |st.closed + [st.current]| != |st.closed|;
        Scan([line], st.closed + [st.current])
      else st
    else
      assert |st.current + [line]| != |st.current|;
      Scan(st.current + [line], st.closed)
  }

  /** A line that is not skipped is kept: it becomes the last line of the accumulator, and the
      lines held, emitted and pending, grow by exactly that line. */
  lemma StepKeepsLine(size: int, st: Scan, line: string)
    requires Step(size, st, line) != st
    ensures Step(size, st, line).current != []
    ensures Step(size, st, line).current[|Step(size, st, line).current| - 1] == line
    ensures Flatten(Step(size, st, line).closed) + Step(size, st, line).current
      == Flatten(st.closed) + st.current + [line]
  {
    if |Joined(st.current)| + |line| + 1 > size {
      FlattenAppend(st.closed, st.current);
    }
  }

  function ScanLines(lines: seq<string>, size: int): Scan {
    if lines == [] then Scan([], [])
    else Step(size, ScanLines(lines[..|lines| - 1], size), lines[|lines| - 1])
  }

  /** The runs emitted: those closed in the loop, then the accumulator if it is non-empty. */
  function Pending(st: Scan): seq<seq<string>> {
    if st.current != [] then st.closed + [st.current] else st.closed
  }

  function Runs(lines: seq<string>, size: int): seq<seq<string>> {
    Pending(ScanLines(lines, size))
  }

  /** The text of each run, in order. */
  function Texts(rs: seq<seq<string>>): (ts: seq<string>)
    ensures |ts| == |rs|
    ensures forall k :: 0 <= k < |rs| ==> ts[k] == Joined(rs[k])
  {
    if rs == [] then [] else Texts(rs[..|rs| - 1]) + [Joined(rs[|rs| - 1])]
  }

  /** The chunks `chunk_and_summarize` emits for `lines` at chunk size `size`: at most one per
      line kept, and none exactly when every line is too long for the empty accumulator. */
  function Chunks(lines: seq<string>, size: int): (c: seq<string>)
    ensures |c| <= |lines| - Dropped(lines, size)
    ensures c == [] <==> Dropped(lines, size) == |lines|
  {
    RunsPartitionLines(lines, size);
    FlattenCovers(Runs(lines, size));
    Texts(Runs(lines, size))
  }

  /** Non-empty runs hold at least one line each. */
  lemma {:induction false} FlattenCovers(rs: seq<seq<string>>)
    requires forall k :: 0 <= k < |rs| ==> rs[k] != []
    ensures |rs| <= |Flatten(rs)|
    decreases |rs|
  {
    if rs != [] {
      var init := rs[..|rs| - 1];
      forall k | 0 <= k < |init| ensures init[k] != [] {
        assert init[k] == rs[k];
      }
      FlattenCovers(init);
    }
  }

  /** How many leading lines are too long to fit an empty accumulator. */
  function Dropped(lines: seq<string>, size: int): (d: nat)
    ensures d <= |lines|
    ensures forall j :: 0 <= j < d ==> |lines[j]| + 1 > size
    ensures d < |lines| ==> |lines[d]| + 1 <= size
  {
    if lines == [] || |lines[0]| + 1 <= size then 0 else 1 + Dropped(lines[1..], size)
  }

  /** A run that may be emitted: non-empty, and within the size unless it is a single line. */
  predicate Fits(run: seq<string>, size: int) {
    run != [] && (|Joined(run)| <= size || |run| == 1)
  }

  /** The run `next` had to start a new chunk: its first line did not fit behind `prev`. */
  predicate BreaksBefore(prev: seq<string>, next: seq<string>, size: int) {
    next != [] && |Joined(prev)| + |next[0]| + 1 > size
  }

  /** Each run but the first starts a new chunk because its first line did not fit behind the
      previous run. */
  ghost predicate Greedy(rs: seq<seq<string>>, size: int) {
    |rs| <= 1 || (Greedy(rs[..|rs| - 1], size) && BreaksBefore(rs[|rs| - 2], rs[|rs| - 1], size))
  }

  lemma {:induction false} GreedyAt(rs: seq<seq<string>>, size: int, i: nat)
    requires Greedy(rs, size) && i + 1 < |rs|
    ensures BreaksBefore(rs[i], rs[i + 1], size)
    decreases |rs|
  {
    if i + 2 < |rs| {
      GreedyAt(rs[..|rs| - 1], size, i);
    }
  }

  lemma JoinedAppend(a: seq<string>, b: seq<string>)
    ensures Joined(a + b) == Joined(a) + Joined(b)
    decreases |b|
  {
    if b != [] {
      var b' := b[..|b| - 1];
      var x := b[|b| - 1];
      assert a + b == (a + b') + [x];
      assert (a + b)[..|a + b| - 1] == a + b';
      JoinedAppend(a, b');
      calc {
        Joined(a + b);
        Joined(a + b') + x + "\n";
        Joined(a) + Joined(b') + x + "\n";
        Joined(a) + (Joined(b') + x + "\n");
        Joined(a) + Joined(b);
      }
    } else {
      assert a + b == a;
    }
  }

  lemma DroppedAppend(lines: seq<string>, line: string, size: int)
    ensures Dropped(lines + [line], size) ==
      if Dropped(lines, size) == |lines| && |line| + 1 > size then |lines| + 1 else Dropped(lines, size)
    decreases |lines|
  {
    if lines != [] {
      assert (lines + [line])[1..] == lines[1..] + [line];
      DroppedAppend(lines[1..], line, size);
    }
  }

  lemma FlattenAppend(rs: seq<seq<string>>, r: seq<string>)
    ensures Flatten(rs + [r]) == Flatten(rs) + r
  {
    assert (rs + [r])[..|rs|] == rs;
  }

  /** Every run of a list may be emitted. */
  predicate AllFit(rs: seq<seq<string>>, size: int) {
    forall k :: 0 <= k < |rs| ==> Fits(rs[k], size)
  }

  lemma AllFitAppend(rs: seq<seq<string>>, r: seq<string>, size: int)
    requires AllFit(rs, size) && Fits(r, size)
    ensures AllFit(rs + [r], size)
  {
    var rs' := rs + [r];
    forall k | 0 <= k < |rs'| ensures Fits(rs'[k], size) {
      if k < |rs| { assert rs'[k] == rs[k]; }
    }
  }

  lemma AllFitInit(rs: seq<seq<string>>, size: int)
    requires AllFit(rs, size) && rs != []
    ensures AllFit(rs[..|rs| - 1], size)
  {
    var init := rs[..|rs| - 1];
    forall k | 0 <= k < |init| ensures Fits(init[k], size) {
      assert init[k] == rs[k];
    }
  }

  lemma GreedyAppend(rs: seq<seq<string>>, r: seq<string>, size: int)
    requires Greedy(rs, size) && (rs != [] ==> BreaksBefore(rs[|rs| - 1], r, size))
    ensures Greedy(rs + [r], size)
  {
    assert (rs + [r])[..|rs|] == rs;
  }

  /** Growing the last run keeps the runs greedy: whether a run had to start anew depends only
      on its first line. */
  lemma GreedyGrowLast(closed: seq<seq<string>>, current: seq<string>, run: seq<string>, size: int)
    requires Greedy(closed + [current], size)
    requires current != [] && run != [] && run[0] == current[0]
    ensures Greedy(closed + [run], size)
  {
    var ps := closed + [current];
    assert ps[..|ps| - 1] == closed;
    if closed != [] {
      assert ps[|ps| - 2] == closed[|closed| - 1];
    }
    GreedyAppend(closed, run, size);
  }

  /** What the loop over lines keeps true of its state after the lines seen so far. */
  ghost predicate ScanInv(lines: seq<string>, st: Scan, size: int) {
    var d := Dropped(lines, size);
    (st.closed != [] ==> st.current != []) &&
    (st.current == [] <==> d == |lines|) &&
    Flatten(Pending(st)) == lines[d..] &&
    AllFit(Pending(st), size) &&
    Greedy(Pending(st), size)
  }

  /** A line that does not fit behind a non-empty accumulator starts a new run. */
  lemma CloseStep(lines: seq<string>, st: Scan, line: string, size: int)
    requires ScanInv(lines, st, size)
    requires st.current != [] && |Joined(st.current)| + |line| + 1 > size
    ensures ScanInv(lines + [line], Step(size, st, line), size)
  {
    var d := Dropped(lines, size);
    DroppedAppend(lines, line, size);
    var ps := st.closed + [st.current];
    assert Pending(st) == ps;
    assert Step(size, st, line) == Scan([line], ps);
    assert Pending(Scan([line], ps)) == ps + [[line]];
    CoverNewRun(ps, lines, d, line);
    assert Joined([line]) == line + "\n";
    AllFitAppend(ps, [line], size);
    assert ps[|ps| - 1] == st.current;
    GreedyAppend(ps, [line], size);
  }

  /** A line that fits behind a non-empty accumulator joins its run. */
  lemma ExtendStep(lines: seq<string>, st: Scan, line: string, size: int)
    requires ScanInv(lines, st, size)
    requires st.current != [] && |Joined(st.current)| + |line| + 1 <= size
    ensures ScanInv(lines + [line], Step(size, st, line), size)
  {
    var d := Dropped(lines, size);
    DroppedAppend(lines, line, size);
    var run := st.current + [line];
    assert Pending(st) == st.closed + [st.current];
    assert Step(size, st, line) == Scan(run, st.closed);
    assert Pending(Scan(run, st.closed)) == st.closed + [run];
    CoverGrowLast(st.closed, st.current, lines, d, line);
    FitsGrow(st.current, line, size);
    AllFitReplaceLast(st.closed, st.current, run, size);
    GreedyGrowLast(st.closed, st.current, run, size);
  }

  /** A new run holding just the next line keeps the runs covering the kept lines. */
  lemma CoverNewRun(ps: seq<seq<string>>, lines: seq<string>, d: nat, line: string)
    requires d <= |lines| && Flatten(ps) == lines[d..]
    ensures Flatten(ps + [[line]]) == (lines + [line])[d..]
  {
    FlattenAppend(ps, [line]);
    assert (lines + [line])[d..] == lines[d..] + [line];
  }

  /** The next line added to the last run keeps the runs covering the kept lines. */
  lemma CoverGrowLast(closed: seq<seq<string>>, current: seq<string>, lines: seq<string>, d: nat, line: string)
    requires d <= |lines| && Flatten(closed + [current]) == lines[d..]
    ensures Flatten(closed + [current + [line]]) == (lines + [line])[d..]
  {
    FlattenAppend(closed, current + [line]);
    FlattenAppend(closed, current);
    assert (lines + [line])[d..] == lines[d..] + [line];
  }

  /** A line that fits behind a run, as the loop tests it, leaves the run within the size. */
  lemma FitsGrow(current: seq<string>, line: string, size: int)
    requires |Joined(current)| + |line| + 1 <= size
    ensures Fits(current + [line], size)
  {
    JoinedAppend(current, [line]);
    JoinedOne(line);
    assert |Joined(current + [line])| == |Joined(current)| + |line| + 1;
  }

  lemma JoinedOne(line: string)
    ensures Joined([line]) == line + "\n"
  {
    assert [line][..0] == [];
  }

  lemma AllFitReplaceLast(closed: seq<seq<string>>, current: seq<string>, run: seq<string>, size: int)
    requires AllFit(closed + [current], size) && Fits(run, size)
    ensures AllFit(closed + [run], size)
  {
    var ps := closed + [current];
    assert ps[..|ps| - 1] == closed;
    AllFitInit(ps, size);
    AllFitAppend(closed, run, size);
  }

  /** The first line that fits an empty accumulator starts the first run. */
  lemma StartStep(lines: seq<string>, st: Scan, line: string, size: int)
    requires ScanInv(lines, st, size)
    requires st.current == [] && |line| + 1 <= size
    ensures ScanInv(lines + [line], Step(size, st, line), size)
  {
    DroppedAppend(lines, line, size);
    assert Dropped(lines + [line], size) == |lines|;
    assert (lines + [line])[|lines|..] == [line];
    assert Joined([line]) == line + "\n";
    assert st.closed == [];
    assert Step(size, st, line) == Scan([line], []);
    assert Pending(Scan([line], [])) == [] + [[line]];
    FlattenAppend([], [line]);
    AllFitAppend([], [line], size);
  }

  /** A line too long for an empty accumulator is skipped. */
  lemma SkipStep(lines: seq<string>, st: Scan, line: string, size: int)
    requires ScanInv(lines, st, size)
    requires st.current == [] && |line| + 1 > size
    ensures ScanInv(lines + [line], Step(size, st, line), size)
  {
    DroppedAppend(lines, line, size);
    assert Step(size, st, line) == st;
    assert st.closed == [] && Pending(st) == [];
  }

  lemma StepInv(lines: seq<string>, st: Scan, line: string, size: int)
    requires ScanInv(lines, st, size)
    ensures ScanInv(lines + [line], Step(size, st, line), size)
  {
    if st.current == [] && |line| + 1 <= size {
      StartStep(lines, st, line, size);
    } else if |Joined(st.current)| + |line| + 1 <= size {
      ExtendStep(lines, st, line, size);
    } else if st.current != [] {
      CloseStep(lines, st, line, size);
    } else {
      SkipStep(lines, st, line, size);
    }
  }

  lemma {:induction false} ScanInvariant(lines: seq<string>, size: int)
    ensures ScanInv(lines, ScanLines(lines, size), size)
    decreases |lines|
  {
    if lines != [] {
      var init := lines[..|lines| - 1];
      var line := lines[|lines| - 1];
      assert lines == init + [line];
      ScanInvariant(init, size);
      StepInv(init, ScanLines(init, size), line, size);
    }
  }

  /** The runs partition the lines that follow the dropped leading ones, in order: each run is
      non-empty and within the size unless it is a single line, and each run but the first begins
      with a line that did not fit behind the previous run. */
  lemma RunsPartitionLines(lines: seq<string>, size: int)
    ensures Flatten(Runs(lines, size)) == lines[Dropped(lines, size)..]
    ensures forall k :: 0 <= k < |Runs(lines, size)| ==>
      Runs(lines, size)[k] != [] && (|Joined(Runs(lines, size)[k])| <= size || |Runs(lines, size)[k]| == 1)
    ensures forall i, j :: 0 <= i && j == i + 1 && j < |Runs(lines, size)| ==>
      |Joined(Runs(lines, size)[i])| + |Runs(lines, size)[j][0]| + 1 > size
  {
    ScanInvariant(lines, size);
    AllFitEach(Runs(lines, size), size);
    GreedyEach(Runs(lines, size), size);
  }

  lemma AllFitEach(rs: seq<seq<string>>, size: int)
    requires AllFit(rs, size)
    ensures forall k :: 0 <= k < |rs| ==> rs[k] != [] && (|Joined(rs[k])| <= size || |rs[k]| == 1)
  {
    forall k | 0 <= k < |rs| ensures rs[k] != [] && (|Joined(rs[k])| <= size || |rs[k]| == 1) {
      assert Fits(rs[k], size);
    }
  }

  lemma GreedyEach(rs: seq<seq<string>>, size: int)
    requires Greedy(rs, size)
    ensures forall i, j :: 0 <= i && j == i + 1 && j < |rs| ==> BreaksBefore(rs[i], rs[j], size)
  {
    forall i, j | 0 <= i && j == i + 1 && j < |rs| ensures BreaksBefore(rs[i], rs[j], size) {
      GreedyAt(rs, size, i);
    }
  }

  lemma {:induction false} ConcatTexts(rs: seq<seq<string>>)
    ensures Concat(Texts(rs)) == Joined(Flatten(rs))
    decreases |rs|
  {
    if rs != [] {
      var init := rs[..|rs| - 1];
      ConcatTexts(init);
      var ts := Texts(rs);
      assert ts[..|ts| - 1] == Texts(init);
      JoinedAppend(Flatten(init), rs[|rs| - 1]);
    }
  }

  /** Every chunk is non-empty, ends with a newline and holds at most `size` characters unless it is
      a single line; together the chunks are the kept lines, in order, each followed by a newline.
      No line after the first kept one is lost, and no lines give no chunks. */
  lemma ChunksAreWholeLines(lines: seq<string>, size: int)
    ensures |Chunks(lines, size)| == |Runs(lines, size)|
    ensures forall k :: 0 <= k < |Chunks(lines, size)| ==>
      Chunks(lines, size)[k] == Joined(Runs(lines, size)[k]) &&
      Chunks(lines, size)[k] != [] && Chunks(lines, size)[k][|Chunks(lines, size)[k]| - 1] == '\n' &&
      (|Chunks(lines, size)[k]| <= size || |Runs(lines, size)[k]| == 1)
    ensures Concat(Chunks(lines, size)) == Joined(lines[Dropped(lines, size)..])
    ensures lines == [] ==> Chunks(lines, size) == []
  {
    RunsPartitionLines(lines, size);
    ConcatTexts(Runs(lines, size));
  }

  /** Shrinking the size can lose a chunk rather than add one: a line that no longer fits an empty
      accumulator is skipped instead of being emitted alone. */
  lemma ShrinkingSizeCanDropChunk()
    ensures |Chunks(["abcd"], 5)| == 1 && |Chunks(["abcd"], 4)| == 0
  {
    assert ["abcd"][..0] == [];
  }

  lemma ScanNext(lines: seq<string>, i: nat, size: int, run: seq<string>, closed: seq<seq<string>>)
    requires i < |lines| && ScanLines(lines[..i], size) == Scan(run, closed)
    ensures ScanLines(lines[..i + 1], size) ==
      if |Joined(run)| + |lines[i]| + 1 > size then
        if run != [] then Scan([lines[i]], closed + [run]) else Scan(run, closed)
      else Scan(run + [lines[i]], closed)
  {
    assert lines[..i + 1][..i] == lines[..i];
  }

  lemma TextsAppend(rs: seq<seq<string>>, r: seq<string>)
    ensures Texts(rs + [r]) == Texts(rs) + [Joined(r)]
  {
    assert (rs + [r])[..|rs|] == rs;
  }

  /** `chunk_and_summarize`: walks the lines with an accumulator, emits a chunk whenever the next
      line would take it over a third of `maxTokens`, and asks the completion service once per
      chunk, turning a failed call into an error entry and carrying on. `chunks` is built but, as
      in the source, not returned; `requests` records each completion call where it is made. */
  method ChunkAndSummarize(lines: seq<string>, maxTokens: int, model: string, complete: Completion)
    returns (docs: seq<string>, ghost chunks: seq<string>, ghost requests: seq<Request>)
    ensures chunks == Chunks(lines, maxTokens / 3)
    ensures requests == ChunkRequests(chunks, model)
    ensures docs == Summaries(Chunks(lines, maxTokens / 3), model, complete)
    ensures |docs| == |chunks|
    ensures forall k :: 0 <= k < |chunks| ==> docs[k] == ChunkDoc(complete(ChunkRequest(model, chunks[k])))
  {
    var chunkSize := maxTokens / 3;
    var current := "";
    docs, chunks, requests := [], [], [];
    ghost var run: seq<string> := [];
    ghost var closed: seq<seq<string>> := [];
    var i := 0;
    assert lines[..i] == [];
    while i < |lines|
      invariant 0 <= i <= |lines|
      invariant ScanLines(lines[..i], chunkSize) == Scan(run, closed)
      invariant current == Joined(run)
      invariant chunks == Texts(closed)
      invariant docs == Summaries(chunks, model, complete)
      invariant requests == ChunkRequests(chunks, model)
    {
      var line := lines[i];
      ScanNext(lines, i, chunkSize, run, closed);
      if |current| + |line| + 1 > chunkSize {
        if current != "" {
          TextsAppend(closed, run);
          SummariesAppend(chunks, current, model, complete);
          ChunkRequestsAppend(chunks, current, model);
          chunks := chunks + [current];
          var request := ChunkRequest(model, current);
          requests := requests + [request];
          docs := docs + [ChunkDoc(complete(request))];
          closed := closed + [run];
          current := line + "\n";
          run := [line];
          assert Joined(run) == current;
        }
      } else {
        JoinedAppend(run, [line]);
        assert Joined([line]) == line + "\n";
        current := current + line + "\n";
        run := run + [line];
      }
      i := i + 1;
    }
    assert lines[..|lines|] == lines;
    if current != "" {
      TextsAppend(closed, run);
      SummariesAppend(chunks, current, model, complete);
      ChunkRequestsAppend(chunks, current, model);
      chunks := chunks + [current];
      var request := ChunkRequest(model, current);
      requests := requests + [request];
      docs := docs + [ChunkDoc(complete(request))];
    }
    SummariesEntries(chunks, model, complete);
  }
}
