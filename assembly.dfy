/** The parts of `generate_enhanced_markdown` that both variants share: the token budget and the
    "Original Code (Chunks)" section, which re-splits the source text (not the model's output) on
    the opening fence of a Python code block. */
module Assembly {
  import opened Text

  /** Above this many tokens the document is built chunk by chunk. */
  const TokenBudget := 15000
  const Fence := "```python\n"
  const DocSeparator := "\n\n"
  const ChunksHeading := "\n\n### Original Code (Chunks):\n"
  const FailureLabel := "**LLM Documentation Generation Failed:** "

  /** What closes a fenced block, with the blank line after it. */
  const BlockEnd := "\n```\n\n"

  /** The text of one fenced block: the piece verbatim between the opening fence and the closing one. */
  function CodeBlock(piece: string): (b: string)
    ensures StartsWith(b, Fence) && EndsWith(b, BlockEnd)
    ensures |b| == |Fence| + |piece| + |BlockEnd|
    ensures b[|Fence|..|b| - |BlockEnd|] == piece
  {
    Fence + piece + BlockEnd
  }

  /** The fenced blocks for a list of pieces, in order: nothing exactly when there is no piece, and
      otherwise text that opens with a fence and ends with a closed block. */
  function CodeBlocks(pieces: seq<string>): (r: string)
    ensures r == "" <==> pieces == []
    ensures pieces != [] ==> StartsWith(r, Fence) && EndsWith(r, BlockEnd)
  {
    if pieces == [] then ""
    else
      var blocks := CodeBlocks(pieces[..|pieces| - 1]);
      var block := CodeBlock(pieces[|pieces| - 1]);
      FollowBlock(blocks, block);
      blocks + block
  }

  lemma FollowBlock(blocks: string, block: string)
    requires blocks == "" || StartsWith(blocks, Fence)
    requires StartsWith(block, Fence) && EndsWith(block, BlockEnd)
    ensures StartsWith(blocks + block, Fence) && EndsWith(blocks + block, BlockEnd)
  {
    EndsWithPrepend(blocks, block, BlockEnd);
    if blocks == "" {
      assert blocks + block == block;
    } else {
      StartsWithAppend(blocks, Fence, block);
    }
  }

  /** The pieces the source is cut into at each fence; the piece before the first fence is not shown. */
  function ShownPieces(code: string): seq<string> {
    Split(code, Fence)[1..]
  }

  /** Exactly one block is shown per occurrence of the fence in the source, so a source without
      one gets no code at all; and each shown piece runs up to the next fence or to the end. */
  lemma {:induction false} OneBlockPerFence(code: string)
    ensures |ShownPieces(code)| == MatchCount(code, Fence)
    ensures MatchCount(code, Fence) == 0 ==> CodeBlocks(ShownPieces(code)) == ""
    ensures forall k :: 0 <= k < |ShownPieces(code)| - 1 ==>
      NoMatchBefore(ShownPieces(code)[k] + Fence, Fence, |ShownPieces(code)[k]|)
    ensures ShownPieces(code) != [] ==>
      var last := ShownPieces(code)[|ShownPieces(code)| - 1]; NoMatchBefore(last, Fence, |last| + 1)
  {
    SplitCount(code, Fence);
    SplitPieces(code, Fence);
    var r := Split(code, Fence);
    forall k | 0 <= k < |r| - 2 ensures NoMatchBefore(ShownPieces(code)[k] + Fence, Fence, |ShownPieces(code)[k]|) {
      assert ShownPieces(code)[k] == r[k + 1];
    }
    if ShownPieces(code) != [] {
      var last := r[|r| - 1];
      assert ShownPieces(code)[|ShownPieces(code)| - 1] == last;
    }
  }

  lemma CodeBlocksNext(markdown: string, pieces: seq<string>, j: nat)
    requires j < |pieces|
    ensures markdown + CodeBlocks(pieces[..j + 1]) == markdown + CodeBlocks(pieces[..j]) + Fence + pieces[j] + BlockEnd
  {
    assert pieces[..j + 1][..j] == pieces[..j];
  }

  /** The loop at the end of the chunked branch: split the source on the fence and, skipping index
      0, append one fenced block per piece. */
  method AppendOriginalChunks(markdown: string, code: string) returns (r: string)
    ensures r == markdown + CodeBlocks(ShownPieces(code))
  {
    var codeChunks := Split(code, Fence);
    ghost var shown := ShownPieces(code);
    r := markdown;
    var i := 0;
    while i < |codeChunks|
      invariant 0 <= i <= |codeChunks|
      invariant r == markdown + CodeBlocks(shown[..if i == 0 then 0 else i - 1])
    {
      if i != 0 {
        assert codeChunks[i] == shown[i - 1];
        CodeBlocksNext(markdown, shown, i - 1);
        r := r + Fence + codeChunks[i] + BlockEnd;
      }
      i := i + 1;
    }
    assert shown[..|codeChunks| - 1] == shown;
  }
}
