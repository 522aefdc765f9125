/** The OpenAI variant of the pipeline (`mkdocs_poc.py`). Its `chunk_and_summarize` is
    `Chunking.ChunkAndSummarize` with this variant's default model. */
module MkdocsPoc {
  import opened Oracles
  import opened Text
  import opened Chunking
  import opened Assembly
  import opened Comments

  const Header := "## Enhanced Code Documentation, for queries please reach out to Maninee Sahu\n\n"
  const DefaultModel := "gpt-3.5-turbo"
  /** What follows the documentation when the source is sent whole, before the source itself. */
  const OriginalCodeHeading := "### Original Code:\n```python\n"
  const ClosingFence := "\n```\n"

  /** The note that replaces the documentation when the tokenizer or the completion call fails;
      this variant repeats the message. */
  function FailureNote(message: string): (r: string)
    ensures StartsWith(r, FailureLabel) && EndsWith(r, "\n\n")
    ensures |r| == |FailureLabel| + 2 * (|message| + 2)
    ensures r[|FailureLabel|..] == message + "\n\n" + message + "\n\n"
  {
    FailureLabel + message + "\n\n" + message + "\n\n"
  }

  /** `extract_code_comments`: strips each line, then sorts it by the two-state scan. */
  method ExtractCodeComments(lines: seq<string>) returns (comments: seq<string>, docstrings: seq<string>)
    ensures comments == Extract(StripEach(lines)).comments
    ensures docstrings == Extract(StripEach(lines)).docstrings
  {
    comments, docstrings := [], [];
    var inMultilineString := false;
    var multilineStringQuote := "";
    var i := 0;
    assert lines[..0] == [];
    while i < |lines|
      invariant 0 <= i <= |lines|
      invariant Extract(StripEach(lines[..i]))
        == Extraction(inMultilineString, multilineStringQuote, comments, docstrings)
    {
      var line := Strip(lines[i]);
      StripEachNext(lines, i);
      ExtractNext(StripEach(lines[..i]), line);
      if inMultilineString {
        if EndsWith(line, multilineStringQuote) {
          inMultilineString := false;
          docstrings := docstrings + [line];
        } else {
          docstrings := docstrings + [line];
        }
      } else if StartsWith(line, TripleDouble) || StartsWith(line, TripleSingle) {
        inMultilineString := true;
        multilineStringQuote := if StartsWith(line, TripleDouble) then TripleDouble else TripleSingle;
        if EndsWith(line, multilineStringQuote) {
          inMultilineString := false;
          docstrings := docstrings + [line];
        } else {
          docstrings := docstrings + [line];
        }
      } else if StartsWith(line, "#") {
        comments := comments + [Strip(line[1..])];
      } else if Contains(line, TripleDouble) || Contains(line, TripleSingle) {
        docstrings := docstrings + [line];
      }
      i := i + 1;
    }
    assert lines[..|lines|] == lines;
  }

  /** `generate_enhanced_markdown`: the header, then either one request for the whole source
      followed by the source in one fenced block, or, above the token budget, the chunk
      documentation joined by blank lines followed by the source re-split on the fence. A failure
      of the tokenizer or of the single request becomes a note in the document; the function
      always returns a document. `lines` is `code.splitlines()`; `requests` records the completion
      calls made, in order. */
  method GenerateEnhancedMarkdown(code: string, lines: seq<string>, model: string,
                                  complete: Completion, countTokens: Tokenizer)
    returns (markdown: string, ghost requests: seq<Request>)
    ensures StartsWith(markdown, Header)
    ensures countTokens(model, code).EncodingFailed? ==>
      requests == [] && markdown == Header + FailureNote(countTokens(model, code).message)
    ensures countTokens(model, code).Counted? && countTokens(model, code).count <= TokenBudget ==>
      requests == [CodeRequest(model, code)] &&
      match complete(CodeRequest(model, code))
      case Text(doc) => markdown == Header + doc + "\n\n" + OriginalCodeHeading + code + ClosingFence
      case Failure(e) => markdown == Header + FailureNote(e)
    ensures countTokens(model, code).Counted? && countTokens(model, code).count > TokenBudget ==>
      var chunks := Chunks(lines, DefaultMaxTokens / 3);
      requests == ChunkRequests(chunks, DefaultModel) &&
      markdown == Header + Join(Summaries(chunks, DefaultModel, complete), DocSeparator)
                  + ChunksHeading + CodeBlocks(ShownPieces(code))
  {
    markdown := Header;
    requests := [];
    assert StartsWith(markdown, Header);
    match countTokens(model, code)
    case EncodingFailed(e) =>
      StartsWithAppend(markdown, Header, FailureNote(e));
      markdown := markdown + FailureNote(e);
    case Counted(tokenCount) =>
      if tokenCount > TokenBudget {
        var chunkDocumentation;
        ghost var chunks;
        chunkDocumentation, chunks, requests := ChunkAndSummarize(lines, DefaultMaxTokens, DefaultModel, complete);
        StartsWithAppend(markdown, Header, Join(chunkDocumentation, DocSeparator));
        markdown := markdown + Join(chunkDocumentation, DocSeparator);
        StartsWithAppend(markdown, Header, ChunksHeading);
        markdown := markdown + ChunksHeading;
        StartsWithAppend(markdown, Header, CodeBlocks(ShownPieces(code)));
        markdown := AppendOriginalChunks(markdown, code);
      } else {
        var request := CodeRequest(model, code);
        requests := requests + [request];
        match complete(request)
        case Text(llmDocumentation) =>
          StartsWithAppend(markdown, Header, llmDocumentation);
          StartsWithAppend(markdown + llmDocumentation, Header, "\n\n");
          markdown := markdown + llmDocumentation + "\n\n";
          StartsWithAppend(markdown, Header, OriginalCodeHeading);
          StartsWithAppend(markdown + OriginalCodeHeading, Header, code);
          StartsWithAppend(markdown + OriginalCodeHeading + code, Header, ClosingFence);
          markdown := markdown + OriginalCodeHeading + code + ClosingFence;
        case Failure(e) =>
          StartsWithAppend(markdown, Header, FailureNote(e));
          markdown := markdown + FailureNote(e);
      }
  }
}
