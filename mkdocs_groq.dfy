/** The Groq variant of the pipeline (`mkdocs_groq.py`): the same chunker, extractor and document
    layout, guarded by the API key entered in the sidebar, which is a parameter here. */
module MkdocsGroq {
  import opened Oracles
  import opened Text
  import Chunking
  import opened Assembly
  import opened Comments

  const Header := "## Enhanced Code Documentation\n\n"
  const DefaultModel := "llama3-70b-8192"
  /** The tokenizer encoding this variant counts with, whatever the model. */
  const Encoding := "cl100k_base"
  /** The only chunk documentation returned when no key was entered. */
  const KeyRequired := "Error: Groq API Key is required."
  /** The whole document returned when no key was entered. */
  const KeyRequiredDocument := "**Error: Groq API Key is required.**"
  /** What follows the documentation when the source is sent whole; this variant ends the block
      without a newline. */
  const OriginalCodeHeading := "### Original Code:\n```python\n"
  const ClosingFence := "\n```"

  /** The note that replaces the documentation when the tokenizer or the completion call fails;
      this variant gives the message once. */
  function FailureNote(message: string): (r: string)
    ensures StartsWith(r, FailureLabel) && EndsWith(r, "\n\n")
    ensures |r| == |FailureLabel| + |message| + 2
    ensures MatchAt(r, message, |FailureLabel|)
  {
    FailureLabel + message + "\n\n"
  }

  /** `extract_code_comments`: the same scan as the other variant, with one append after the
      opening-quote test instead of one in each branch. */
  method ExtractCodeComments(lines: seq<string>) returns (comments: seq<string>, docstrings: seq<string>)
    ensures comments == Extract(StripEach(lines)).comments
    ensures docstrings == Extract(StripEach(lines)).docstrings
  {
    comments, docstrings := [], [];
    var inMultilineString := false;
    var multilineStringQuote := "";
    var i := 0;
    assert lines[..0] == [];
    while i < |lines|
      invariant 0 <= i <= |lines|
      invariant Extract(StripEach(lines[..i]))
        == Extraction(inMultilineString, multilineStringQuote, comments, docstrings)
    {
      var line := Strip(lines[i]);
      StripEachNext(lines, i);
      ExtractNext(StripEach(lines[..i]), line);
      if inMultilineString {
        if EndsWith(line, multilineStringQuote) {
          inMultilineString := false;
          docstrings := docstrings + [line];
        } else {
          docstrings := docstrings + [line];
        }
      } else if StartsWith(line, TripleDouble) || StartsWith(line, TripleSingle) {
        inMultilineString := true;
        multilineStringQuote := if StartsWith(line, TripleDouble) then TripleDouble else TripleSingle;
        if EndsWith(line, multilineStringQuote) {
          inMultilineString := false;
        }
        docstrings := docstrings + [line];
      } else if StartsWith(line, "#") {
        comments := comments + [Strip(line[1..])];
      } else if Contains(line, TripleDouble) || Contains(line, TripleSingle) {
        docstrings := docstrings + [line];
      }
      i := i + 1;
    }
    assert lines[..|lines|] == lines;
  }

  /** `chunk_and_summarize`: without a key, one error entry and no chunk and no request; with one,
      the shared chunker. */
  method ChunkAndSummarize(apiKey: string, lines: seq<string>, maxTokens: int, model: string,
                           complete: Completion)
    returns (docs: seq<string>, ghost chunks: seq<string>, ghost requests: seq<Request>)
    ensures apiKey == "" ==> docs == [KeyRequired]
    ensures apiKey == "" ==> chunks == [] && requests == []
    ensures apiKey != "" ==> docs == Chunking.Summaries(Chunking.Chunks(lines, maxTokens / 3), model, complete)
    ensures apiKey != "" ==> chunks == Chunking.Chunks(lines, maxTokens / 3)
    ensures apiKey != "" ==> requests == Chunking.ChunkRequests(chunks, model)
  {
    if apiKey == "" {
      return [KeyRequired], [], [];
    }
    docs, chunks, requests := Chunking.ChunkAndSummarize(lines, maxTokens, model, complete);
  }

  /** `generate_enhanced_markdown`: without a key, the error document and no request at all;
      otherwise the header followed by the single-request or the chunked document, as in the other
      variant but with tokens counted in a fixed encoding. */
  method GenerateEnhancedMarkdown(apiKey: string, code: string, lines: seq<string>, model: string,
                                  complete: Completion, countTokens: Tokenizer)
    returns (markdown: string, ghost requests: seq<Request>)
    ensures apiKey == "" ==> markdown == KeyRequiredDocument && requests == []
    ensures apiKey != "" ==> StartsWith(markdown, Header)
    ensures apiKey != "" && countTokens(Encoding, code).EncodingFailed? ==>
      requests == [] && markdown == Header + FailureNote(countTokens(Encoding, code).message)
    ensures apiKey != "" && countTokens(Encoding, code).Counted? &&
            countTokens(Encoding, code).count <= TokenBudget ==>
      requests == [CodeRequest(model, code)] &&
      match complete(CodeRequest(model, code))
      case Text(doc) => markdown == Header + doc + "\n\n" + OriginalCodeHeading + code + ClosingFence
      case Failure(e) => markdown == Header + FailureNote(e)
    ensures apiKey != "" && countTokens(Encoding, code).Counted? &&
            countTokens(Encoding, code).count > TokenBudget ==>
      var chunks := Chunking.Chunks(lines, Chunking.DefaultMaxTokens / 3);
      requests == Chunking.ChunkRequests(chunks, DefaultModel) &&
      markdown == Header + Join(Chunking.Summaries(chunks, DefaultModel, complete), DocSeparator)
                  + ChunksHeading + CodeBlocks(ShownPieces(code))
  {
    if apiKey == "" {
      return KeyRequiredDocument, [];
    }
    markdown := Header;
    requests := [];
    assert StartsWith(markdown, Header);
    match countTokens(Encoding, code)
    case EncodingFailed(e) =>
      StartsWithAppend(markdown, Header, FailureNote(e));
      markdown := markdown + FailureNote(e);
    case Counted(tokenCount) =>
      if tokenCount > TokenBudget {
        var chunkDocumentation;
        ghost var chunks;
        chunkDocumentation, chunks, requests := ChunkAndSummarize(apiKey, lines, Chunking.DefaultMaxTokens, DefaultModel, complete);
        StartsWithAppend(markdown, Header, Join(chunkDocumentation, DocSeparator));
        markdown := markdown + Join(chunkDocumentation, DocSeparator);
        StartsWithAppend(markdown, Header, ChunksHeading);
        markdown := markdown + ChunksHeading;
        StartsWithAppend(markdown, Header, CodeBlocks(ShownPieces(code)));
        markdown := AppendOriginalChunks(markdown, code);
      } else {
        var request := CodeRequest(model, code);
        requests := requests + [request];
        match complete(request)
        case Text(llmDocumentation) =>
          StartsWithAppend(markdown, Header, llmDocumentation);
          StartsWithAppend(markdown + llmDocumentation, Header, "\n\n");
          markdown := markdown + llmDocumentation + "\n\n";
          StartsWithAppend(markdown, Header, OriginalCodeHeading);
          StartsWithAppend(markdown + OriginalCodeHeading, Header, code);
          StartsWithAppend(markdown + OriginalCodeHeading + code, Header, ClosingFence);
          markdown := markdown + OriginalCodeHeading + code + ClosingFence;
        case Failure(e) =>
          StartsWithAppend(markdown, Header, FailureNote(e));
          markdown := markdown + FailureNote(e);
      }
  }
}
