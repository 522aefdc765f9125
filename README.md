# mkdocs_agent in Dafny

A model of the documentation pipeline of mkdocs_agent. The pipeline exists twice: once for
OpenAI (`mkdocs_poc.py`) and once for Groq (`mkdocs_groq.py`). Each copy has three parts, and the
model covers all three:

- **`chunk_and_summarize`** walks the lines of a Python source with a string accumulator.
  - When the next line would take the accumulator past `max_tokens // 3` characters, the
    accumulator is emitted as a chunk and the line starts the next one.
  - Each chunk is sent to a chat-completion service. The reply, or `Documentation Error: <e>`
    when the call fails, becomes that chunk's documentation entry.
- **`generate_enhanced_markdown`** writes a fixed header, then counts the tokens of the source.
  - Up to 15000 tokens, it asks for documentation of the whole file. It appends that
    documentation and then the source in one fenced block.
  - Above 15000 tokens, it joins the chunk entries with blank lines. It then cuts the *source*
    (not the model's output) at every `` ```python\n `` and appends one fenced block per piece
    after the first.
  - Any failure, whether from the tokenizer or the completion call, becomes a note in the
    document. The function always returns a document.
  - The Groq copy returns an error text when no API key was entered, and then makes no call at all.
- **`extract_code_comments`** is a two-state scan over stripped lines: inside or outside a
  triple-quoted string. It sorts lines into comments and docstrings.

How the model is built:
- The completion service and the tokenizer are functions that the caller passes in. Any reply
  and any failure a single call can give is covered. Two identical requests, however, always get
  the same reply (see `Chunking.SummariesEntries` under "## Left out").
- The lines of the source are given next to the source text.
- Two things are kept as ghost out-parameters:
  - the list of chunks, which the source builds but never returns;
  - the list of completion requests made.

Each loop of the source is a method, and each method is proved equal to a function defined one
line at a time. The properties of the source are then proved as lemmas about those functions:
- `Chunking.Chunks` is the chunker.
- `Chunking.Summaries` gives the entries.
- `Comments.Extract` is the extractor.
- `Text.Split` is Python's `str.split`.

One behaviour of the chunker is modelled exactly as written. While the accumulator is still
empty, a line too long to fit is skipped rather than emitted. So leading overlong lines are lost
(`Chunking.Dropped`). Once the accumulator is non-empty it stays non-empty, so no later line is
lost. A consequence is that a smaller chunk size can give fewer chunks
(`Chunking.ShrinkingSizeCanDropChunk`).

## Model

| member | source | states |
|---|---|---|
| Text.Find | mkdocs_poc.py:108 | the index found is an occurrence of the separator with none before it; no index means no occurrence at all |
| Text.Split | mkdocs_poc.py:108 | `str.split` on a non-empty separator returns at least one piece |
| Text.SplitJoin | mkdocs_poc.py:108 | joining the pieces back with the separator gives the original text |
| Text.SplitPieces | mkdocs_poc.py:108 | every piece but the last holds no separator and is followed by one; the last piece holds none |
| Text.SplitCount | mkdocs_poc.py:108 | k non-overlapping occurrences, counted left to right, give exactly k + 1 pieces |
| Text.Strip | mkdocs_poc.py:21 | the result is the input without leading and trailing whitespace: it is a slice of the input, its ends are not whitespace, and everything cut off is whitespace |
| Chunking.Summaries | mkdocs_poc.py:62-91 | there is exactly one entry per chunk |
| Chunking.SummariesEntries | mkdocs_poc.py:62-91 | entry k is the reply text for chunk k, or `Documentation Error: ` and the message when that call failed; a failure changes only its own entry, so later chunks are still documented |
| Chunking.Step | mkdocs_poc.py:60-77 | one line leaves the loop state unchanged exactly when the accumulator is empty and the line alone does not fit |
| Chunking.StepKeepsLine | mkdocs_poc.py:60-77 | a line that is not skipped becomes the last line of the accumulator, and the lines emitted and pending grow by exactly that line |
| Chunking.Chunks | mkdocs_poc.py:55-80 | there is at most one chunk per kept line, and no chunk at all exactly when every line is too long for the empty accumulator |
| Chunking.Dropped | mkdocs_poc.py:59-62 | the lines skipped are exactly the leading lines too long for an empty accumulator; the first kept line fits |
| Chunking.RunsPartitionLines | mkdocs_poc.py:59-80 | the runs of lines behind the chunks are, concatenated, exactly the lines after the skipped ones, in order; each is non-empty and within the chunk size unless it is one line; each run but the first starts with a line that did not fit behind the previous run |
| Chunking.ChunksAreWholeLines | mkdocs_poc.py:55-80 | every chunk is non-empty, ends with a newline, is its run's lines each followed by a newline, and is within the chunk size unless it holds one line; the chunks concatenate to the kept lines each followed by a newline; no lines give no chunks |
| Chunking.ShrinkingSizeCanDropChunk | mkdocs_poc.py:59-62 | a single 4-character line gives one chunk at chunk size 5 and none at chunk size 4 |
| Chunking.ChunkAndSummarize | mkdocs_poc.py:51-93 | the chunks built are `Chunks(lines, maxTokens / 3)`, one completion request is made per chunk, in order, and the entries returned are `Summaries` of those chunks: one per chunk, in order, each the reply or the error entry for that chunk |
| Text.Join | mkdocs_poc.py:106 | joining a non-empty list gives a text that starts with the first part and ends with the last |
| Assembly.CodeBlock | mkdocs_poc.py:111 | a block is the fence, the piece unchanged, then a closing fence and a blank line |
| Assembly.CodeBlocks | mkdocs_poc.py:109-111 | the blocks of no pieces are empty and those of some pieces start with the fence and end with the closing fence and a blank line |
| Assembly.OneBlockPerFence | mkdocs_poc.py:108-111 | one piece is shown per occurrence of the fence in the source, so a source without one gets no code block; each shown piece runs up to the next fence or the end |
| Assembly.AppendOriginalChunks | mkdocs_poc.py:107-111 | the loop appends one fenced block for each piece after the first, in order |
| Comments.StripEach | mkdocs_poc.py:20-21 | every line is stripped, in order |
| Comments.ExtractStep | mkdocs_poc.py:24-47 | one line adds at most one entry to the two lists |
| Comments.StepAddsAtMostOne | mkdocs_poc.py:24-47 | a line adds itself to the docstrings, or its comment text to the comments, or nothing; a comment comes only from a `#` line outside a string; a docstring line is inside a string or holds a triple quote; a string is opened only by a line starting with a triple quote and not ending with it, with that quote; an open string keeps its quote |
| Comments.OpenQuoteIsTriple | mkdocs_poc.py:32-35 | a string left open was opened by `"""` or `'''` and remembers that quote |
| Comments.CloseString | mkdocs_poc.py:24-27 | inside a string, a line ending with the opening quote closes it and is a docstring line; the comments are unchanged |
| Comments.OutsideHashLine | mkdocs_poc.py:43-45 | outside a string, a `#` line is a comment (the text after the `#`, stripped) even when it also holds a triple quote, and opens no string |
| Comments.OpeningLine | mkdocs_poc.py:32-40 | outside a string, a line starting with a triple quote and not ending with it opens a string with that quote and is a docstring line; the comments are unchanged |
| Comments.InlineTripleQuote | mkdocs_poc.py:43-47 | outside a string, a line that starts neither with a triple quote nor with `#` but holds a triple quote is a docstring line and opens no string; the comments are unchanged |
| Comments.ExtractKeepsOrder | mkdocs_poc.py:20-47 | each line lands in at most one list; the docstrings are input lines in input order, the comments are comment texts of input lines in input order |
| Comments.SelfClosingLine | mkdocs_poc.py:32-41 | outside a string, a line starting and ending with the same triple quote (a bare `"""` line among them) is a docstring line and leaves no string open |
| Comments.OpenStringSwallowsLines | mkdocs_poc.py:24-30 | inside a string, every line (`#` lines too) is a docstring line until one ends with the opening quote |
| Comments.NoTripleQuotesOnlyComments | mkdocs_poc.py:43-47 | without triple quotes there are no docstrings and the comments are the `#` lines with the `#` and surrounding whitespace removed, in order |
| MkdocsPoc.ExtractCodeComments | mkdocs_poc.py:12-49 | the two lists returned are those of the extractor over the stripped lines |
| MkdocsPoc.FailureNote | mkdocs_poc.py:127 | the note is exactly the failure label, then the message twice, each followed by a blank line |
| MkdocsPoc.GenerateEnhancedMarkdown | mkdocs_poc.py:95-129 | the document starts with the header; a tokenizer failure gives the doubled failure note and no request; at most 15000 tokens gives exactly one whole-file request, then documentation, blank line and the source in a block ending in a newline, or the doubled failure note; above 15000 tokens gives one request per chunk with the default model, the entries joined by blank lines, the chunks heading and one block per fence in the source |
| MkdocsGroq.ExtractCodeComments | mkdocs_groq.py:14-45 | the two lists returned are those of the extractor over the stripped lines, the same as the OpenAI copy's for every input |
| MkdocsGroq.ChunkAndSummarize | mkdocs_groq.py:47-92 | without a key, the single key-required entry and no chunk, hence no request; with a key, the chunks and entries of the shared chunker |
| MkdocsGroq.FailureNote | mkdocs_groq.py:127 | the note is the failure label, then the message once, followed by a blank line |
| MkdocsGroq.GenerateEnhancedMarkdown | mkdocs_groq.py:94-129 | without a key, exactly the key-required document and no request; otherwise the header, then the same three outcomes as the OpenAI copy, with tokens counted in `cl100k_base`, the single-shot block ending in a fence with no newline and the failure note giving the message once |

## Left out

- The Streamlit user interface (`main`, the sidebar, the widgets, downloads and rendering): presentation, not logic.
- Loading a file or URL (`requests.get`, `open`): I/O.
- The API clients, the prompt strings and `temperature`: the completion service is a function passed in, and a request records only its model and whether it carries a chunk or the whole file.
- `tiktoken`: it is a function passed in, from the model or encoding name and the text to a count or a failure.
- The API key set through the environment or the sidebar: a parameter instead.
- Python's `splitlines`: the lines are given next to the source text, so its line-break rules are not modelled.
- Text.Strip: removes ASCII whitespace only; the non-ASCII whitespace that Python's `strip` also removes is not modelled.
- The `multiline_string_start` variable of the OpenAI extractor: it is assigned and never read.
- Chunking.ChunkAndSummarize: the reply text is used as returned; the `.strip()` applied to it is not modelled.
- MkdocsPoc.GenerateEnhancedMarkdown: the whole-file documentation is used as returned; the `.strip()` applied to it is not modelled.
- MkdocsGroq.GenerateEnhancedMarkdown: the whole-file documentation is used as returned; the `.strip()` applied to it is not modelled.
- Chunking.SummariesEntries: the completion service is a function of the request, so two identical chunks always get the same entry; a run where one of them fails and the other succeeds (sampling at temperature 0.5, rate limits) is not modelled.
- Exceptions other than a failing tokenizer or completion call (for example a reply without content) are not distinguished from a failing call.
