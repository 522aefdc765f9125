/** The two services the pipeline calls but cannot see: a chat-completion endpoint
    (OpenAI or Groq) and the tiktoken tokenizer. Each is modelled as a total function
    chosen by the caller: any reply or failure a single call can give is covered, but two
    identical requests always get the same answer. */
module Oracles {

  /** A chat-completion request. The system prompt is fixed by the kind of request:
      a chunk asks for "a self-contained section that can be concatenated with others",
      the whole file asks for comprehensive documentation of the code. */
  datatype Request =
    | ChunkRequest(model: string, chunk: string)
    | CodeRequest(model: string, code: string)

  /** The completion's message text, or the message of the exception the call raised. */
  datatype Reply = Text(text: string) | Failure(message: string)

  type Completion = Request -> Reply

  /** The length of the encoded text, or the message of the exception the tokenizer raised. */
  datatype TokenCount = Counted(count: nat) | EncodingFailed(message: string)

  /** Takes the model name (or encoding name) that selects the encoding, and the text to encode. */
  type Tokenizer = (string, string) -> TokenCount
}
