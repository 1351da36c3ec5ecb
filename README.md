# Retrieval-augmented answering service: core model

This project models, in Dafny, the three pieces of real logic in the
question-answering backend (`main.py`), a FastAPI service that answers
questions about Horizon Europe grant documents by retrieving passages from a
Pinecone index and asking an OpenAI model:

- **Embedding adapter** (`embedding.dfy`, module `Embedding`):
  `resize_embedding` fits every raw embedding to the index dimension (1024).
  A vector of that length is passed through. A longer one is cut to its
  first 1024 components. A shorter one is padded with zeros.
  `ResizedOpenAIEmbeddings.embed_documents` and `embed_query` apply it to
  what the provider returns. The provider is a function parameter, so the
  model does not interpret it.
- **Streaming presenter** (`chunking.dfy`, module `Chunking`): the finished
  answer is split on runs of whitespace, as Python's `str.split()` with no
  argument does. Each word is streamed as the word followed by one space.
  `IsSpace` is Python's `str.isspace()` character set, written out.
  `Split` is the reference definition of the split.
  `StreamChunks` is a character-by-character scanning loop. It is proved
  to produce exactly the chunks of `Split`.
- **Chat history and query order** (`history.dfy`, module `History`): the
  `chat_history` table is modelled as the class `ChatHistory`. It holds a
  sequence of `(id, question, answer)` records and the next AUTOINCREMENT
  id. It has an insert (`Append`), a listing newest first (`ListAll`) and a
  clear (`ClearAll`). `Query` models `stream_answer`. It takes the
  outcome of the retrieval-and-generation chain as a parameter. It returns
  the observable events in order: the stored record first, then one
  emitted chunk per word. When the chain fails, it returns the error and
  nothing is stored.

Two points about the order of operations in the code, both kept by the
model:

- The insert at `main.py:176-177` runs before the first chunk is yielded at
  `main.py:180`, so a failing insert ends the stream before anything is
  sent. `Query` keeps that order: the stored record is the first event.
- The `try` at `main.py:186-189` only wraps building the
  `StreamingResponse`. It cannot catch errors raised later inside the
  generator, so a failing chain ends the stream rather than producing an
  HTTP 500. `Query` returns `Aborted` for a failed chain and makes no claim
  about the HTTP status.

## Model

| member | source | states |
|---|---|---|
| `Embedding.Zeros` | main.py:58 | `np.zeros(n)`: exactly n components, all 0.0 |
| `Embedding.Resize` | main.py:45-60 | the result has exactly the target length; component k is the input's component k where the input has one, and 0.0 after the input's end |
| `Embedding.ResizeUnchanged` | main.py:47-48 | an input of the target length is returned unchanged |
| `Embedding.ResizeTruncates` | main.py:53-55 | a longer input becomes exactly its first target-size components |
| `Embedding.ResizePads` | main.py:57-60 | a shorter input becomes the input followed by target-minus-length zeros |
| `Embedding.ResizeIdempotent` | main.py:45-60 | resizing twice to the same size equals resizing once |
| `Embedding.ResizeRestoresIff` | main.py:53-60 | resizing and then resizing back to the original length restores the input if and only if every component that was cut off is zero |
| `Embedding.EmbedDocuments` | main.py:64-66 | one vector per provider embedding, in the same order, each of the index dimension, each the provider's vector cut or zero-padded |
| `Embedding.EmbedQuery` | main.py:68-70 | the query vector has the index dimension and is the provider's vector cut or zero-padded |
| `Embedding.EmbedPathsAgree` | main.py:64-70 | when the provider embeds a one-text batch as it embeds that text alone, the batch path and the query path give the same vector |
| `Chunking.IsSpace` | main.py:179 | the characters `str.split()` treats as whitespace: Python's `str.isspace()` set |
| `Chunking.WordLength` | main.py:179 | the leading word of a string is the longest prefix without whitespace: it has no whitespace and is followed by whitespace or the end |
| `Chunking.Split` | main.py:179 | every word `str.split()` yields is non-empty and contains no whitespace |
| `Chunking.Chunk` | main.py:180 | a chunk is the word followed by exactly one space |
| `Chunking.SplitAfterWord` | main.py:179 | a word followed by whitespace or the end splits off as the first word |
| `Chunking.SplitAfterSpace` | main.py:179 | leading whitespace produces no word |
| `Chunking.SplitTrailingSpace` | main.py:179 | trailing whitespace produces no word |
| `Chunking.SplitEmptyIff` | main.py:179 | the answer yields no words if and only if it is all whitespace (the empty answer included) |
| `Chunking.SplitKeepsNonSpace` | main.py:179 | the words, joined without separators, are the answer with its whitespace removed: nothing else is lost or reordered |
| `Chunking.SplitJoined` | main.py:179-180 | splitting the streamed text (each word plus one space) gives back exactly the streamed words |
| `Chunking.Chunked` | main.py:179-180 | one chunk per word, in order, each the word followed by one space |
| `Chunking.StreamPreservesTokens` | main.py:179-180 | the streamed chunks, put together and re-split by the client, give back the words of the answer |
| `Chunking.StreamChunks` | main.py:179-180 | the scanning loop emits exactly one chunk per word of `Split`, in order |
| `History.ChatHistory.constructor` | main.py:143-149 | a new table is empty, consistent, and its first id will be 1 |
| `History.ChatHistory.Append` | main.py:176 | the new record gets the next id, which is larger than every id ever assigned and never reused; it is added at the end; the listing afterwards is the new record followed by the old listing |
| `History.ChatHistory.ListAll` | main.py:194-195 | every record exactly once, by strictly decreasing id |
| `History.ChatHistory.ClearAll` | main.py:202 | afterwards the table and its listing are empty; the id counter and the set of assigned ids are kept |
| `History.ChatHistory.Query` | main.py:156-181 | on a failed chain: the error, no record, no chunk, state unchanged. On an answer: exactly one record (query, answer) with the next id is stored, as the first event, before any chunk; then one chunk per word of the answer, in order |

## Left out

- FastAPI app, CORS middleware and the three endpoint wrappers (`main.py:21-30`, `183-206`): HTTP plumbing.
- Environment loading and the startup check for API keys (`main.py:18`, `33-37`): configuration I/O.
- The Pinecone client, vector store and retriever, the OpenAI model and the base `OpenAIEmbeddings` calls: external network services. The embedding provider is a function parameter. The retrieval-and-generation result is the `Outcome` parameter of `Query`.
- The `RetrievalQA` "stuff" chain and the prompt template (`main.py:77-138`): context concatenation and slot filling happen inside LangChain, whose code is not part of this model. The template is a constant string.
- The direct retriever call and debug printing in `stream_answer` (`main.py:158-170`): output only. If that call raises, the stream ends before anything is stored, so it is covered by `Outcome.Failed`.
- `asyncio.to_thread` and the 0.05 s pause between chunks (`main.py:172`, `181`): concurrency and timing. The chunk sequence is what is modelled, not when the client receives it.
- `History.ChatHistory.Query`: the trace is that of a stream read to the end. If the client disconnects while the chunks are being sent (`main.py:180-181`), the generator is closed there: the record is already stored, and the client has received only a prefix of the chunks.
- SQLite connection, commit and durability (`main.py:141-150`, `177`, `203`): only the log semantics of the SQL statements are modelled. `Append` and `ClearAll` always succeed. A storage error is not modelled.
- `History.ChatHistory.Append`: does not model SQLite's failure once the largest rowid (2^63 - 1) has been used, because ids are unbounded here.
- `History.ChatHistory.ListAll`: returns the records with their ids. The SELECT returns only the question and answer columns, and the endpoint turns each row into a dictionary. Dropping the id is a plain projection.
- numpy conversions (`np.array`, `np.zeros`, `.tolist()`): components are `real` and never computed on, so no floating-point behaviour is modelled.
- `Embedding.Resize`: takes a natural-number target. Python slicing with a negative `target_size` behaves differently, and the service only uses the default of 1024.
