# Financial-document RAG pipeline, deterministic core

A model of the retrieval-augmented question answering in
`research/rag_pipeline.py`. Uploaded financial documents are normalised,
split into chunks, embedded and stored in a vector collection. A question
is embedded, and the closest chunks are filtered and turned into a grounded
prompt. A text-generation model answers the prompt, and repeated words are
removed from the answer.

The foreign services are parameters of the model:

- the LangChain text splitter is a `Splitter` (text, chunk size, overlap to
  pieces);
- the sentence-embedding model is an `Encoder<E>`, which returns a text's
  vector (of an opaque type `E`) or raises;
- the vector store's similarity search is a `Search<E>` (entries, query
  embedding, `top_k` to ranked texts and metadata);
- the text-generation model is a `Generator`, which returns its outputs or
  raises.

An `Outcome<T>` (module `Outcomes`) is either a value or an exception that
propagates to the caller. Embedding failures are not caught anywhere in the
pipeline, so a run's outcome is an answer or an exception.

The modules follow the pipeline's stages:

- `Text`: `clean_text`, with Python's whitespace set written out.
- `Response`: `clean_response`, on the space-separated tokens of the answer.
  This is an approximation of the regular expression; the cases where it
  differs are listed under "Left out".
- `Chunking`: `chunk_documents`, the nested append loop, with a method
  proved against the function `ChunkRecords`.
- `VectorStore`: the collection, a class whose `entries` are filled by
  `VectorDb` only when empty, with ids `"{document_id}_{chunk_index}"`.
  `VectorDb` embeds every chunk before it looks at the collection.
- `Retrieval`: the short-passage filter of `search_vector` and the query
  cleanup of `process_query`. Lower-casing covers ASCII letters only.
- `Prompt`: `augment_context`, a loop proved against the function
  `AugmentedPrompt`.
- `Pipeline`: `generate_response` and `run_rag_pipeline`.
  `RunRagPipeline` is a module-level method that takes the collection as a
  parameter, changes its entries as `StoreAfter` says and returns the
  outcome `PipelineAnswer`.
- `Sequences` and `Numerals`: order-preserving filtering and decimal
  rendering of naturals, shared by the modules above.

Where the code and its comments differ, the model follows the code:

- A source block is labelled with the passage's 1-based position in the
  input list, so a skipped duplicate leaves a gap in the numbering
  (`Prompt.LabelGap`).
- The generator is called on the refusal text too when nothing was
  retrieved (`Pipeline.NothingRetrieved`), although the comment at
  `research/rag_pipeline.py:178-179` says no answer is generated then.
- The filter keeps passages whose stripped text is strictly longer than 20
  characters, the reading of "ignore very short chunks" at
  `research/rag_pipeline.py:165` that the code implements.
- `clean_text` keeps ASCII control characters that are not whitespace.
- Because non-ASCII characters are removed after whitespace is collapsed,
  `clean_text` can leave two adjacent spaces (`Text.CleanTextDoubleSpace`),
  where the comment at `research/rag_pipeline.py:24` promises a single space.
  On ASCII input it cannot (`Text.CleanTextSingleSpacesOnAscii`).

## Model

| member | source | states |
|---|---|---|
| Sequences.Filter | research/rag_pipeline.py:162-166 | a filter's result is no longer than its input and every element satisfies the condition |
| Sequences.FilterSubset | research/rag_pipeline.py:162-166 | every element that survives the filter occurs in the input |
| Sequences.FilterAppend | research/rag_pipeline.py:162-166 | filtering a concatenation filters each part |
| Sequences.FilterEmpty | research/rag_pipeline.py:162-166 | nothing survives exactly when no element satisfies the condition |
| Sequences.FilterAll | research/rag_pipeline.py:162-166 | when every element satisfies the condition, the input comes back unchanged |
| Sequences.FilterSnoc | research/rag_pipeline.py:162-166 | filtering from the back agrees with filtering from the front |
| Sequences.FilterPositions | research/rag_pipeline.py:162-166 | the result is the input at strictly increasing positions, and a position is among them iff its element satisfies the condition |
| Numerals.DigitChar | research/rag_pipeline.py:111 | a digit below ten becomes the decimal digit character of that value |
| Numerals.NatToString | research/rag_pipeline.py:111 | `str()` of a natural is a non-empty run of decimal digits |
| Numerals.ParseNatToString | research/rag_pipeline.py:111 | reading back the digits of `str(n)` gives `n` |
| Numerals.NatToStringInjective | research/rag_pipeline.py:111 | different naturals have different decimal strings |
| Text.IsSpace | research/rag_pipeline.py:25-28 | the whitespace set of Python `str`, code point by code point: 9-13, 28-32, 0x85, 0xA0, 0x1680, 0x2000-0x200A, 0x2028, 0x2029, 0x202F, 0x205F and 0x3000; what `\s` matches and `strip()` removes |
| Text.TrimStart | research/rag_pipeline.py:28 | `lstrip()`, recursively dropping a leading whitespace character; its contract is `Text.TrimStartSpec` |
| Text.TrimEnd | research/rag_pipeline.py:28 | `rstrip()`, recursively dropping a trailing whitespace character; its contract is `Text.TrimEndSpec` |
| Text.Strip | research/rag_pipeline.py:28 | `strip()` as `rstrip()` after `lstrip()`; its contract is `Text.StripSlice` and `Text.StripPadding` |
| Text.Collapse | research/rag_pipeline.py:25 | `re.sub(r'\s+', ' ', ...)` read left to right, a run of whitespace giving one space; its contracts are `Text.CollapseSpec` and `Text.CollapseRun` |
| Text.CollapseSpaces | research/rag_pipeline.py:25 | `re.sub(r'\s+', ' ', text)`: the collapse started outside a whitespace run; its contracts are `Text.CollapseSpec`, `Text.CollapseVisible` and `Text.CollapseRun` |
| Text.DropNonAscii | research/rag_pipeline.py:27 | `re.sub(r'[^\x00-\x7F]+', '', ...)`, keeping the characters below 128 in order; its contract is `Text.DropNonAsciiVisible` |
| Text.CleanText | research/rag_pipeline.py:23-28 | `clean_text`: collapse, then remove non-ASCII, then strip; its contracts are `Text.CleanTextShape`, `Text.CleanTextKeepsVisible` and `Text.CleanTextRun` |
| Text.TrimStartSpec | research/rag_pipeline.py:28 | the left strip leaves a suffix that is empty or starts with a non-space, and removes only whitespace |
| Text.TrimEndSpec | research/rag_pipeline.py:28 | the right strip leaves a prefix that is empty or ends with a non-space, and removes only whitespace |
| Text.StripSlice | research/rag_pipeline.py:28 | `strip()` returns a contiguous slice of its input, and everything outside the slice is whitespace |
| Text.CollapseSpec | research/rag_pipeline.py:25 | after `re.sub(r'\s+', ' ', ...)` every whitespace character is a plain space, no two are adjacent, and every other character comes from the input |
| Text.TrimStartVisible | research/rag_pipeline.py:28 | the left strip loses no ASCII non-whitespace character |
| Text.TrimEndVisible | research/rag_pipeline.py:28 | the right strip loses no ASCII non-whitespace character |
| Text.CollapseVisible | research/rag_pipeline.py:25 | the whitespace collapse keeps every non-whitespace character, ASCII or not, in order, and in particular every ASCII non-whitespace character |
| Text.DropNonAsciiVisible | research/rag_pipeline.py:27 | removing non-ASCII characters keeps every ASCII non-whitespace character, in order |
| Text.CleanTextShape | research/rag_pipeline.py:23-28 | `clean_text` output has only characters below 128, its only whitespace is the plain space, and it has no whitespace at either end |
| Text.CleanTextKeepsVisible | research/rag_pipeline.py:23-28 | `clean_text` keeps exactly the ASCII non-whitespace characters of its input, in order, control characters included |
| Text.CleanTextEmpty | research/rag_pipeline.py:23-28 | `clean_text` gives "" iff the input holds only whitespace and non-ASCII characters (empty input included) |
| Text.CollapseSpacesAscii | research/rag_pipeline.py:25 | the collapse of ASCII text is ASCII |
| Text.StripSingleSpaced | research/rag_pipeline.py:28 | stripping keeps text free of double spaces |
| Text.CleanTextSingleSpacesOnAscii | research/rag_pipeline.py:23-28 | on ASCII input the result has no two adjacent spaces |
| Text.CollapseConcat | research/rag_pipeline.py:25 | after a non-space character the collapse of a concatenation is the collapse of each part |
| Text.CollapseRunTail | research/rag_pipeline.py:25 | a whitespace run already being replaced contributes nothing more before a non-space |
| Text.CollapseRun | research/rag_pipeline.py:25 | a whitespace run between two non-space characters becomes exactly one space: `x + w + y` collapses to the collapse of `x`, one space, the collapse of `y` |
| Text.CollapseLast | research/rag_pipeline.py:25 | a final non-space character stays the last character of the collapse |
| Text.TrimStartAppend | research/rag_pipeline.py:28 | `lstrip()` of a text ending in a non-space keeps whatever is appended to it |
| Text.TrimEndPrepend | research/rag_pipeline.py:28 | `rstrip()` of a text starting with a non-space keeps whatever is prepended to it |
| Text.CleanTextRun | research/rag_pipeline.py:23-28 | a whitespace run between two visible ASCII characters becomes exactly one space: `clean_text(x + w + y)` is `clean_text(x)`, a space, `clean_text(y)` |
| Text.TrimStartSpaces | research/rag_pipeline.py:28 | `lstrip()` drops any whitespace put in front of a text |
| Text.TrimEndSpaces | research/rag_pipeline.py:28 | `rstrip()` drops any whitespace put after a text |
| Text.TrimStartKeepsTail | research/rag_pipeline.py:28 | once `lstrip()` reaches a non-space character, what follows is kept unchanged |
| Text.StripPadding | research/rag_pipeline.py:28 | `strip()` gives the same result when whitespace is added at either end of its input |
| Text.CollapseSample | research/rag_pipeline.py:25 | the collapse leaves "a é b" as it is |
| Text.DropNonAsciiSample | research/rag_pipeline.py:27 | removing non-ASCII from "a é b" leaves "a  b" |
| Text.CleanTextDoubleSpace | research/rag_pipeline.py:23-28 | `clean_text("a é b")` is "a  b", with two spaces, because the removal runs after the collapse |
| Response.Repeatable | research/rag_pipeline.py:32 | a token the pattern `\b[A-Za-z0-9.,%$]+\b` matches whole: only characters of the class, beginning and ending with a letter or digit; `Response.CleanResponsePercentKept` shows a token it excludes |
| Response.Split | research/rag_pipeline.py:32 | `split(' ')` gives at least one token, and no token holds a space |
| Response.Squash | research/rag_pipeline.py:32 | merging runs keeps the first token, never lengthens the list and introduces no new token |
| Response.JoinSplit | research/rag_pipeline.py:32 | joining the tokens with spaces gives back the text |
| Response.SplitNoSpace | research/rag_pipeline.py:32 | a text without spaces is one token |
| Response.SplitAppend | research/rag_pipeline.py:32 | the tokens of `a + " " + b` are those of `a` followed by those of `b` |
| Response.SplitJoin | research/rag_pipeline.py:32 | splitting the join of a non-empty list of space-free tokens gives back the tokens |
| Response.JoinAppend | research/rag_pipeline.py:32 | joining the concatenation of two non-empty lists is joining each and putting a space between them |
| Response.SquashNoRepeats | research/rag_pipeline.py:32 | after merging, no repeatable token is followed by an equal token |
| Response.SquashKeepsTokens | research/rag_pipeline.py:32 | every token of the input still occurs after merging |
| Response.SquashFixed | research/rag_pipeline.py:32 | a token list without repeats is left unchanged |
| Response.SquashAppend | research/rag_pipeline.py:32 | two lists that do not meet in a repeat are merged independently |
| Response.CleanResponse | research/rag_pipeline.py:31-32 | `clean_response` as join, squash, split on the tokens of the answer; its contracts are `Response.CleanResponseNoRepeats`, `Response.CleanResponseFixed` and `Response.CleanResponseIdempotent` |
| Response.CleanResponseNoRepeats | research/rag_pipeline.py:30-32 | in the cleaned answer no repeatable token (`Response.Repeatable`) is followed, after a single space, by an equal token |
| Response.CleanResponseFixed | research/rag_pipeline.py:30-32 | an answer with no repeated word is returned unchanged |
| Response.CleanResponseIdempotent | research/rag_pipeline.py:30-32 | cleaning twice is cleaning once |
| Response.CleanResponseAfterPrefix | research/rag_pipeline.py:30-32 | a prefix without repeats that ends in a non-repeatable token is kept, and the cleanup acts on the rest alone |
| Response.SplitThree | research/rag_pipeline.py:32 | three space-free words joined by spaces split back into those words |
| Response.ThreeWordPrefix | research/rag_pipeline.py:32 | a three-word prefix with no repeat that ends in a non-repeatable word survives the cleanup |
| Response.CleanResponseWordRepeat | research/rag_pipeline.py:30-32 | "growth growth" becomes "growth" |
| Response.CleanResponsePercentKept | research/rag_pipeline.py:30-32 | "10% 10%" is kept, because no word boundary follows `%` |
| Chunking.DateText | research/rag_pipeline.py:66 | `str(date_filed)`: "None" for a missing date, the date's text otherwise |
| Chunking.MetadataOf | research/rag_pipeline.py:62-67 | the metadata copied into every chunk of a document: title, company, document type and the date as text |
| Chunking.Pieces | research/rag_pipeline.py:56 | the splitter applied to the cleaned content with the chunk size and overlap |
| Chunking.Record | research/rag_pipeline.py:58-68 | the record of piece i of document k: document id k, chunk index i, the piece as content and the document's metadata |
| Chunking.DocumentChunks | research/rag_pipeline.py:57-68 | the inner loop: one record per piece of one document, numbered from 0 in splitter order |
| Chunking.Records | research/rag_pipeline.py:55-69 | the outer loop's result: the records of the documents, document after document; its contracts are `Chunking.RecordsPrefix`, `Chunking.RecordsLength`, `Chunking.RecordAt` and `Chunking.RecordSource` |
| Chunking.ChunkRecords | research/rag_pipeline.py:36-69 | the records of all documents, document after document; its contracts are `Chunking.ChunkAt`, `Chunking.ChunkSource`, `Chunking.ChunkKeysDistinct` and `Chunking.ChunkRecordsEmpty` |
| Chunking.PiecesOf | research/rag_pipeline.py:55-56 | there is one list of pieces per document |
| Chunking.ChunkDocuments | research/rag_pipeline.py:36-69 | the nested loop builds exactly the records of `ChunkRecords` |
| Chunking.RecordsPrefix | research/rag_pipeline.py:53-69 | the records of the first k documents are a prefix of all records, and their count is the number of those documents' pieces |
| Chunking.RecordsLength | research/rag_pipeline.py:53-69 | there is one record per piece of every document |
| Chunking.OffsetPrefix | research/rag_pipeline.py:53-69 | the start of document k's records depends only on the documents before it |
| Chunking.RecordAt | research/rag_pipeline.py:57-68 | piece i of document k is the record at document k's start plus i, numbered (k, i) |
| Chunking.RecordSource | research/rag_pipeline.py:57-68 | every record is piece `chunk_index` of document `document_id`, at that position, with that document's metadata |
| Chunking.ChunkAt | research/rag_pipeline.py:55-68 | documents keep their order; each one's records are contiguous and in splitter order; each record's index runs from 0, its id is the document's position, its text is the piece of the cleaned content and its metadata the document's, with `str(date_filed)` |
| Chunking.ChunkSource | research/rag_pipeline.py:55-68 | every record comes from one piece of one document, as above |
| Chunking.ChunkKeysDistinct | research/rag_pipeline.py:59-60 | no two records share a (document id, chunk index) pair |
| Chunking.RecordsEmpty | research/rag_pipeline.py:53-69 | there are no records iff no document has a piece |
| Chunking.ChunkRecordsEmpty | research/rag_pipeline.py:53-69 | the builder returns nothing iff the splitter gives no piece for any cleaned document, in particular for an empty document list |
| VectorStore.EntryId | research/rag_pipeline.py:111 | the id is the decimal document id, an underscore and the decimal chunk index |
| VectorStore.ChunkTexts | research/rag_pipeline.py:104 | there is one text per chunk |
| VectorStore.EncodeAll | research/rag_pipeline.py:104 | embedding every chunk yields one vector per text, or raises |
| VectorStore.EncodeAllSpec | research/rag_pipeline.py:104 | embedding the list succeeds iff every text's embedding does, and then each vector is its text's; otherwise the exception is that of the first text whose embedding raises |
| VectorStore.EntriesFor | research/rag_pipeline.py:110-115 | one entry is added per chunk |
| VectorStore.Indexed | research/rag_pipeline.py:107-120 | a non-empty collection is kept as it is; an empty one receives one entry per chunk |
| VectorStore.Collection.constructor | research/rag_pipeline.py:89-93 | a new collection has its name and no entries |
| VectorStore.Collection.Count | research/rag_pipeline.py:107 | `collection.count()`: the number of stored entries, read by `VectorDb` before it adds anything |
| VectorStore.Collection.Add | research/rag_pipeline.py:110-115 | `add` appends one entry per position of the four parallel lists, after the existing entries |
| VectorStore.Collection.VectorDb | research/rag_pipeline.py:98-120 | every chunk is embedded first; when an embedding raises, `vector_db` raises that exception and the collection is unchanged, whether or not it was empty; otherwise an empty collection receives the entries of the chunks and a non-empty one is left unchanged |
| VectorStore.EntryIdInjective | research/rag_pipeline.py:111 | equal ids `"{document_id}_{chunk_index}"` mean equal document id and chunk index |
| VectorStore.IndexedPiece | research/rag_pipeline.py:104-115 | piece i of document k is stored under id "k_i" with its text, the embedding of that text and its document's metadata, in chunk order |
| VectorStore.EntryIdsDistinct | research/rag_pipeline.py:111 | the ids stored for the records of a document list are pairwise different |
| VectorStore.IndexedTwice | research/rag_pipeline.py:107-120 | indexing the same chunks twice leaves the store as indexing them once; once non-empty the store ignores any chunks |
| Retrieval.Zip | research/rag_pipeline.py:164 | `zip` pairs texts and metadata up to the shorter list |
| Retrieval.LongEnough | research/rag_pipeline.py:165 | the condition `len(doc.strip()) > 20` on a passage; `Retrieval.SearchVectorKeeps` states the filter keeps exactly the passages meeting it |
| Retrieval.SearchVector | research/rag_pipeline.py:162-168 | the filter step of `search_vector`; its contracts are `Retrieval.SearchVectorKeeps` and `Retrieval.SearchVectorLong` |
| Retrieval.SearchVectorKeeps | research/rag_pipeline.py:162-166 | the filter returns exactly the results whose stripped text is longer than 20 characters, in store order, each text with the metadata at its position |
| Retrieval.SearchVectorLong | research/rag_pipeline.py:165 | every returned passage has more than 20 characters once stripped |
| Retrieval.LowerAscii | research/rag_pipeline.py:135 | lower-casing keeps the length, maps each of 'A'..'Z' to the letter 32 code points higher, and leaves every other character as it is |
| Retrieval.CleanQueryShape | research/rag_pipeline.py:135 | the embedded query is the lower-cased query with exactly its leading and trailing whitespace removed: a slice with only whitespace outside it and none at either end of it; it has no upper-case ASCII letter |
| Retrieval.CleanQuery | research/rag_pipeline.py:135 | `query.lower().strip()`; its contracts are `Retrieval.CleanQueryShape` and `Retrieval.CleanQueryIdempotent` |
| Retrieval.CleanQueryIdempotent | research/rag_pipeline.py:135 | cleaning a cleaned query changes nothing |
| Retrieval.LowerAsciiAppend | research/rag_pipeline.py:135 | lower-casing works character by character, so it distributes over concatenation and leaves whitespace alone |
| Retrieval.ProcessQuery | research/rag_pipeline.py:127-140 | the embedding model applied to the cleaned query, its exception passed on; its contract is `Retrieval.ProcessQueryNormalised` |
| Retrieval.ProcessQueryNormalised | research/rag_pipeline.py:132-140 | whitespace around the question, upper-case ASCII letters, or cleaning the question beforehand do not change its embedding or the exception |
| Prompt.RefusalText | research/rag_pipeline.py:180-185 | the fixed text for no passages, with the question in it |
| Prompt.PromptText | research/rag_pipeline.py:211-232 | the instructions, the context and the question in the fixed layout |
| Prompt.Render | research/rag_pipeline.py:198-203 | a block as "Source i:", company, document type and content on their own lines |
| Prompt.RenderAll | research/rag_pipeline.py:198-203 | one rendered text per block |
| Prompt.JoinBlocks | research/rag_pipeline.py:206 | the blocks joined with a blank line between neighbours |
| Prompt.BlockOf | research/rag_pipeline.py:194-202 | the block of a passage: its 1-based position, the company and document type from its metadata, and its stripped content |
| Prompt.StrippedContents | research/rag_pipeline.py:190-197 | `seen_contents`: the stripped texts of the passages visited so far; `Prompt.StrippedContentsSnoc` states how it grows |
| Prompt.Sources | research/rag_pipeline.py:188-203 | one block per passage whose stripped text was not seen before, labelled with its 1-based position; its contracts are `Prompt.SourcesLabels`, `Prompt.SourcesFirstOccurrence` and `Prompt.SourcesDistinct` |
| Prompt.AugmentedPrompt | research/rag_pipeline.py:172-232 | the refusal text for no passages, otherwise the prompt text around the joined blocks; its contract is `Prompt.AugmentContext` |
| Prompt.StrippedContentsSnoc | research/rag_pipeline.py:194-197 | the set of seen texts grows by the stripped text of each passage visited |
| Prompt.AugmentContext | research/rag_pipeline.py:172-232 | the loop over the passages, with its seen-set, yields exactly `AugmentedPrompt`: the refusal text for no passages, otherwise the instructions around the blocks joined by blank lines |
| Prompt.SourcesLabels | research/rag_pipeline.py:193-203 | each block is labelled with a 1-based input position and shows the stripped text, company and document type of the passage there; labels increase |
| Prompt.SourcesFirstOccurrence | research/rag_pipeline.py:193-197 | the passage at position i yields a block labelled i+1 iff its stripped text does not occur earlier |
| Prompt.SourcesDistinct | research/rag_pipeline.py:189-197 | blocks show pairwise different texts, one block per distinct stripped text |
| Prompt.Deduplicated | research/rag_pipeline.py:195-196 | of two passages with the same stripped text the later yields no block |
| Prompt.LabelGap | research/rag_pipeline.py:193-199 | [p, p, q] gives "Source 1" and "Source 3", with no "Source 2" |
| Pipeline.GenerateResponse | research/rag_pipeline.py:237-266 | the first generated text, or "Error generating response: " and the error message when the call raises or returns no output; its contracts are `Pipeline.GeneratorFailure` and `Pipeline.ErrorTextCleaned` |
| Pipeline.PipelineChunks | research/rag_pipeline.py:283 | the chunk records with size 300 and overlap 50 |
| Pipeline.ChunkVectors | research/rag_pipeline.py:289 | there is one vector per chunk when every embedding succeeds |
| Pipeline.StoreAfter | research/rag_pipeline.py:278-289 | the store is indexed only when there are documents, chunks and every chunk's embedding; its contracts are `Pipeline.RerunStable`, `Pipeline.ChunkEmbeddingFailure` and `Pipeline.QueryEmbeddingFailure` |
| Pipeline.PromptFor | research/rag_pipeline.py:292-310 | the prompt built from the filtered search results for the query's embedding |
| Pipeline.PipelineAnswer | research/rag_pipeline.py:268-316 | the two early answers, the exception of a failing embedding, or the cleaned generation; its contract is `Pipeline.RunRagPipeline` and the lemmas below |
| Pipeline.RunRagPipeline | research/rag_pipeline.py:268-316 | no documents gives "No documents uploaded."; no chunks gives "No documents available."; both leave the store alone; a failing embedding raises, after the store was indexed when it is the query's; otherwise the store is indexed and the answer is the cleaned generation on the prompt built from the filtered results |
| Pipeline.ErrorTextCleaned | research/rag_pipeline.py:264 | the cleanup keeps "Error generating response: " and acts on the error message alone |
| Pipeline.GeneratorFailure | research/rag_pipeline.py:263-264 | a generator that raises makes the answer "Error generating response: " followed by the cleaned error message |
| Pipeline.NothingRetrieved | research/rag_pipeline.py:310-313 | when the filter keeps nothing, the generator is still called, on the refusal text of lines 180-185 |
| Pipeline.ChunkEmbeddingFailure | research/rag_pipeline.py:100-107 | when the embedding of any piece of any document raises, the run raises and the store is left as it was, even if it already held entries |
| Pipeline.QueryEmbeddingFailure | research/rag_pipeline.py:289-292 | when the query's embedding raises, the run raises that exception, and an empty store has already been filled with the chunks' entries |
| Pipeline.BlankDocuments | research/rag_pipeline.py:283-286 | documents that hold only whitespace and non-ASCII characters give "No documents available." and leave the store unchanged, if the splitter returns no piece for "" |
| Pipeline.RerunStable | research/rag_pipeline.py:107 | a second run on the same documents leaves the store as the first left it and gives the same outcome to the same question |

## Left out

- Text generation (`google/flan-t5-base`) and sentence embeddings (`all-MiniLM-L6-v2`) are foreign model calls over floating point. They are the parameters `Generator` and `Encoder<E>`. The generator's keyword arguments (`max_length`, `temperature`, ...) are not modelled. A failure to load the embedding model is an encoder that raises on every text.
- Exceptions raised by the text splitter, by the Chroma client and by the similarity search propagate in the code as embedding failures do; the model treats these three services as total and does not model their failures.
- The default `top_k = 3` of `run_rag_pipeline` is not fixed in the model: `topK` is a parameter of every run.
- The generator's output is modelled as a list of texts. An empty list stands for the `IndexError` of `output[0]`, turned into text like any raised error. A missing `generated_text` key is not modelled separately.
- `str(e)` of an exception is taken as given: `Raised(cause)` carries the text.
- The splitter, the embedding model, the search and the generator are modelled as deterministic functions: a service that fails on an input fails again on it, so transient failures ("network issues", `research/rag_pipeline.py:262`) and recovery on a retry are not modelled. `Pipeline.RerunStable` holds under this assumption.
- Chroma client creation, the create-or-get handshake on `financial_documents` and cosine nearest-neighbour search are foreign library code. The search is the parameter `Search<E>`, whose ranked lists arrive as input to the filter.
- Chroma's behaviour when `add` receives empty lists is not modelled: an empty chunk list adds nothing. The pipeline never passes one, because it exits earlier.
- The internals of `RecursiveCharacterTextSplitter` are LangChain code: the splitter is an uninterpreted function of the text, 300 and 50. The docstring's "500words" does not match these `len`-based defaults, and the model uses the defaults the code passes.
- `str(date_filed)` is taken as given for a filed date (`Filed(shown)`); a missing date renders as "None".
- Retrieval.LowerAscii: maps only 'A'..'Z' to lower case, while `process_query` uses `str.lower()`, which covers all of Unicode.
- Response.CleanResponse: the model works on the tokens of `split(' ')` and merges runs of equal tokens that are made only of `[A-Za-z0-9.,%$]` and begin and end with a letter or digit. The regular expression differs in three cases that are not modelled: it also matches inside a token after a non-word character (as in "a.b b"); it has no word boundary after a repeat (so "a ab" becomes "ab"); and when the repeated group begins with `.`, `,`, `%` or `$`, a match can start inside a token right after a word character (so "x.5 .5" becomes "x.5", where the model keeps "x.5 .5").
- The race on `collection.count() == 0` between concurrent requests, and the `print` logging, are not modelled.
- `research/views.py`, `market_research_rag/research/views.py` and the ORM copy of the pipeline in `market_research_rag/research/rag_pipeline.py` are not part of this model. They are HTTP endpoints, PDF text extraction and an older duplicate of the chunk loop.
- The Django models, serializers and URL routing, the frontend and `semanticsearchtest.py` are not part of this model.
