/**
 * Answer generation (`generate_response`) and the orchestrator
 * `run_rag_pipeline`: early exits for no documents and no chunks, then
 * indexing, retrieval, prompt assembly, generation and cleanup.
 */
module Pipeline {
  import opened Text
  import opened Outcomes
  import opened Response
  import opened Chunking
  import opened VectorStore
  import opened Retrieval
  import opened Prompt

  /** The text-generation model, a foreign service: its outputs for a prompt, or an exception. */
  type Generator = string -> Outcome<seq<string>>

  /** The store's similarity search: entries, query embedding and `top_k` to ranked results. */
  type Search<!E> = (seq<Entry<E>>, E, nat) -> QueryResult

  const ErrorPrefix: string := "Error generating response: "
  /** The message of the error raised by taking the first element of an empty list. */
  const IndexErrorText: string := "list index out of range"
  const NoDocumentsText: string := "No documents uploaded."
  const NoChunksText: string := "No documents available."

  /**
   * `generate_response`: the first generated text, or, when the call raises
   * (or returns no output to take the first of), the error as text.
   */
  function GenerateResponse(generate: Generator, prompt: string): string {
    match generate(prompt)
    case Raised(cause) => ErrorPrefix + cause
    case Done(texts) => if |texts| == 0 then ErrorPrefix + IndexErrorText else texts[0]
  }

  /** The chunks `run_rag_pipeline` builds, with the default size and overlap. */
  function PipelineChunks(docs: seq<Document>, split: Splitter): seq<Chunk> {
    ChunkRecords(docs, split, DefaultChunkSize, DefaultChunkOverlap)
  }

  /** The embeddings `vector_db` computes for the pipeline's chunks. */
  function ChunkVectors<E>(docs: seq<Document>, split: Splitter, encode: Encoder<E>): (r: Outcome<seq<E>>)
    ensures r.Done? ==> |r.value| == |PipelineChunks(docs, split)|
  {
    EncodeAll(ChunkTexts(PipelineChunks(docs, split)), encode)
  }

  /**
   * The store after one run, given the entries it held before: indexed when
   * the run got as far as `vector_db` and every chunk's embedding succeeded.
   */
  function StoreAfter<E>(entries: seq<Entry<E>>, docs: seq<Document>, split: Splitter, encode: Encoder<E>)
    : seq<Entry<E>>
  {
    if docs == [] || PipelineChunks(docs, split) == [] then entries
    else
      match ChunkVectors(docs, split, encode)
      case Raised(_) => entries
      case Done(vectors) => Indexed(entries, PipelineChunks(docs, split), vectors)
  }

  /** The prompt handed to the generator when the store holds `entries` and the query embeds to `vector`. */
  function PromptFor<E>(entries: seq<Entry<E>>, query: string, vector: E, topK: nat, search: Search<E>)
    : string
  {
    AugmentedPrompt(query, SearchVector(search(entries, vector, topK)))
  }

  /**
   * The outcome of one run, given the entries the store held before: one of
   * the two early answers, the exception of a failing embedding, or the
   * cleaned generated answer.
   */
  function PipelineAnswer<E>(entries: seq<Entry<E>>, docs: seq<Document>, query: string, topK: nat,
                             split: Splitter, encode: Encoder<E>, search: Search<E>, generate: Generator)
    : Outcome<string>
  {
    if docs == [] then Done(NoDocumentsText)
    else if PipelineChunks(docs, split) == [] then Done(NoChunksText)
    else if ChunkVectors(docs, split, encode).Raised? then Raised(ChunkVectors(docs, split, encode).cause)
    else
      match ProcessQuery(query, encode)
      case Raised(cause) => Raised(cause)
      case Done(vector) =>
        var stored := StoreAfter(entries, docs, split, encode);
        Done(CleanResponse(GenerateResponse(generate, PromptFor(stored, query, vector, topK, search))))
  }

  /**
   * `run_rag_pipeline` on a collection: the store is changed as `StoreAfter`
   * says, and the outcome is `PipelineAnswer`. A failing embedding is an
   * exception that reaches the caller.
   */
  method RunRagPipeline<E>(store: Collection<E>, uploadedDocs: seq<Document>, query: string, topK: nat,
                           split: Splitter, encode: Encoder<E>, search: Search<E>, generate: Generator)
    returns (reply: Outcome<string>)
    modifies store
    ensures uploadedDocs == [] ==> reply == Done(NoDocumentsText)
    ensures uploadedDocs != [] && PipelineChunks(uploadedDocs, split) == [] ==> reply == Done(NoChunksText)
    ensures store.entries == StoreAfter(old(store.entries), uploadedDocs, split, encode)
    ensures reply == PipelineAnswer(old(store.entries), uploadedDocs, query, topK, split, encode, search, generate)
  {
    if |uploadedDocs| == 0 {
      return Done(NoDocumentsText);
    }
    var chunks := ChunkDocuments(uploadedDocs, split, DefaultChunkSize, DefaultChunkOverlap);
    if |chunks| == 0 {
      return Done(NoChunksText);
    }
    var status := store.VectorDb(chunks, encode);
    if status.Raised? {
      return Raised(status.cause);
    }
    var queryEmbedding := ProcessQuery(query, encode);
    if queryEmbedding.Raised? {
      return Raised(queryEmbedding.cause);
    }
    var results := SearchVector(search(store.entries, queryEmbedding.value, topK));
    var augmentedPrompt := AugmentContext(query, results);
    var response := GenerateResponse(generate, augmentedPrompt);
    reply := Done(CleanResponse(response));
  }

  lemma ErrorPrefixWords(x: string)
    ensures ErrorPrefix + x == "Error" + " " + "generating" + " " + "response:" + " " + x
  {
  }

  /**
   * The cleanup of an error text leaves "Error generating response: " alone
   * and acts on the error message only.
   */
  lemma ErrorTextCleaned(cause: string)
    ensures CleanResponse(ErrorPrefix + cause) == ErrorPrefix + CleanResponse(cause)
  {
    var a: string, b: string, c: string := "Error", "generating", "response:";
    ErrorPrefixWords(cause);
    ErrorPrefixWords(CleanResponse(cause));
    assert ' ' !in a && ' ' !in b && ' ' !in c;
    assert !Repeatable(c) by {
      assert c[8] == ':';
    }
    assert |a| != |b| && |b| != |c|;
    ThreeWordPrefix(a, b, c, cause);
  }

  /** A generator that raises yields the error text, cleaned after its fixed part. */
  lemma GeneratorFailure<E>(entries: seq<Entry<E>>, docs: seq<Document>, query: string, topK: nat,
                            split: Splitter, encode: Encoder<E>, search: Search<E>, generate: Generator)
    requires docs != [] && PipelineChunks(docs, split) != []
    requires ChunkVectors(docs, split, encode).Done? && ProcessQuery(query, encode).Done?
    requires var stored := StoreAfter(entries, docs, split, encode);
      generate(PromptFor(stored, query, ProcessQuery(query, encode).value, topK, search)).Raised?
    ensures var stored := StoreAfter(entries, docs, split, encode);
      var cause := generate(PromptFor(stored, query, ProcessQuery(query, encode).value, topK, search)).cause;
      PipelineAnswer(entries, docs, query, topK, split, encode, search, generate) ==
      Done(ErrorPrefix + CleanResponse(cause))
  {
    var stored := StoreAfter(entries, docs, split, encode);
    var cause := generate(PromptFor(stored, query, ProcessQuery(query, encode).value, topK, search)).cause;
    ErrorTextCleaned(cause);
  }

  /**
   * When no passage survives the filter, the generator is still called, on
   * the refusal text.
   */
  lemma NothingRetrieved<E>(entries: seq<Entry<E>>, docs: seq<Document>, query: string, topK: nat,
                            split: Splitter, encode: Encoder<E>, search: Search<E>, generate: Generator)
    requires docs != [] && PipelineChunks(docs, split) != []
    requires ChunkVectors(docs, split, encode).Done? && ProcessQuery(query, encode).Done?
    requires var stored := StoreAfter(entries, docs, split, encode);
      SearchVector(search(stored, ProcessQuery(query, encode).value, topK)) == []
    ensures PipelineAnswer(entries, docs, query, topK, split, encode, search, generate) ==
      Done(CleanResponse(GenerateResponse(generate, RefusalText(query))))
  {
  }

  /**
   * The chunks' embeddings are computed before the store is asked whether it
   * is empty: when one of them fails, the run raises that exception even if
   * the store is already full, and the store is left as it was.
   */
  lemma ChunkEmbeddingFailure<E>(entries: seq<Entry<E>>, docs: seq<Document>, query: string, topK: nat,
                                 split: Splitter, encode: Encoder<E>, search: Search<E>, generate: Generator,
                                 k: nat, i: nat)
    requires k < |docs| && i < |Pieces(docs[k], split, DefaultChunkSize, DefaultChunkOverlap)|
    requires encode(Pieces(docs[k], split, DefaultChunkSize, DefaultChunkOverlap)[i]).Raised?
    ensures PipelineAnswer(entries, docs, query, topK, split, encode, search, generate).Raised?
    ensures StoreAfter(entries, docs, split, encode) == entries
  {
    var all := PipelineChunks(docs, split);
    ChunkAt(docs, k, i, split, DefaultChunkSize, DefaultChunkOverlap);
    var at := Offset(PiecesOf(docs, split, DefaultChunkSize, DefaultChunkOverlap), k) + i;
    assert ChunkTexts(all)[at] == Pieces(docs[k], split, DefaultChunkSize, DefaultChunkOverlap)[i];
    EncodeAllSpec(ChunkTexts(all), encode);
  }

  /**
   * The query is embedded after the store was indexed: when that embedding
   * fails, the run raises, and an empty store has nevertheless been filled.
   */
  lemma QueryEmbeddingFailure<E>(entries: seq<Entry<E>>, docs: seq<Document>, query: string, topK: nat,
                                 split: Splitter, encode: Encoder<E>, search: Search<E>, generate: Generator)
    requires docs != [] && PipelineChunks(docs, split) != []
    requires ChunkVectors(docs, split, encode).Done? && ProcessQuery(query, encode).Raised?
    ensures PipelineAnswer(entries, docs, query, topK, split, encode, search, generate) ==
      Raised(ProcessQuery(query, encode).cause)
    ensures entries == [] ==>
      StoreAfter(entries, docs, split, encode) ==
      EntriesFor(PipelineChunks(docs, split), ChunkVectors(docs, split, encode).value) &&
      StoreAfter(entries, docs, split, encode) != []
  {
  }

  /**
   * Documents whose contents are only whitespace and non-ASCII characters
   * clean to empty text; if the splitter gives no piece for empty text, the
   * answer is "No documents available.".
   */
  lemma BlankDocuments<E>(entries: seq<Entry<E>>, docs: seq<Document>, query: string, topK: nat,
                          split: Splitter, encode: Encoder<E>, search: Search<E>, generate: Generator)
    requires docs != []
    requires split("", DefaultChunkSize, DefaultChunkOverlap) == []
    requires forall k, i :: 0 <= k < |docs| && 0 <= i < |docs[k].content| ==>
      IsSpace(docs[k].content[i]) || !IsAscii(docs[k].content[i])
    ensures PipelineAnswer(entries, docs, query, topK, split, encode, search, generate) == Done(NoChunksText)
    ensures StoreAfter(entries, docs, split, encode) == entries
  {
    forall k | 0 <= k < |docs| ensures Pieces(docs[k], split, DefaultChunkSize, DefaultChunkOverlap) == [] {
      CleanTextEmpty(docs[k].content);
    }
    ChunkRecordsEmpty(docs, split, DefaultChunkSize, DefaultChunkOverlap);
  }

  /**
   * Running the pipeline again on the same documents leaves the store as
   * the first run left it, and gives the same outcome to the same query.
   */
  lemma RerunStable<E>(entries: seq<Entry<E>>, docs: seq<Document>, query: string, topK: nat,
                       split: Splitter, encode: Encoder<E>, search: Search<E>, generate: Generator)
    ensures var after := StoreAfter(entries, docs, split, encode);
      StoreAfter(after, docs, split, encode) == after &&
      PipelineAnswer(after, docs, query, topK, split, encode, search, generate) ==
      PipelineAnswer(entries, docs, query, topK, split, encode, search, generate)
  {
    var chunks := PipelineChunks(docs, split);
    if docs != [] && chunks != [] && ChunkVectors(docs, split, encode).Done? {
      var vectors := ChunkVectors(docs, split, encode).value;
      IndexedTwice(entries, chunks, vectors, chunks, vectors);
    }
  }
}
