/**
 * The vector store around `vector_db`: a collection of entries, each an id,
 * the chunk's text, its embedding and its metadata. The collection is filled
 * from the chunk records only while it is empty.
 */
module VectorStore {
  import opened Numerals
  import opened Outcomes
  import opened Chunking

  /** One stored chunk. `E` is the embedding, opaque to the model. */
  datatype Entry<E> = Entry(id: string, content: string, embedding: E, metadata: Metadata)

  /** The sentence-embedding model (a foreign library): a text's vector, or an exception. */
  type Encoder<E> = string -> Outcome<E>

  /** The id `"{document_id}_{chunk_index}"`. */
  function EntryId(documentId: nat, chunkIndex: nat): (r: string)
    ensures exists i :: (0 <= i < |r| && r[i] == '_' && r[..i] == NatToString(documentId) &&
                         r[i + 1..] == NatToString(chunkIndex))
  {
    var r := NatToString(documentId) + "_" + NatToString(chunkIndex);
    assert r[|NatToString(documentId)|] == '_';
    r
  }

  /** The texts of the chunks, in chunk order. */
  function ChunkTexts(chunks: seq<Chunk>): (r: seq<string>)
    ensures |r| == |chunks|
  {
    seq(|chunks|, i requires 0 <= i < |chunks| => chunks[i].content)
  }

  /**
   * Embedding a list of texts one after the other: the vectors, in order, or
   * the exception of the first text whose embedding raises.
   */
  function EncodeAll<E>(texts: seq<string>, encode: Encoder<E>): (r: Outcome<seq<E>>)
    ensures r.Done? ==> |r.value| == |texts|
  {
    if texts == [] then Done([])
    else
      match encode(texts[0])
      case Raised(cause) => Raised(cause)
      case Done(v) =>
        match EncodeAll(texts[1..], encode)
        case Raised(cause) => Raised(cause)
        case Done(vs) => Done([v] + vs)
  }

  /** Every text before position `i` was embedded, and the one at `i` raised. */
  predicate FirstFailure<E>(texts: seq<string>, encode: Encoder<E>, i: nat) {
    i < |texts| && encode(texts[i]).Raised? &&
    forall j :: 0 <= j < i ==> encode(texts[j]).Done?
  }

  /**
   * Embedding a list succeeds exactly when every text's embedding does, and
   * then gives each text's vector at its position; otherwise it raises the
   * exception of the first text that fails.
   */
  lemma {:induction false} EncodeAllSpec<E>(texts: seq<string>, encode: Encoder<E>)
    ensures EncodeAll(texts, encode).Done? <==> forall i :: 0 <= i < |texts| ==> encode(texts[i]).Done?
    ensures EncodeAll(texts, encode).Done? ==>
      forall i :: 0 <= i < |texts| ==> EncodeAll(texts, encode).value[i] == encode(texts[i]).value
    ensures EncodeAll(texts, encode).Raised? ==>
      exists i: nat :: FirstFailure(texts, encode, i) && EncodeAll(texts, encode).cause == encode(texts[i]).cause
  {
    if texts != [] {
      var rest := texts[1..];
      EncodeAllSpec(rest, encode);
      assert forall i :: 1 <= i < |texts| ==> texts[i] == rest[i - 1];
      if encode(texts[0]).Raised? {
        assert FirstFailure(texts, encode, 0);
      } else if EncodeAll(rest, encode).Raised? {
        var i: nat :| FirstFailure(rest, encode, i) && EncodeAll(rest, encode).cause == encode(rest[i]).cause;
        assert FirstFailure(texts, encode, i + 1);
      }
    }
  }

  /** The entries `vector_db` adds for the given chunks and their vectors, in chunk order. */
  function EntriesFor<E>(chunks: seq<Chunk>, vectors: seq<E>): (r: seq<Entry<E>>)
    requires |vectors| == |chunks|
    ensures |r| == |chunks|
  {
    seq(|chunks|, i requires 0 <= i < |chunks| =>
      Entry(EntryId(chunks[i].documentId, chunks[i].chunkIndex), chunks[i].content,
            vectors[i], chunks[i].metadata))
  }

  /** The collection after `vector_db` embedded every chunk: filled when it was empty, untouched otherwise. */
  function Indexed<E>(current: seq<Entry<E>>, chunks: seq<Chunk>, vectors: seq<E>): (r: seq<Entry<E>>)
    requires |vectors| == |chunks|
    ensures current != [] ==> r == current
    ensures current == [] ==> |r| == |chunks|
  {
    if |current| == 0 then EntriesFor(chunks, vectors) else current
  }

  class Collection<E> {
    const name: string
    var entries: seq<Entry<E>>

    constructor (name: string)
      ensures this.name == name && entries == []
    {
      this.name := name;
      entries := [];
    }

    /** `collection.count()`. */
    function Count(): nat
      reads this
    {
      |entries|
    }

    /** `collection.add`: append one entry per position of the four parallel lists. */
    method Add(ids: seq<string>, documents: seq<string>, embeddings: seq<E>, metadatas: seq<Metadata>)
      requires |documents| == |ids| && |embeddings| == |ids| && |metadatas| == |ids|
      modifies this
      ensures entries == old(entries) +
        seq(|ids|, i requires 0 <= i < |ids| => Entry(ids[i], documents[i], embeddings[i], metadatas[i]))
    {
      entries := entries +
        seq(|ids|, i requires 0 <= i < |ids| => Entry(ids[i], documents[i], embeddings[i], metadatas[i]));
    }

    /**
     * `vector_db`: embed every chunk, letting a failing embedding raise, then
     * add ids, contents, embeddings and metadata only when the collection
     * holds nothing yet.
     */
    method VectorDb(chunks: seq<Chunk>, encode: Encoder<E>) returns (status: Outcome<()>)
      modifies this
      ensures status.Raised? <==> EncodeAll(ChunkTexts(chunks), encode).Raised?
      ensures status.Raised? ==> status.cause == EncodeAll(ChunkTexts(chunks), encode).cause
      ensures status.Raised? ==> entries == old(entries)
      ensures status.Done? ==> entries == Indexed(old(entries), chunks, EncodeAll(ChunkTexts(chunks), encode).value)
      ensures old(Count()) != 0 ==> entries == old(entries)
    {
      var embeddings := EncodeAll(ChunkTexts(chunks), encode);
      if embeddings.Raised? {
        return Raised(embeddings.cause);
      }
      if Count() == 0 {
        var ids := seq(|chunks|, i requires 0 <= i < |chunks| =>
          EntryId(chunks[i].documentId, chunks[i].chunkIndex));
        var documents := seq(|chunks|, i requires 0 <= i < |chunks| => chunks[i].content);
        var metadatas := seq(|chunks|, i requires 0 <= i < |chunks| => chunks[i].metadata);
        Add(ids, documents, embeddings.value, metadatas);
        assert entries == EntriesFor(chunks, embeddings.value);
      }
      status := Done(());
    }
  }

  /** Two ids are equal only for the same document id and chunk index. */
  lemma EntryIdInjective(a: nat, b: nat, c: nat, d: nat)
    requires EntryId(a, b) == EntryId(c, d)
    ensures a == c && b == d
  {
    var x, y, x', y' := NatToString(a), NatToString(b), NatToString(c), NatToString(d);
    var s := EntryId(a, b);
    assert s == x + "_" + y && s == x' + "_" + y';
    assert s[|x|] == '_' && s[|x'|] == '_';
    assert forall i :: 0 <= i < |x| ==> s[i] == x[i] && IsDigit(s[i]);
    assert forall i :: 0 <= i < |x'| ==> s[i] == x'[i] && IsDigit(s[i]);
    assert |x| == |x'|;
    assert x == s[..|x|] == x';
    assert y == s[|x| + 1..] == y';
    NatToStringInjective(a, c);
    NatToStringInjective(b, d);
  }

  /**
   * Indexing the records of a document list stores piece `i` of document
   * `k` at the record's position, under the id "k_i", with the piece's text,
   * its embedding and the document's metadata.
   */
  lemma IndexedPiece<E>(docs: seq<Document>, k: nat, i: nat, split: Splitter, size: nat, overlap: nat,
                        encode: Encoder<E>)
    requires k < |docs| && i < |Pieces(docs[k], split, size, overlap)|
    requires EncodeAll(ChunkTexts(ChunkRecords(docs, split, size, overlap)), encode).Done?
    ensures var records := ChunkRecords(docs, split, size, overlap);
      var entries := EntriesFor(records, EncodeAll(ChunkTexts(records), encode).value);
      var at := Offset(PiecesOf(docs, split, size, overlap), k) + i;
      var piece := Pieces(docs[k], split, size, overlap)[i];
      at < |entries| && encode(piece).Done? &&
      entries[at] == Entry(EntryId(k, i), piece, encode(piece).value, MetadataOf(docs[k]))
  {
    var records := ChunkRecords(docs, split, size, overlap);
    ChunkAt(docs, k, i, split, size, overlap);
    EncodeAllSpec(ChunkTexts(records), encode);
    var at := Offset(PiecesOf(docs, split, size, overlap), k) + i;
    assert ChunkTexts(records)[at] == Pieces(docs[k], split, size, overlap)[i];
  }

  /** Indexing the records of a document list gives every entry its own id. */
  lemma EntryIdsDistinct<E>(docs: seq<Document>, split: Splitter, size: nat, overlap: nat,
                            vectors: seq<E>, p: nat, q: nat)
    requires |vectors| == |ChunkRecords(docs, split, size, overlap)|
    requires p < q < |ChunkRecords(docs, split, size, overlap)|
    ensures var entries := EntriesFor(ChunkRecords(docs, split, size, overlap), vectors);
      entries[p].id != entries[q].id
  {
    var all := ChunkRecords(docs, split, size, overlap);
    ChunkKeysDistinct(docs, p, q, split, size, overlap);
    if EntryId(all[p].documentId, all[p].chunkIndex) == EntryId(all[q].documentId, all[q].chunkIndex) {
      EntryIdInjective(all[p].documentId, all[p].chunkIndex, all[q].documentId, all[q].chunkIndex);
    }
  }

  /**
   * Indexing the same chunks twice leaves the collection as indexing them
   * once; the same holds for any other chunks once the collection is
   * non-empty, which is why a changed document set is silently not indexed.
   */
  lemma IndexedTwice<E>(current: seq<Entry<E>>, chunks: seq<Chunk>, vectors: seq<E>,
                        other: seq<Chunk>, otherVectors: seq<E>)
    requires |vectors| == |chunks| && |otherVectors| == |other|
    requires current != [] || chunks != [] || other == []
    ensures Indexed(Indexed(current, chunks, vectors), other, otherVectors) == Indexed(current, chunks, vectors)
  {
  }
}
