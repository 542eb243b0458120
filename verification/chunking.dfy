/**
 * The chunk-record builder `chunk_documents`: every document's normalised
 * content goes through the text splitter, and every piece becomes a record
 * carrying the document's list position, the piece's position among the
 * document's pieces, and metadata copied from the document.
 */
module Chunking {
  import opened Text

  /** The filing date as a document carries it; `str()` of a missing date is "None". */
  datatype DateFiled = NoDate | Filed(shown: string)

  datatype Document = Document(
    title: string, company: string, docType: string, content: string, dateFiled: DateFiled)

  /** Metadata of a chunk, every field a string as the vector store keeps it. */
  datatype Metadata = Metadata(title: string, company: string, docType: string, dateFiled: string)

  datatype Chunk = Chunk(documentId: nat, chunkIndex: nat, content: string, metadata: Metadata)

  /**
   * The text splitter (a foreign library): given the text, the target chunk
   * size and the overlap, it returns the pieces in order.
   */
  type Splitter = (string, nat, nat) -> seq<string>

  const DefaultChunkSize: nat := 300
  const DefaultChunkOverlap: nat := 50

  /** `str(date_filed)`. */
  function DateText(d: DateFiled): string {
    match d
    case NoDate => "None"
    case Filed(shown) => shown
  }

  /** The metadata every chunk of `doc` carries. */
  function MetadataOf(doc: Document): Metadata {
    Metadata(doc.title, doc.company, doc.docType, DateText(doc.dateFiled))
  }

  /** The splitter's pieces of a document's normalised content. */
  function Pieces(doc: Document, split: Splitter, size: nat, overlap: nat): seq<string> {
    split(CleanText(doc.content), size, overlap)
  }

  /** The record of piece `i` of document number `k`. */
  function Record(k: nat, i: nat, piece: string, doc: Document): Chunk {
    Chunk(k, i, piece, MetadataOf(doc))
  }

  /** The records of one document, numbered from 0 in splitter order. */
  function DocumentChunks(k: nat, doc: Document, pieces: seq<string>): seq<Chunk> {
    seq(|pieces|, i requires 0 <= i < |pieces| => Record(k, i, pieces[i], doc))
  }

  /** The splitter's pieces of every document, in document order. */
  function PiecesOf(docs: seq<Document>, split: Splitter, size: nat, overlap: nat): (ps: seq<seq<string>>)
    ensures |ps| == |docs|
  {
    seq(|docs|, k requires 0 <= k < |docs| => Pieces(docs[k], split, size, overlap))
  }

  /** The records of all documents, document after document, given each document's pieces. */
  function Records(docs: seq<Document>, pieces: seq<seq<string>>): seq<Chunk>
    requires |pieces| == |docs|
    decreases |docs|
  {
    if docs == [] then []
    else
      var last := |docs| - 1;
      Records(docs[..last], pieces[..last]) + DocumentChunks(last, docs[last], pieces[last])
  }

  /** What `chunk_documents` returns. */
  function ChunkRecords(docs: seq<Document>, split: Splitter, size: nat, overlap: nat): seq<Chunk> {
    Records(docs, PiecesOf(docs, split, size, overlap))
  }

  /** How many records come before those of document `k`. */
  function Offset(pieces: seq<seq<string>>, k: nat): nat
    requires k <= |pieces|
  {
    if k == 0 then 0 else Offset(pieces, k - 1) + |pieces[k - 1]|
  }

  /** `chunk_documents`: the nested loops that append one record per piece. */
  method ChunkDocuments(docs: seq<Document>, split: Splitter, size: nat, overlap: nat)
    returns (all: seq<Chunk>)
    ensures all == ChunkRecords(docs, split, size, overlap)
  {
    ghost var ps := PiecesOf(docs, split, size, overlap);
    all := [];
    var k := 0;
    while k < |docs|
      invariant 0 <= k <= |docs|
      invariant all == Records(docs[..k], ps[..k])
    {
      var doc := docs[k];
      var pieces := Pieces(doc, split, size, overlap);
      assert pieces == ps[k];
      var i := 0;
      while i < |pieces|
        invariant 0 <= i <= |pieces|
        invariant all == Records(docs[..k], ps[..k]) + DocumentChunks(k, doc, pieces[..i])
      {
        assert DocumentChunks(k, doc, pieces[..i + 1]) ==
          DocumentChunks(k, doc, pieces[..i]) + [Record(k, i, pieces[i], doc)];
        all := all + [Chunk(k, i, pieces[i], MetadataOf(doc))];
        i := i + 1;
      }
      assert pieces[..i] == pieces;
      assert docs[..k + 1][..k] == docs[..k] && ps[..k + 1][..k] == ps[..k];
      k := k + 1;
    }
    assert docs[..k] == docs && ps[..k] == ps;
  }

  /** The records of a prefix of the documents are a prefix of all records. */
  lemma {:induction false} RecordsPrefix(docs: seq<Document>, pieces: seq<seq<string>>, k: nat)
    requires |pieces| == |docs| && k <= |docs|
    ensures |Records(docs[..k], pieces[..k])| == Offset(pieces, k)
    ensures Records(docs[..k], pieces[..k]) <= Records(docs, pieces)
    decreases |docs| - k
  {
    if k < |docs| {
      RecordsPrefix(docs, pieces, k + 1);
      assert docs[..k + 1][..k] == docs[..k] && pieces[..k + 1][..k] == pieces[..k];
      assert |Records(docs[..k + 1], pieces[..k + 1])| == Offset(pieces, k + 1);
    } else {
      assert docs[..k] == docs && pieces[..k] == pieces;
      RecordsLength(docs, pieces);
    }
  }

  lemma {:induction false} RecordsLength(docs: seq<Document>, pieces: seq<seq<string>>)
    requires |pieces| == |docs|
    ensures |Records(docs, pieces)| == Offset(pieces, |pieces|)
    decreases |docs|
  {
    if docs != [] {
      var last := |docs| - 1;
      RecordsLength(docs[..last], pieces[..last]);
      OffsetPrefix(pieces, last, last);
    }
  }

  /** Offsets computed on a prefix of the pieces agree with those on all of them. */
  lemma {:induction false} OffsetPrefix(pieces: seq<seq<string>>, n: nat, k: nat)
    requires k <= n <= |pieces|
    ensures Offset(pieces[..n], k) == Offset(pieces, k)
    decreases k
  {
    if k > 0 {
      OffsetPrefix(pieces, n, k - 1);
      assert pieces[..n][k - 1] == pieces[k - 1];
    }
  }

  /** Piece `i` of document `k` is record number `Offset(k) + i`. */
  lemma RecordAt(docs: seq<Document>, pieces: seq<seq<string>>, k: nat, i: nat)
    requires |pieces| == |docs| && k < |docs| && i < |pieces[k]|
    ensures var all := Records(docs, pieces);
      Offset(pieces, k) + i < |all| &&
      all[Offset(pieces, k) + i] == Chunk(k, i, pieces[k][i], MetadataOf(docs[k]))
  {
    RecordsPrefix(docs, pieces, k + 1);
    RecordsPrefix(docs, pieces, k);
    assert docs[..k + 1][..k] == docs[..k] && pieces[..k + 1][..k] == pieces[..k];
  }

  /** Every record comes from a piece, at position `Offset(documentId) + chunkIndex`. */
  lemma {:induction false} RecordSource(docs: seq<Document>, pieces: seq<seq<string>>, p: nat)
    requires |pieces| == |docs| && p < |Records(docs, pieces)|
    ensures var c := Records(docs, pieces)[p];
      c.documentId < |docs| && c.chunkIndex < |pieces[c.documentId]| &&
      p == Offset(pieces, c.documentId) + c.chunkIndex &&
      c == Chunk(c.documentId, c.chunkIndex, pieces[c.documentId][c.chunkIndex], MetadataOf(docs[c.documentId]))
    decreases |docs|
  {
    var last := |docs| - 1;
    var front := Records(docs[..last], pieces[..last]);
    RecordsLength(docs[..last], pieces[..last]);
    OffsetPrefix(pieces, last, last);
    if p < |front| {
      RecordSource(docs[..last], pieces[..last], p);
      OffsetPrefix(pieces, last, front[p].documentId);
    }
  }

  /**
   * Layout of the records: there are as many as the splitter gave pieces in
   * all, and piece `i` of document `k` sits at position `Offset(k) + i` with
   * document id `k`, chunk index `i`, the piece as content and the
   * document's metadata. So each document's records are contiguous, in
   * splitter order and numbered from 0, and documents keep their order.
   */
  lemma ChunkAt(docs: seq<Document>, k: nat, i: nat, split: Splitter, size: nat, overlap: nat)
    requires k < |docs| && i < |Pieces(docs[k], split, size, overlap)|
    ensures var ps, all := PiecesOf(docs, split, size, overlap), ChunkRecords(docs, split, size, overlap);
      |all| == Offset(ps, |docs|) &&
      Offset(ps, k) + i < |all| &&
      all[Offset(ps, k) + i] == Chunk(k, i, Pieces(docs[k], split, size, overlap)[i], MetadataOf(docs[k]))
  {
    var ps := PiecesOf(docs, split, size, overlap);
    RecordsLength(docs, ps);
    RecordAt(docs, ps, k, i);
  }

  /**
   * Every record comes from a piece: record `p` belongs to document
   * `documentId`, is its piece number `chunkIndex`, sits at
   * `Offset(documentId) + chunkIndex`, and carries that document's metadata.
   */
  lemma ChunkSource(docs: seq<Document>, p: nat, split: Splitter, size: nat, overlap: nat)
    requires p < |ChunkRecords(docs, split, size, overlap)|
    ensures var ps, c := PiecesOf(docs, split, size, overlap), ChunkRecords(docs, split, size, overlap)[p];
      c.documentId < |docs| &&
      c.chunkIndex < |Pieces(docs[c.documentId], split, size, overlap)| &&
      p == Offset(ps, c.documentId) + c.chunkIndex &&
      c.content == Pieces(docs[c.documentId], split, size, overlap)[c.chunkIndex] &&
      c.metadata == MetadataOf(docs[c.documentId])
  {
    RecordSource(docs, PiecesOf(docs, split, size, overlap), p);
  }

  /** The pair (document id, chunk index) identifies a record. */
  lemma ChunkKeysDistinct(docs: seq<Document>, p: nat, q: nat, split: Splitter, size: nat, overlap: nat)
    requires p < q < |ChunkRecords(docs, split, size, overlap)|
    ensures var all := ChunkRecords(docs, split, size, overlap);
      (all[p].documentId, all[p].chunkIndex) != (all[q].documentId, all[q].chunkIndex)
  {
    ChunkSource(docs, p, split, size, overlap);
    ChunkSource(docs, q, split, size, overlap);
  }

  lemma {:induction false} RecordsEmpty(docs: seq<Document>, pieces: seq<seq<string>>)
    requires |pieces| == |docs|
    ensures Records(docs, pieces) == [] <==> forall k :: 0 <= k < |docs| ==> pieces[k] == []
    decreases |docs|
  {
    if docs != [] {
      var last := |docs| - 1;
      RecordsEmpty(docs[..last], pieces[..last]);
      assert forall k :: 0 <= k < last ==> pieces[..last][k] == pieces[k];
    }
  }

  /** There are no records exactly when the splitter gives no piece for any document. */
  lemma ChunkRecordsEmpty(docs: seq<Document>, split: Splitter, size: nat, overlap: nat)
    ensures ChunkRecords(docs, split, size, overlap) == [] <==>
      forall k :: 0 <= k < |docs| ==> Pieces(docs[k], split, size, overlap) == []
  {
    var ps := PiecesOf(docs, split, size, overlap);
    RecordsEmpty(docs, ps);
    assert forall k :: 0 <= k < |docs| ==> ps[k] == Pieces(docs[k], split, size, overlap);
  }
}
