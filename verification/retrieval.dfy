/**
 * Query preparation (`process_query`) and the passage filter of
 * `search_vector`. The similarity search itself is done by the vector store;
 * its ranked results arrive here as two parallel lists.
 */
module Retrieval {
  import opened Sequences
  import opened Text
  import opened Outcomes
  import opened Chunking
  import opened VectorStore

  /** A retrieved chunk: its text and its metadata. */
  datatype Passage = Passage(content: string, metadata: Metadata)

  /** The store's answer to one query: texts and metadata, ranked, position by position. */
  datatype QueryResult = QueryResult(documents: seq<string>, metadatas: seq<Metadata>)

  const MinPassageLength: nat := 20

  /** A passage survives the filter when its stripped text is longer than the threshold. */
  predicate LongEnough(p: Passage) {
    |Strip(p.content)| > MinPassageLength
  }

  /** `zip(documents, metadatas)`: pairs up to the shorter list's length. */
  function Zip(documents: seq<string>, metadatas: seq<Metadata>): (r: seq<Passage>)
    ensures |r| == if |documents| <= |metadatas| then |documents| else |metadatas|
  {
    var n := if |documents| <= |metadatas| then |documents| else |metadatas|;
    seq(n, i requires 0 <= i < n => Passage(documents[i], metadatas[i]))
  }

  /** The filter part of `search_vector`. */
  function SearchVector(results: QueryResult): seq<Passage> {
    Filter(LongEnough, Zip(results.documents, results.metadatas))
  }

  /**
   * The filter keeps exactly the results whose stripped text is longer than
   * 20 characters, in store order, each text with the metadata at the same
   * position: result `j` is the pair at position `ks[j]`, the positions `ks`
   * increase, and a position is among them exactly when its text is long
   * enough.
   */
  lemma SearchVectorKeeps(results: QueryResult)
    ensures |SearchVector(results)| ==
            |KeptPositions(LongEnough, Zip(results.documents, results.metadatas))|
    ensures forall j :: 0 <= j < |SearchVector(results)| ==>
      var k := KeptPositions(LongEnough, Zip(results.documents, results.metadatas))[j];
      k < |results.documents| && k < |results.metadatas| &&
      SearchVector(results)[j] == Passage(results.documents[k], results.metadatas[k])
    ensures forall j, j' :: 0 <= j < j' < |SearchVector(results)| ==>
      KeptPositions(LongEnough, Zip(results.documents, results.metadatas))[j] <
      KeptPositions(LongEnough, Zip(results.documents, results.metadatas))[j']
    ensures forall i :: 0 <= i < |results.documents| && i < |results.metadatas| ==>
      (|Strip(results.documents[i])| > MinPassageLength <==>
       i in KeptPositions(LongEnough, Zip(results.documents, results.metadatas)))
  {
    var z := Zip(results.documents, results.metadatas);
    FilterPositions(LongEnough, z);
    forall i | 0 <= i < |results.documents| && i < |results.metadatas|
      ensures |Strip(results.documents[i])| > MinPassageLength <==> i in KeptPositions(LongEnough, z)
    {
      assert z[i] == Passage(results.documents[i], results.metadatas[i]);
    }
  }

  /** Every passage the filter returns is long enough. */
  lemma SearchVectorLong(results: QueryResult)
    ensures forall j :: 0 <= j < |SearchVector(results)| ==>
      |Strip(SearchVector(results)[j].content)| > MinPassageLength
  {
  }

  /** `str.lower()` on ASCII letters. */
  function LowerAscii(s: string): (r: string)
    ensures |r| == |s|
    ensures forall i :: 0 <= i < |s| && 'A' <= s[i] <= 'Z' ==>
      'a' <= r[i] <= 'z' && r[i] as int == s[i] as int + 32
    ensures forall i :: 0 <= i < |s| && !('A' <= s[i] <= 'Z') ==> r[i] == s[i]
  {
    seq(|s|, i requires 0 <= i < |s| =>
      if 'A' <= s[i] <= 'Z' then ((s[i] as int) - ('A' as int) + ('a' as int)) as char else s[i])
  }

  /** The query text that gets embedded: lower-cased, then stripped. */
  function CleanQuery(query: string): string {
    Strip(LowerAscii(query))
  }

  /** `process_query`: the embedding of the cleaned query, or the embedding model's exception. */
  function ProcessQuery<E>(query: string, encode: Encoder<E>): Outcome<E> {
    encode(CleanQuery(query))
  }

  /**
   * The cleaned query is the lower-cased query with exactly its leading and
   * trailing whitespace removed: a slice of it, with only whitespace outside
   * the slice and none at either end of it; and it has no upper-case ASCII
   * letter.
   */
  lemma CleanQueryShape(query: string)
    ensures exists i: nat, j: nat :: TrimmedSlice(CleanQuery(query), LowerAscii(query), i, j)
    ensures forall i :: 0 <= i < |CleanQuery(query)| ==> !('A' <= CleanQuery(query)[i] <= 'Z')
    ensures CleanQuery(query) == [] ||
      (!IsSpace(CleanQuery(query)[0]) && !IsSpace(CleanQuery(query)[|CleanQuery(query)| - 1]))
  {
    var l := LowerAscii(query);
    var t := TrimStart(l);
    StripSlice(l);
    TrimStartSpec(l);
    TrimEndSpec(t);
    var r := CleanQuery(query);
    forall k | 0 <= k < |r| ensures !('A' <= r[k] <= 'Z') {
      assert r[k] == t[k] == l[|l| - |t| + k];
    }
  }

  /** Cleaning a cleaned query changes nothing. */
  lemma CleanQueryIdempotent(query: string)
    ensures CleanQuery(CleanQuery(query)) == CleanQuery(query)
  {
    var r := CleanQuery(query);
    CleanQueryShape(query);
    assert LowerAscii(r) == r;
    assert TrimStart(r) == r;
    assert TrimEnd(r) == r;
  }

  /** Lower-casing distributes over concatenation and leaves whitespace alone. */
  lemma LowerAsciiAppend(a: string, b: string)
    ensures LowerAscii(a + b) == LowerAscii(a) + LowerAscii(b)
    ensures (forall i :: 0 <= i < |a| ==> IsSpace(a[i])) ==> LowerAscii(a) == a
  {
    var l, r := LowerAscii(a + b), LowerAscii(a) + LowerAscii(b);
    forall i | 0 <= i < |l| ensures l[i] == r[i] {
      if i < |a| { assert (a + b)[i] == a[i]; } else { assert (a + b)[i] == b[i - |a|]; }
    }
  }

  /**
   * `process_query` is insensitive to ASCII case and to whitespace around
   * the question: padding the query or lower-casing it, or passing it
   * already cleaned, gives the same embedding (or the same exception).
   */
  lemma ProcessQueryNormalised<E>(query: string, w: string, w': string, encode: Encoder<E>)
    requires forall i :: 0 <= i < |w| ==> IsSpace(w[i])
    requires forall i :: 0 <= i < |w'| ==> IsSpace(w'[i])
    ensures ProcessQuery(w + query + w', encode) == ProcessQuery(query, encode)
    ensures ProcessQuery(LowerAscii(query), encode) == ProcessQuery(query, encode)
    ensures ProcessQuery(CleanQuery(query), encode) == ProcessQuery(query, encode)
  {
    LowerAsciiAppend(w + query, w');
    LowerAsciiAppend(w, query);
    LowerAsciiAppend(w', []);
    StripPadding(w, LowerAscii(query), w');
    var l := LowerAscii(query);
    assert LowerAscii(l) == l;
    CleanQueryIdempotent(query);
  }
}
