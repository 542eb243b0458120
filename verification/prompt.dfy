/**
 * The prompt assembler `augment_context`: a fixed refusal text when nothing
 * was retrieved, otherwise one "Source i" block per distinct stripped
 * passage, joined by blank lines and wrapped in the grounding instructions.
 */
module Prompt {
  import opened Numerals
  import opened Text
  import opened Retrieval

  /** One context block: its 1-based number and what it shows of a passage. */
  datatype SourceBlock = SourceBlock(number: nat, company: string, docType: string, content: string)

  /** The text returned when no passage was retrieved. */
  function RefusalText(query: string): string {
    "No relevant information found in the documents.\n\n" +
    "Question: " + query + "\n\n" +
    "Answer: I don't know based on the provided documents."
  }

  /** The fixed instructions that open every grounded prompt. */
  const Instructions: string :=
    "\nYou are a financial research assistant.\n\n" +
    "RULES:\n" +
    "- Use the information in the context below to answer as best you can\n" +
    "- If the answer is not present, say \"I don't know based on the provided documents\"\n" +
    "- Do NOT use outside knowledge to answer\n" +
    "- Be concise and factual\n" +
    "- Keep it simple and straightforward\n" +
    "- If you find an answer, do not repeat it more than once, just give the answer directly\n" +
    "- If you see an out of context answer, provide full context in your answer to justify it\n\n"

  /** The grounded prompt around a context section and the question. */
  function PromptText(context: string, query: string): string {
    Instructions + "CONTEXT:\n" + context + "\n\nQUESTION:\n" + query + "\n\nANSWER:\n"
  }

  /** The text of one block. */
  function Render(b: SourceBlock): string {
    "Source " + NatToString(b.number) + ":\n" +
    "Company: " + b.company + "\n" +
    "Document Type: " + b.docType + "\n" +
    "Content:\n" + b.content
  }

  function RenderAll(bs: seq<SourceBlock>): (r: seq<string>)
    ensures |r| == |bs|
  {
    seq(|bs|, i requires 0 <= i < |bs| => Render(bs[i]))
  }

  /** `"\n\n".join(blocks)`. */
  function JoinBlocks(blocks: seq<string>): string
    decreases |blocks|
  {
    if |blocks| == 0 then ""
    else if |blocks| == 1 then blocks[0]
    else blocks[0] + "\n\n" + JoinBlocks(blocks[1..])
  }

  /** The block for the passage at 1-based position `number`. */
  function BlockOf(number: nat, p: Passage): SourceBlock {
    SourceBlock(number, p.metadata.company, p.metadata.docType, Strip(p.content))
  }

  /** The stripped texts of the passages. */
  function StrippedContents(rs: seq<Passage>): set<string> {
    set i | 0 <= i < |rs| :: Strip(rs[i].content)
  }

  /** The blocks kept: a passage yields one unless its stripped text was already seen. */
  function Sources(rs: seq<Passage>): seq<SourceBlock>
    decreases |rs|
  {
    if rs == [] then []
    else
      var n := |rs| - 1;
      if Strip(rs[n].content) in StrippedContents(rs[..n]) then Sources(rs[..n])
      else Sources(rs[..n]) + [BlockOf(|rs|, rs[n])]
  }

  /** The prompt `augment_context` returns. */
  function AugmentedPrompt(query: string, rs: seq<Passage>): string {
    if rs == [] then RefusalText(query)
    else PromptText(JoinBlocks(RenderAll(Sources(rs))), query)
  }

  /** Some block carries this number. */
  predicate Labelled(bs: seq<SourceBlock>, number: nat) {
    exists j :: 0 <= j < |bs| && bs[j].number == number
  }

  lemma StrippedContentsSnoc(rs: seq<Passage>)
    requires rs != []
    ensures StrippedContents(rs) == StrippedContents(rs[..|rs| - 1]) + {Strip(rs[|rs| - 1].content)}
  {
    var n := |rs| - 1;
    forall x | x in StrippedContents(rs)
      ensures x in StrippedContents(rs[..n]) + {Strip(rs[n].content)}
    {
      var i :| 0 <= i < |rs| && x == Strip(rs[i].content);
      if i < n {
        assert rs[..n][i] == rs[i];
      }
    }
    forall x | x in StrippedContents(rs[..n]) ensures x in StrippedContents(rs) {
      var i :| 0 <= i < n && x == Strip(rs[..n][i].content);
      assert rs[..n][i] == rs[i];
    }
  }

  /** `augment_context`: the loop that skips seen passages and collects blocks. */
  method AugmentContext(query: string, searchResults: seq<Passage>) returns (prompt: string)
    ensures prompt == AugmentedPrompt(query, searchResults)
  {
    if |searchResults| == 0 {
      return RefusalText(query);
    }
    var contextBlocks: seq<string> := [];
    var seenContents: set<string> := {};
    var i := 0;
    while i < |searchResults|
      invariant 0 <= i <= |searchResults|
      invariant contextBlocks == RenderAll(Sources(searchResults[..i]))
      invariant seenContents == StrippedContents(searchResults[..i])
    {
      var result := searchResults[i];
      var content := Strip(result.content);
      assert searchResults[..i + 1][..i] == searchResults[..i];
      StrippedContentsSnoc(searchResults[..i + 1]);
      if content !in seenContents {
        seenContents := seenContents + {content};
        contextBlocks := contextBlocks +
          [Render(SourceBlock(i + 1, result.metadata.company, result.metadata.docType, content))];
      }
      i := i + 1;
    }
    assert searchResults[..i] == searchResults;
    var context := JoinBlocks(contextBlocks);
    prompt := PromptText(context, query);
  }

  /**
   * Every block is labelled with a position of the input (1-based), shows
   * the stripped text, company and document type of the passage there, and
   * labels increase from block to block.
   */
  lemma {:induction false} SourcesLabels(rs: seq<Passage>)
    ensures forall j :: 0 <= j < |Sources(rs)| ==>
      1 <= Sources(rs)[j].number <= |rs| &&
      Sources(rs)[j] == BlockOf(Sources(rs)[j].number, rs[Sources(rs)[j].number - 1])
    ensures forall j, j' :: 0 <= j < j' < |Sources(rs)| ==> Sources(rs)[j].number < Sources(rs)[j'].number
    decreases |rs|
  {
    if rs != [] {
      var n := |rs| - 1;
      var prev := rs[..n];
      SourcesLabels(prev);
      var s, sp := Sources(rs), Sources(prev);
      assert forall j :: 0 <= j < |sp| ==> s[j] == sp[j];
      assert forall j :: 0 <= j < |sp| ==> rs[sp[j].number - 1] == prev[sp[j].number - 1];
    }
  }

  /**
   * The passage at position `i` yields a block (labelled `i + 1`) exactly
   * when its stripped text does not occur earlier in the input: first
   * occurrences are kept and labels count every passage, skipped ones too.
   */
  lemma {:induction false} SourcesFirstOccurrence(rs: seq<Passage>, i: nat)
    requires i < |rs|
    ensures Labelled(Sources(rs), i + 1) <==> Strip(rs[i].content) !in StrippedContents(rs[..i])
    decreases |rs|
  {
    var n := |rs| - 1;
    var prev := rs[..n];
    var s, sp := Sources(rs), Sources(prev);
    SourcesLabels(prev);
    assert forall j :: 0 <= j < |sp| ==> s[j] == sp[j];
    if i < n {
      SourcesFirstOccurrence(prev, i);
      assert prev[..i] == rs[..i] && prev[i] == rs[i];
      if Labelled(s, i + 1) {
        var j :| 0 <= j < |s| && s[j].number == i + 1;
        assert j < |sp|;
      }
    } else {
      assert !Labelled(sp, i + 1);
      if Strip(rs[n].content) !in StrippedContents(prev) {
        assert s[|sp|].number == n + 1;
      }
    }
  }

  /**
   * Blocks show pairwise different texts, and there is one block per
   * distinct stripped text of the input.
   */
  lemma {:induction false} SourcesDistinct(rs: seq<Passage>)
    ensures forall j, j' :: 0 <= j < j' < |Sources(rs)| ==> Sources(rs)[j].content != Sources(rs)[j'].content
    ensures |Sources(rs)| == |StrippedContents(rs)|
    decreases |rs|
  {
    if rs != [] {
      var n := |rs| - 1;
      var prev := rs[..n];
      SourcesDistinct(prev);
      SourcesLabels(prev);
      StrippedContentsSnoc(rs);
      var c := Strip(rs[n].content);
      var s, sp := Sources(rs), Sources(prev);
      if c !in StrippedContents(prev) {
        forall j | 0 <= j < |sp| ensures sp[j].content != c {
          assert sp[j].content == Strip(prev[sp[j].number - 1].content);
          assert sp[j].content in StrippedContents(prev);
        }
        assert s == sp + [BlockOf(|rs|, rs[n])];
      }
    }
  }

  /** Of two passages with the same stripped text, the later one yields no block. */
  lemma Deduplicated(rs: seq<Passage>, i: nat, j: nat)
    requires i < j < |rs| && Strip(rs[i].content) == Strip(rs[j].content)
    ensures !Labelled(Sources(rs), j + 1)
  {
    assert rs[..j][i] == rs[i];
    assert Strip(rs[j].content) in StrippedContents(rs[..j]);
    SourcesFirstOccurrence(rs, j);
  }

  /** A skipped duplicate leaves a gap in the numbering: [p, p, q] gives Source 1 and Source 3. */
  lemma LabelGap(p: Passage, q: Passage)
    requires Strip(p.content) != Strip(q.content)
    ensures Sources([p, p, q]) == [BlockOf(1, p), BlockOf(3, q)]
  {
    var rs := [p, p, q];
    assert rs[..2] == [p, p] && [p, p][..1] == [p] && [p][..0] == [];
    assert StrippedContents([]) == {};
    StrippedContentsSnoc([p]);
    assert StrippedContents([p]) == {Strip(p.content)};
    assert Sources([p]) == [BlockOf(1, p)];
    assert Sources([p, p]) == [BlockOf(1, p)];
    StrippedContentsSnoc([p, p]);
  }
}
