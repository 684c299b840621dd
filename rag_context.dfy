/** Contextualising chunks before indexing: each chunk is passed, with a
    context made of the document's first chunks and the chunks just before
    it, to a function that writes the situating text. */
module RagContext {
  import opened Values
  import opened Text

  const NumStartChunks := 2
  const NumPrevChunks := 2

  /** The context parts for chunk `i`: the leading chunks, then the window
      of chunks before `i`. */
  function ContextParts(chunks: seq<string>, i: nat): seq<string>
    requires i < |chunks|
  {
    chunks[..Min(NumStartChunks, |chunks|)] + chunks[Max(0, i - NumPrevChunks)..i]
  }

  /** The loop: one contextualised chunk per chunk, in order; `addContext`
      stands for the language-model call. */
  method Contextualize(chunks: seq<string>, addContext: (string, string) -> string) returns (out: seq<string>)
    ensures |out| == |chunks|
    ensures forall i :: 0 <= i < |chunks| ==> out[i] == addContext(chunks[i], Join(ContextParts(chunks, i), "\n"))
  {
    out := [];
    for i := 0 to |chunks|
      invariant |out| == i
      invariant forall k :: 0 <= k < i ==> out[k] == addContext(chunks[k], Join(ContextParts(chunks, k), "\n"))
    {
      var contextParts: seq<string> := [];
      contextParts := contextParts + chunks[..Min(NumStartChunks, |chunks|)];
      var startIdx := Max(0, i - NumPrevChunks);
      contextParts := contextParts + chunks[startIdx..i];
      assert contextParts == ContextParts(chunks, i);
      var context := Join(contextParts, "\n");
      out := out + [addContext(chunks[i], context)];
    }
  }

  /** There are `min(2, n) + min(i, 2)` parts; the window holds the
      chunks just before `i` and never chunk `i` itself. */
  lemma PartsShape(chunks: seq<string>, i: nat)
    requires i < |chunks|
    ensures var parts := ContextParts(chunks, i);
      var lead := Min(NumStartChunks, |chunks|);
      && |parts| == lead + Min(i, NumPrevChunks)
      && parts[..lead] == chunks[..lead]
      && forall k :: lead <= k < |parts| ==> parts[k] == chunks[i - Min(i, NumPrevChunks) + (k - lead)]
  {
  }

  /** With at least two chunks the leading part always holds chunks 0 and 1,
      so for chunk 2 both appear twice. */
  lemma EarlyChunksRepeat(chunks: seq<string>)
    requires |chunks| >= 3
    ensures ContextParts(chunks, 0) == [chunks[0], chunks[1]]
    ensures ContextParts(chunks, 2) == [chunks[0], chunks[1], chunks[0], chunks[1]]
  {
    assert chunks[..2] == [chunks[0], chunks[1]];
    assert chunks[0..2] == [chunks[0], chunks[1]];
  }
}
