/** The exact layout of the document context that `rag_search_tool`
    returns (`backend/src/tools.py`): where each numbered block and each
    separator sits, and how long the whole text is. */
module ContextLayout {
  import opened Text
  import opened Tools

  /** Where each block sits in the context: block `k`, the label
      `Chunk k+1` followed by the k-th kept text, starts right after the
      header and every earlier block with its separator. */
  lemma {:induction false} FormatContextBlockAt(unique: seq<string>, k: nat)
    requires k < |unique|
    ensures OccursAt(ChunkLabel(k + 1) + unique[k], FormatContext(unique),
                     |CONTEXT_HEADER| + JoinOffset(Blocks(unique), |BLOCK_SEPARATOR|, k))
  {
    FormatContextBlock(unique, k);
    BlockAt(unique, k);
  }

  /** The lengths add up: header, blocks with one separator between
      neighbours, and the tail. */
  lemma {:induction false} FormatContextLength(unique: seq<string>)
    requires |unique| > 0
    ensures |FormatContext(unique)|
            == |CONTEXT_HEADER| + JoinOffset(Blocks(unique), |BLOCK_SEPARATOR|, |unique|)
               - |BLOCK_SEPARATOR| + |CONTEXT_TAIL|
  {
    FormatContextShape(unique);
    JoinLength(Blocks(unique), BLOCK_SEPARATOR);
  }

  lemma {:induction false} FormatContextBlock(unique: seq<string>, k: nat)
    requires k < |unique|
    ensures var bs := Blocks(unique);
            OccursAt(bs[k], FormatContext(unique), |CONTEXT_HEADER| + JoinOffset(bs, |BLOCK_SEPARATOR|, k))
  {
    FormatContextShape(unique);
    ContextBlock(unique, k);
  }

  /** A blank-line separator follows every block but the last; after the
      last one the tail (`FormatContext`'s contract) begins. Together with
      `FormatContextBlockAt` and `FormatContextLength` this leaves no
      character of the context unaccounted for. */
  lemma {:induction false} FormatContextSeparator(unique: seq<string>, k: nat)
    requires k + 1 < |unique|
    ensures var bs := Blocks(unique);
            OccursAt(BLOCK_SEPARATOR, FormatContext(unique),
                     |CONTEXT_HEADER| + JoinOffset(bs, |BLOCK_SEPARATOR|, k) + |bs[k]|)
  {
    FormatContextShape(unique);
    ContextSeparator(unique, k);
  }

  lemma {:induction false} ContextBlock(unique: seq<string>, k: nat)
    requires k < |unique|
    ensures var bs := Blocks(unique);
            OccursAt(bs[k], CONTEXT_HEADER + Join(bs, BLOCK_SEPARATOR) + CONTEXT_TAIL,
                     |CONTEXT_HEADER| + JoinOffset(bs, |BLOCK_SEPARATOR|, k))
  {
    WrappedJoinPieceAt(CONTEXT_HEADER, Blocks(unique), BLOCK_SEPARATOR, CONTEXT_TAIL, k);
  }

  lemma {:induction false} ContextSeparator(unique: seq<string>, k: nat)
    requires k + 1 < |unique|
    ensures var bs := Blocks(unique);
            OccursAt(BLOCK_SEPARATOR, CONTEXT_HEADER + Join(bs, BLOCK_SEPARATOR) + CONTEXT_TAIL,
                     |CONTEXT_HEADER| + JoinOffset(bs, |BLOCK_SEPARATOR|, k) + |bs[k]|)
  {
    WrappedJoinSeparatorAt(CONTEXT_HEADER, Blocks(unique), BLOCK_SEPARATOR, CONTEXT_TAIL, k);
  }

  lemma {:induction false} FormatContextShape(unique: seq<string>)
    requires |unique| > 0
    ensures FormatContext(unique) == CONTEXT_HEADER + Join(Blocks(unique), BLOCK_SEPARATOR) + CONTEXT_TAIL
  {
  }

  lemma {:induction false} BlockAt(unique: seq<string>, k: nat)
    requires k < |unique|
    ensures Blocks(unique)[k] == ChunkLabel(k + 1) + unique[k]
  {
  }
}
