/** The embedding adapter: every raw embedding that the provider returns is
    truncated or zero-padded to the dimension of the vector index. */
module Embedding {

  /** An embedding vector; its components are never computed on here. */
  type Vector = seq<real>

  /** The default target size of resize_embedding: the index dimension. */
  const IndexDimension: nat := 1024

  /** n zero components. */
  function Zeros(n: nat): (z: Vector)
    ensures |z| == n
    ensures forall k :: 0 <= k < n ==> z[k] == 0.0
  {
    seq(n, _ => 0.0)
  }

  /** resize_embedding: keep the input when it already has the target size,
      keep its first targetSize components when it is longer, and pad it
      with zeros when it is shorter. Pointwise, component k of the result is
      component k of the input where that exists and 0.0 otherwise. */
  function Resize(embedding: Vector, targetSize: nat): (r: Vector)
    ensures |r| == targetSize
    ensures forall k :: 0 <= k < |embedding| && k < targetSize ==> r[k] == embedding[k]
    ensures forall k :: |embedding| <= k < targetSize ==> r[k] == 0.0
  {
    if |embedding| == targetSize then
      embedding
    else if |embedding| > targetSize then
      embedding[..targetSize]
    else
      embedding + Zeros(targetSize - |embedding|)
  }

  /** A vector of the target size passes through unchanged. */
  lemma ResizeUnchanged(embedding: Vector, targetSize: nat)
    requires |embedding| == targetSize
    ensures Resize(embedding, targetSize) == embedding
  {
  }

  /** A longer vector is cut to exactly its first targetSize components. */
  lemma ResizeTruncates(embedding: Vector, targetSize: nat)
    requires |embedding| > targetSize
    ensures Resize(embedding, targetSize) == embedding[..targetSize]
  {
  }

  /** A shorter vector is kept as a prefix and followed by zeros only. */
  lemma ResizePads(embedding: Vector, targetSize: nat)
    requires |embedding| < targetSize
    ensures Resize(embedding, targetSize) == embedding + Zeros(targetSize - |embedding|)
  {
    var r := Resize(embedding, targetSize);
    var p := embedding + Zeros(targetSize - |embedding|);
    assert |r| == |p|;
    forall k | 0 <= k < |r| ensures r[k] == p[k] {
      if k >= |embedding| {
        assert p[k] == Zeros(targetSize - |embedding|)[k - |embedding|];
      }
    }
  }

  /** Resizing twice to the same size is resizing once. */
  lemma ResizeIdempotent(embedding: Vector, targetSize: nat)
    ensures Resize(Resize(embedding, targetSize), targetSize) == Resize(embedding, targetSize)
  {
  }

  /** Resizing to a size and back to the original length gives the original
      vector back exactly when nothing but zeros was cut off. */
  lemma ResizeRestoresIff(embedding: Vector, targetSize: nat)
    ensures Resize(Resize(embedding, targetSize), |embedding|) == embedding
        <==> forall k :: targetSize <= k < |embedding| ==> embedding[k] == 0.0
  {
    var back := Resize(Resize(embedding, targetSize), |embedding|);
    if forall k :: targetSize <= k < |embedding| ==> embedding[k] == 0.0 {
      forall k | 0 <= k < |embedding| ensures back[k] == embedding[k] {
      }
    } else {
      var k :| targetSize <= k < |embedding| && embedding[k] != 0.0;
      assert back[k] == 0.0;
    }
  }

  /** ResizedOpenAIEmbeddings.embed_documents: the provider's embeddings of
      the texts, each resized to the index dimension, one per embedding and
      in the same order. */
  function EmbedDocuments(provider: seq<string> -> seq<Vector>, texts: seq<string>): (r: seq<Vector>)
    ensures |r| == |provider(texts)|
    ensures forall i :: 0 <= i < |r| ==> |r[i]| == IndexDimension
    ensures forall i, k :: 0 <= i < |r| && 0 <= k < IndexDimension ==>
              r[i][k] == if k < |provider(texts)[i]| then provider(texts)[i][k] else 0.0
  {
    var raw := provider(texts);
    seq(|raw|, i requires 0 <= i < |raw| => Resize(raw[i], IndexDimension))
  }

  /** ResizedOpenAIEmbeddings.embed_query: the provider's embedding of the
      text, resized to the index dimension. */
  function EmbedQuery(provider: string -> Vector, text: string): (r: Vector)
    ensures |r| == IndexDimension
    ensures forall k :: 0 <= k < IndexDimension ==>
              r[k] == if k < |provider(text)| then provider(text)[k] else 0.0
  {
    Resize(provider(text), IndexDimension)
  }

  /** The batch and the single-text paths agree: when the provider embeds a
      one-text batch as it embeds that text alone, embed_documents of that
      batch is the one vector that embed_query gives. */
  lemma EmbedPathsAgree(batch: seq<string> -> seq<Vector>, single: string -> Vector, text: string)
    requires batch([text]) == [single(text)]
    ensures EmbedDocuments(batch, [text]) == [EmbedQuery(single, text)]
  {
  }
}
