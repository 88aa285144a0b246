/**
 * The curated-transformers RoBERTa encoder and its quantized twin: the default attention
 * mask, the layer stack built from the configuration, and the forward pass. The
 * embeddings and the (possibly quantized) BERT encoder layers are opaque functions over
 * the hidden-state type H.
 */
module RobertaModel {
  import opened Results
  import opened EncoderCommon

  /** The configuration fields the encoder reads. */
  datatype RobertaConfig = RobertaConfig(paddingIdx: int, numHiddenLayers: nat, modelMaxLength: nat)

  /** Which layer class the stack is built from. */
  datatype LayerKind = BertEncoderLayer | QuantizedBertEncoderLayer

  /** The encoder's output: the embedding output and one hidden state per layer. */
  datatype TransformerEncoderOutput<H> = TransformerEncoderOutput(embeddingOutput: H, layerHiddenStates: seq<H>)

  /**
   * `RobertaEncoder` (`layerKind == BertEncoderLayer`) or `QuantizedRobertaEncoder`
   * (`layerKind == QuantizedBertEncoderLayer`); `embeddings` maps the input ids and the
   * optional token-type ids to the embedding output.
   */
  datatype RobertaEncoder<!H> = RobertaEncoder(
    paddingIdx: int,
    maxSeqLen: nat,
    layerKind: LayerKind,
    embeddings: (Ids, Option<Ids>) -> H,
    layers: seq<Layer<H>>)
  {
    /**
     * `forward`: the mask defaults to the one derived from padding, the embedding output
     * is computed once and every layer's hidden state is collected in order.
     */
    method Forward(inputIds: Ids, attentionMask: Option<Mask>, tokenTypeIds: Option<Ids>) returns (output: TransformerEncoderOutput<H>)
      ensures output.embeddingOutput == embeddings(inputIds, tokenTypeIds)
      ensures output.layerHiddenStates == LayerOutputs(layers, output.embeddingOutput, EffectiveMask(attentionMask, inputIds, paddingIdx))
      ensures |output.layerHiddenStates| == |layers|
    {
      var mask := if attentionMask.None? then CreateAttentionMask(inputIds, paddingIdx) else attentionMask.value;
      var embeddingOutput := embeddings(inputIds, tokenTypeIds);
      var layerOutputs := RunLayers(layers, embeddingOutput, mask);
      output := TransformerEncoderOutput(embeddingOutput, layerOutputs);
    }
  }

  /**
   * `RobertaEncoder.__init__` and `QuantizedRobertaEncoder.__init__`: the padding id and
   * maximum length from the configuration and `num_hidden_layers` layers of the given kind.
   */
  function NewRobertaEncoder<H>(config: RobertaConfig, quantized: bool, embeddings: (Ids, Option<Ids>) -> H,
                                makeLayer: (LayerKind, nat) -> Layer<H>): (encoder: RobertaEncoder<H>)
    ensures encoder.paddingIdx == config.paddingIdx && encoder.maxSeqLen == config.modelMaxLength
    ensures encoder.layerKind == if quantized then QuantizedBertEncoderLayer else BertEncoderLayer
    ensures |encoder.layers| == config.numHiddenLayers
    ensures forall k :: 0 <= k < config.numHiddenLayers ==> encoder.layers[k] == makeLayer(encoder.layerKind, k)
  {
    var kind := if quantized then QuantizedBertEncoderLayer else BertEncoderLayer;
    RobertaEncoder(config.paddingIdx, config.modelMaxLength, kind, embeddings,
                   seq(config.numHiddenLayers, k requires 0 <= k < config.numHiddenLayers => makeLayer(kind, k)))
  }

  /**
   * `QuantizedRobertaEncoder.__init__` builds the same encoder as `RobertaEncoder.__init__`
   * except for its layers: the padding id, the maximum length, the embeddings and the
   * number of layers agree, and layer k of each stack is layer k of its own kind.
   */
  lemma QuantizedDiffersOnlyInLayers<H>(config: RobertaConfig, embeddings: (Ids, Option<Ids>) -> H,
                                        makeLayer: (LayerKind, nat) -> Layer<H>)
    ensures var plain := NewRobertaEncoder(config, false, embeddings, makeLayer);
            var quantized := NewRobertaEncoder(config, true, embeddings, makeLayer);
            && quantized == plain.(layerKind := QuantizedBertEncoderLayer, layers := quantized.layers)
            && |quantized.layers| == |plain.layers|
            && forall k :: 0 <= k < |plain.layers| ==>
                 plain.layers[k] == makeLayer(BertEncoderLayer, k) && quantized.layers[k] == makeLayer(QuantizedBertEncoderLayer, k)
  {
  }
}
