/**
 * What the transformer encoders share: the attention mask derived from the padding id
 * and the loop that threads one hidden state through the layer stack. Hidden states are
 * an opaque type H and every layer an opaque function of the state and the mask.
 */
module EncoderCommon {
  import opened Results
  import Tokenizer

  /** A batch of piece ids, one row per sequence. */
  type Ids = seq<seq<int>>

  /** An integer attention mask: 1 for a position to attend to, 0 otherwise. */
  type Mask = seq<seq<int>>

  /** One encoder layer: the next hidden state from the current one and the mask. */
  type Layer<!H> = (H, Mask) -> H

  /** `x.ne(padding_idx).int()`: 1 exactly where the id differs from the padding id, 0 elsewhere. */
  function CreateAttentionMask(x: Ids, paddingIdx: int): (mask: Mask)
    ensures |mask| == |x|
    ensures forall i :: 0 <= i < |x| ==> |mask[i]| == |x[i]|
    ensures forall i, j :: 0 <= i < |x| && 0 <= j < |x[i]| ==>
              (mask[i][j] == 1 <==> x[i][j] != paddingIdx) && (mask[i][j] == 0 <==> x[i][j] == paddingIdx)
  {
    seq(|x|, i requires 0 <= i < |x| => seq(|x[i]|, j requires 0 <= j < |x[i]| => if x[i][j] != paddingIdx then 1 else 0))
  }

  /**
   * The mask derived from a padded batch agrees with the batch's own attention mask
   * exactly when no real piece id equals the padding id: a real id equal to it is masked out.
   */
  lemma DerivedMaskMatchesBatchMask(p: Tokenizer.PiecesWithIds, paddingId: int, i: nat, j: nat)
    requires i < |p.ids| && j < Tokenizer.MaxLen(p.ids)
    ensures var derived := CreateAttentionMask(Tokenizer.PaddedTensor(p, paddingId), paddingId);
            (derived[i][j] == 1) == (Tokenizer.AttentionMask(p)[i][j] && p.ids[i][j] != paddingId)
  {
    var t := Tokenizer.PaddedTensor(p, paddingId);
    if j < |p.ids[i]| {
      assert t[i][j] == t[i][..|p.ids[i]|][j];
    }
  }

  /** The mask a forward pass uses: the caller's when given, else the one derived from padding. */
  function EffectiveMask(given: Option<Mask>, x: Ids, paddingIdx: int): (mask: Mask)
    ensures given.Some? ==> mask == given.value
    ensures given.None? ==> |mask| == |x| && forall i :: 0 <= i < |x| ==> |mask[i]| == |x[i]|
    ensures given.None? ==> forall i, j :: 0 <= i < |x| && 0 <= j < |x[i]| ==> (mask[i][j] == 1 <==> x[i][j] != paddingIdx)
  {
    match given
    case Some(mask) => mask
    case None => CreateAttentionMask(x, paddingIdx)
  }

  /** The hidden state after running every layer in order on `input`, each with `mask`. */
  function Compose<H>(layers: seq<Layer<H>>, input: H, mask: Mask): H
  {
    if layers == [] then input
    else layers[|layers| - 1](Compose(layers[..|layers| - 1], input, mask), mask)
  }

  /**
   * The per-layer outputs of the stack: output k is layer k applied, with the mask, to
   * output k - 1, and the first layer is applied to the input.
   */
  function LayerOutputs<H>(layers: seq<Layer<H>>, input: H, mask: Mask): (outputs: seq<H>)
    ensures |outputs| == |layers|
    ensures |layers| > 0 ==> outputs[0] == layers[0](input, mask)
    ensures forall k :: 0 < k < |layers| ==> outputs[k] == layers[k](outputs[k - 1], mask)
  {
    if layers == [] then []
    else
      var previous := LayerOutputs(layers[..|layers| - 1], input, mask);
      var last := if previous == [] then input else previous[|previous| - 1];
      previous + [layers[|layers| - 1](last, mask)]
  }

  /** Output k of the stack is the composition of the first k + 1 layers. */
  lemma {:induction false} LayerOutputIsComposition<H>(layers: seq<Layer<H>>, input: H, mask: Mask, k: nat)
    requires k < |layers|
    ensures LayerOutputs(layers, input, mask)[k] == Compose(layers[..k + 1], input, mask)
  {
    var outputs := LayerOutputs(layers, input, mask);
    assert layers[..k + 1][..k] == layers[..k];
    if k > 0 {
      LayerOutputIsComposition(layers, input, mask, k - 1);
    } else {
      assert layers[..0] == [];
    }
  }

  /** Adding a layer to the stack keeps the earlier outputs and appends one more. */
  lemma LayerOutputsSnoc<H>(layers: seq<Layer<H>>, layer: Layer<H>, input: H, mask: Mask)
    ensures LayerOutputs(layers + [layer], input, mask) ==
              LayerOutputs(layers, input, mask) + [layer(Compose(layers, input, mask), mask)]
  {
    var all := layers + [layer];
    assert all[..|layers|] == layers;
    if layers != [] {
      LayerOutputIsComposition(layers, input, mask, |layers| - 1);
      assert layers[..|layers|] == layers;
    }
  }

  /**
   * The layer loop of `forward`: starting from `input`, each layer is applied to the
   * previous output with the same mask, and every output is appended to the list.
   */
  method RunLayers<H>(layers: seq<Layer<H>>, input: H, mask: Mask) returns (outputs: seq<H>)
    ensures outputs == LayerOutputs(layers, input, mask)
  {
    var layerOutput := input;
    outputs := [];
    var k := 0;
    while k < |layers|
      invariant 0 <= k <= |layers|
      invariant outputs == LayerOutputs(layers[..k], input, mask)
      invariant layerOutput == Compose(layers[..k], input, mask)
    {
      LayerOutputsSnoc(layers[..k], layers[k], input, mask);
      assert layers[..k + 1] == layers[..k] + [layers[k]];
      assert layers[..k + 1][..k] == layers[..k];
      layerOutput := layers[k](layerOutput, mask);
      outputs := outputs + [layerOutput];
      k := k + 1;
    }
    assert layers[..k] == layers;
  }
}
