/**
 * The spaCy torch transformer encoder: the position ids of learned position embeddings,
 * the default token-type ids, and the forward pass that sums the embeddings and runs the
 * layer stack. Embeddings, layer norm, dropout and the layers are opaque functions over
 * the hidden-state type H.
 */
module TorchTransformer {
  import opened Results
  import opened EncoderCommon

  /** Running sums along a row: entry j is the sum of entries 0..j. */
  function CumSum(row: seq<int>): (sums: seq<int>)
    ensures |sums| == |row|
  {
    if row == [] then []
    else
      var previous := CumSum(row[..|row| - 1]);
      previous + [(if previous == [] then 0 else previous[|previous| - 1]) + row[|row| - 1]]
  }

  /** Entry j of the running sums is the sum of the row's first j + 1 entries. */
  lemma {:induction false} CumSumAt(row: seq<int>, j: nat)
    requires j < |row|
    ensures CumSum(row)[j] == SumInt(row[..j + 1])
  {
    var init := row[..|row| - 1];
    if j < |row| - 1 {
      CumSumAt(init, j);
      assert init[..j + 1] == row[..j + 1];
    } else if j > 0 {
      CumSumAt(init, j - 1);
      assert init[..j] == init;
      assert row[..j + 1][..j] == init;
    } else {
      assert row[..1][..0] == [];
    }
  }

  function SumInt(xs: seq<int>): int
  {
    if xs == [] then 0 else SumInt(xs[..|xs| - 1]) + xs[|xs| - 1]
  }

  /** Number of ids in a row that are not the padding id. */
  function CountNonPad(row: seq<int>, paddingIdx: int): (n: nat)
    ensures n <= |row|
  {
    if row == [] then 0 else CountNonPad(row[..|row| - 1], paddingIdx) + (if row[|row| - 1] != paddingIdx then 1 else 0)
  }

  /**
   * `(mask.cumsum(dim=1) * mask) + padding_idx` with `mask = x.ne(padding_idx).int()`:
   * the position id of every token of the batch.
   */
  function PositionIds(x: Ids, paddingIdx: int): (pos: Ids)
    ensures |pos| == |x|
    ensures forall i :: 0 <= i < |x| ==> |pos[i]| == |x[i]|
  {
    var mask := CreateAttentionMask(x, paddingIdx);
    seq(|x|, i requires 0 <= i < |x| =>
      var sums := CumSum(mask[i]);
      seq(|x[i]|, j requires 0 <= j < |x[i]| => sums[j] * mask[i][j] + paddingIdx))
  }

  /** The running sum of the mask row counts the non-padding ids seen so far. */
  lemma {:induction false} MaskSumCountsTokens(x: Ids, paddingIdx: int, i: nat, n: nat)
    requires i < |x| && n <= |x[i]|
    ensures SumInt(CreateAttentionMask(x, paddingIdx)[i][..n]) == CountNonPad(x[i][..n], paddingIdx)
  {
    if n > 0 {
      var mask := CreateAttentionMask(x, paddingIdx)[i];
      MaskSumCountsTokens(x, paddingIdx, i, n - 1);
      assert mask[..n][..n - 1] == mask[..n - 1];
      assert x[i][..n][..n - 1] == x[i][..n - 1];
    }
  }

  /**
   * A padding position gets `padding_idx`; a real token at position j gets `padding_idx`
   * plus the number of real tokens in positions 0..j.
   */
  lemma PositionIdAt(x: Ids, paddingIdx: int, i: nat, j: nat)
    requires i < |x| && j < |x[i]|
    ensures PositionIds(x, paddingIdx)[i][j] ==
              if x[i][j] == paddingIdx then paddingIdx else paddingIdx + CountNonPad(x[i][..j + 1], paddingIdx)
  {
    CumSumAt(CreateAttentionMask(x, paddingIdx)[i], j);
    MaskSumCountsTokens(x, paddingIdx, i, j + 1);
  }

  /**
   * Position ids never collide with padding: a padding position gets `padding_idx`, and a
   * real token at position j gets an id above it and at most `padding_idx + j + 1`.
   */
  lemma PositionIdsBounds(x: Ids, paddingIdx: int)
    ensures forall i, j :: 0 <= i < |x| && 0 <= j < |x[i]| ==>
              && (x[i][j] == paddingIdx ==> PositionIds(x, paddingIdx)[i][j] == paddingIdx)
              && (x[i][j] != paddingIdx ==> paddingIdx < PositionIds(x, paddingIdx)[i][j] <= paddingIdx + j + 1)
  {
    forall i, j | 0 <= i < |x| && 0 <= j < |x[i]|
      ensures x[i][j] != paddingIdx ==> paddingIdx < PositionIds(x, paddingIdx)[i][j] <= paddingIdx + j + 1
      ensures x[i][j] == paddingIdx ==> PositionIds(x, paddingIdx)[i][j] == paddingIdx
    {
      PositionIdAt(x, paddingIdx, i, j);
      assert x[i][..j + 1][..j] == x[i][..j];
    }
  }

  /** Counting real tokens works piecewise over a concatenation. */
  lemma {:induction false} CountNonPadAppend(a: seq<int>, b: seq<int>, paddingIdx: int)
    ensures CountNonPad(a + b, paddingIdx) == CountNonPad(a, paddingIdx) + CountNonPad(b, paddingIdx)
  {
    if b != [] {
      assert (a + b)[..|a + b| - 1] == a + b[..|b| - 1];
      CountNonPadAppend(a, b[..|b| - 1], paddingIdx);
    } else {
      assert a + b == a;
    }
  }

  lemma {:induction false} CountNonPadOfPadding(n: nat, paddingIdx: int)
    ensures CountNonPad(seq(n, _ => paddingIdx), paddingIdx) == 0
  {
    if n > 0 {
      assert seq(n, _ => paddingIdx)[..n - 1] == seq(n - 1, _ => paddingIdx);
      CountNonPadOfPadding(n - 1, paddingIdx);
    }
  }

  /**
   * Along a row, the next real token after a real token gets the next position id,
   * whatever padding lies between them.
   */
  lemma SuccessivePositions(x: Ids, paddingIdx: int, i: nat, j: nat, k: nat)
    requires i < |x| && j < k < |x[i]|
    requires x[i][j] != paddingIdx && x[i][k] != paddingIdx
    requires forall m :: j < m < k ==> x[i][m] == paddingIdx
    ensures PositionIds(x, paddingIdx)[i][k] == PositionIds(x, paddingIdx)[i][j] + 1
  {
    var row := x[i];
    PositionIdAt(x, paddingIdx, i, j);
    PositionIdAt(x, paddingIdx, i, k);
    assert row[..k + 1] == row[..j + 1] + (row[j + 1..k] + [row[k]]);
    assert row[j + 1..k] == seq(k - j - 1, _ => paddingIdx);
    CountNonPadAppend(row[..j + 1], row[j + 1..k] + [row[k]], paddingIdx);
    CountNonPadAppend(row[j + 1..k], [row[k]], paddingIdx);
    CountNonPadOfPadding(k - j - 1, paddingIdx);
    assert [row[k]][..0] == [];
  }

  /**
   * Left padding does not shift positions: the tokens of a row padded on the left keep
   * the position ids they have without the padding, and the padding gets `padding_idx`.
   */
  lemma LeftPaddingInvariant(row: seq<int>, n: nat, paddingIdx: int)
    ensures var padded := seq(n, _ => paddingIdx) + row;
            PositionIds([padded], paddingIdx)[0] == seq(n, _ => paddingIdx) + PositionIds([row], paddingIdx)[0]
  {
    var pads := seq(n, _ => paddingIdx);
    var padded := pads + row;
    var lhs := PositionIds([padded], paddingIdx)[0];
    var rhs := pads + PositionIds([row], paddingIdx)[0];
    forall j | 0 <= j < |padded|
      ensures lhs[j] == rhs[j]
    {
      PositionIdAt([padded], paddingIdx, 0, j);
      if j >= n {
        PositionIdAt([row], paddingIdx, 0, j - n);
        assert padded[..j + 1] == pads + row[..j - n + 1];
        CountNonPadAppend(pads, row[..j - n + 1], paddingIdx);
        CountNonPadOfPadding(n, paddingIdx);
      }
    }
  }

  /** However much left padding precedes it, the first real token of a row gets `padding_idx + 1`. */
  lemma FirstRealTokenPosition(x: Ids, paddingIdx: int, i: nat, j: nat)
    requires i < |x| && j < |x[i]|
    requires forall k :: 0 <= k < j ==> x[i][k] == paddingIdx
    requires x[i][j] != paddingIdx
    ensures PositionIds(x, paddingIdx)[i][j] == paddingIdx + 1
  {
    PositionIdAt(x, paddingIdx, i, j);
    assert x[i][..j + 1] == x[i][..j] + [x[i][j]];
    assert x[i][..j] == seq(j, _ => paddingIdx);
    CountNonPadAppend(x[i][..j], [x[i][j]], paddingIdx);
    CountNonPadOfPadding(j, paddingIdx);
    assert [x[i][j]][..0] == [];
  }

  /** `torch.zeros(input.shape)`: all-zero ids of the input's shape. */
  function Zeros(x: Ids): (z: Ids)
    ensures |z| == |x|
    ensures forall i :: 0 <= i < |x| ==> |z[i]| == |x[i]| && forall j :: 0 <= j < |x[i]| ==> z[i][j] == 0
  {
    seq(|x|, i requires 0 <= i < |x| => seq(|x[i]|, _ => 0))
  }

  /** `TransformerEncoderOutput`: the output of every layer and the normalized embedding sum. */
  datatype TransformerEncoderOutput<H> = TransformerEncoderOutput(layerOutputs: seq<H>, embeddingSum: H)
  {
    /** `last_hidden_output`: the last layer's output; with no layers the index fails. */
    function LastHiddenOutput(): (last: Option<H>)
      ensures last.Some? <==> |layerOutputs| > 0
      ensures last.Some? ==> last.value == layerOutputs[|layerOutputs| - 1]
    {
      if |layerOutputs| > 0 then Some(layerOutputs[|layerOutputs| - 1]) else None
    }
  }

  /**
   * The encoder's modules. `typeEmbeddings` is None when the type vocabulary is empty;
   * `normalize` stands for the embedding layer norm followed by dropout, and `add` for
   * the element-wise sum of two embedding tensors.
   */
  datatype TransformerEncoder<!H> = TransformerEncoder(
    paddingIdx: int,
    maxSeqLen: nat,
    learnablePosEmbeddings: bool,
    inputEmbeddings: Ids -> H,
    typeEmbeddings: Option<Ids -> H>,
    posEmbeddings: Ids -> H,
    add: (H, H) -> H,
    normalize: H -> H,
    layers: seq<Layer<H>>)
  {
    /** `_get_pos_embeddings`'s input: position ids when they are learned, the ids themselves otherwise. */
    function PositionInput(x: Ids): (ids: Ids)
      ensures |ids| == |x| && forall i :: 0 <= i < |x| ==> |ids[i]| == |x[i]|
      ensures !learnablePosEmbeddings ==> ids == x
      ensures learnablePosEmbeddings ==> forall i, j :: 0 <= i < |x| && 0 <= j < |x[i]| ==>
                && (x[i][j] == paddingIdx ==> ids[i][j] == paddingIdx)
                && (x[i][j] != paddingIdx ==> paddingIdx < ids[i][j] <= paddingIdx + j + 1)
    {
      PositionIdsBounds(x, paddingIdx);
      if learnablePosEmbeddings then PositionIds(x, paddingIdx) else x
    }

    /** The token-type ids the type embeddings see: the caller's, or zeros of the input's shape. */
    function TokenTypeIds(x: Ids, tokenTypeIds: Option<Ids>): (ids: Ids)
      ensures tokenTypeIds.Some? ==> ids == tokenTypeIds.value
      ensures tokenTypeIds.None? ==> |ids| == |x| && forall i :: 0 <= i < |x| ==> |ids[i]| == |x[i]| && forall j :: 0 <= j < |x[i]| ==> ids[i][j] == 0
    {
      match tokenTypeIds
      case Some(ids) => ids
      case None => Zeros(x)
    }

    /** The embedding sum of `forward`: input, token-type and position embeddings, normalized. */
    function EmbeddingSum(x: Ids, tokenTypeIds: Option<Ids>): (sum: H)
      ensures typeEmbeddings.None? ==> sum == normalize(add(inputEmbeddings(x), posEmbeddings(PositionInput(x))))
      ensures typeEmbeddings.Some? && tokenTypeIds.None? ==>
                sum == normalize(add(add(inputEmbeddings(x), typeEmbeddings.value(Zeros(x))), posEmbeddings(PositionInput(x))))
      ensures typeEmbeddings.Some? && tokenTypeIds.Some? ==>
                sum == normalize(add(add(inputEmbeddings(x), typeEmbeddings.value(tokenTypeIds.value)), posEmbeddings(PositionInput(x))))
    {
      var emb := inputEmbeddings(x);
      var emb := if typeEmbeddings.Some? then add(emb, typeEmbeddings.value(TokenTypeIds(x, tokenTypeIds))) else emb;
      normalize(add(emb, posEmbeddings(PositionInput(x))))
    }

    /**
     * `forward`: the mask defaults to the one derived from padding, the embedding sum is
     * formed and every layer output is collected in order.
     */
    method Forward(input: Ids, attentionMask: Option<Mask>, tokenTypeIds: Option<Ids>) returns (output: TransformerEncoderOutput<H>)
      ensures output.embeddingSum == EmbeddingSum(input, tokenTypeIds)
      ensures output.layerOutputs == LayerOutputs(layers, output.embeddingSum, EffectiveMask(attentionMask, input, paddingIdx))
      ensures |output.layerOutputs| == |layers|
    {
      var mask := if attentionMask.None? then CreateAttentionMask(input, paddingIdx) else attentionMask.value;
      var emb := inputEmbeddings(input);
      if typeEmbeddings.Some? {
        var typeIds := if tokenTypeIds.None? then Zeros(input) else tokenTypeIds.value;
        emb := add(emb, typeEmbeddings.value(typeIds));
      }
      var pos := posEmbeddings(PositionInput(input));
      var embeddingSum := normalize(add(emb, pos));
      var layerOutputs := RunLayers(layers, embeddingSum, mask);
      output := TransformerEncoderOutput(layerOutputs, embeddingSum);
    }
  }

  /** `TransformerEncoder.__init__`: `n_layers` layers, and type embeddings only for a non-empty type vocabulary. */
  function NewTransformerEncoder<H>(
    nLayers: nat, maxSeqLen: nat,
    inputEmbeddings: Ids -> H, makeTypeEmbeddings: nat -> (Ids -> H), posEmbeddings: Ids -> H,
    add: (H, H) -> H, normalize: H -> H, makeLayer: nat -> Layer<H>,
    learnablePosEmbeddings: bool := false, paddingIdx: int := 0, typeVocabSize: nat := 0): (encoder: TransformerEncoder<H>)
    ensures |encoder.layers| == nLayers && forall k :: 0 <= k < nLayers ==> encoder.layers[k] == makeLayer(k)
    ensures encoder.typeEmbeddings.Some? <==> typeVocabSize > 0
    ensures encoder.paddingIdx == paddingIdx && encoder.learnablePosEmbeddings == learnablePosEmbeddings
  {
    TransformerEncoder(
      paddingIdx, maxSeqLen, learnablePosEmbeddings, inputEmbeddings,
      if typeVocabSize > 0 then Some(makeTypeEmbeddings(typeVocabSize)) else None,
      posEmbeddings, add, normalize, seq(nLayers, k requires 0 <= k < nLayers => makeLayer(k)))
  }

  /**
   * The last hidden output of a forward pass over at least one layer is every layer
   * applied in order to the embedding sum.
   */
  lemma LastHiddenOutputIsStack<H>(layers: seq<Layer<H>>, embeddingSum: H, mask: Mask)
    requires |layers| > 0
    ensures TransformerEncoderOutput(LayerOutputs(layers, embeddingSum, mask), embeddingSum).LastHiddenOutput()
            == Some(Compose(layers, embeddingSum, mask))
  {
    LayerOutputIsComposition(layers, embeddingSum, mask, |layers| - 1);
    assert layers[..|layers|] == layers;
  }
}
