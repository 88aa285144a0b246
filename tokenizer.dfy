/**
 * The batch produced by one `encode` call: per sequence, the piece ids, the piece
 * strings and the number of pieces of each pre-tokenized word. The padded tensor
 * and the attention mask are derived views of the ids.
 */
module Tokenizer {

  datatype PiecesWithIds = PiecesWithIds(ids: seq<seq<int>>, pieces: seq<seq<string>>, lens: seq<seq<nat>>)

  function Sum(xs: seq<nat>): nat
  {
    if xs == [] then 0 else Sum(xs[..|xs| - 1]) + xs[|xs| - 1]
  }

  lemma {:induction false} SumAppend(xs: seq<nat>, ys: seq<nat>)
    ensures Sum(xs + ys) == Sum(xs) + Sum(ys)
  {
    if ys != [] {
      assert (xs + ys)[..|xs + ys| - 1] == xs + ys[..|ys| - 1];
      SumAppend(xs, ys[..|ys| - 1]);
    } else {
      assert xs + ys == xs;
    }
  }

  /** The batch invariant: ids, pieces and lens are parallel and lens account for every piece. */
  predicate Valid(p: PiecesWithIds)
    ensures Valid(p) ==> |p.pieces| == |p.ids| && forall i, j :: 0 <= i < |p.ids| && 0 <= j < MaxLen(p.ids) ==>
              (AttentionMask(p)[i][j] <==> j < |p.pieces[i]|)
  {
    && |p.ids| == |p.pieces| == |p.lens|
    && forall i :: 0 <= i < |p.ids| ==> |p.ids[i]| == |p.pieces[i]| == Sum(p.lens[i])
  }

  /** The longest sequence length in the batch (0 for an empty batch). */
  function MaxLen(ids: seq<seq<int>>): (m: nat)
    ensures forall i :: 0 <= i < |ids| ==> |ids[i]| <= m
    ensures ids == [] ==> m == 0
    ensures ids != [] ==> exists i :: 0 <= i < |ids| && |ids[i]| == m
  {
    if ids == [] then 0
    else
      var m := MaxLen(ids[..|ids| - 1]);
      if |ids[|ids| - 1]| > m then |ids[|ids| - 1]| else m
  }

  /**
   * `padded_tensor(padding_id=...)`: a batch x longest-length matrix, each row holding
   * its sequence's ids and then `paddingId` up to the longest length.
   */
  function PaddedTensor(p: PiecesWithIds, paddingId: int): (t: seq<seq<int>>)
    ensures |t| == |p.ids|
    ensures forall i :: 0 <= i < |t| ==> |t[i]| == MaxLen(p.ids)
    ensures forall i :: 0 <= i < |t| ==> |p.ids[i]| <= |t[i]| && t[i][..|p.ids[i]|] == p.ids[i]
    ensures forall i, j :: 0 <= i < |t| && |p.ids[i]| <= j < |t[i]| ==> t[i][j] == paddingId
  {
    var width := MaxLen(p.ids);
    seq(|p.ids|, i requires 0 <= i < |p.ids| => p.ids[i] + seq(width - |p.ids[i]|, _ => paddingId))
  }

  /** `attention_mask`: True exactly on the positions that hold a real token of the row. */
  function AttentionMask(p: PiecesWithIds): (mask: seq<seq<bool>>)
    ensures |mask| == |p.ids|
    ensures forall i :: 0 <= i < |mask| ==> |mask[i]| == MaxLen(p.ids)
    ensures forall i, j :: 0 <= i < |mask| && 0 <= j < |mask[i]| ==> (mask[i][j] <==> j < |p.ids[i]|)
  {
    var width := MaxLen(p.ids);
    seq(|p.ids|, i requires 0 <= i < |p.ids| => seq(width, j => j < |p.ids[i]|))
  }

  /** Number of True entries of a mask row. */
  function CountTrue(row: seq<bool>): nat
  {
    if row == [] then 0 else CountTrue(row[..|row| - 1]) + (if row[|row| - 1] then 1 else 0)
  }

  /** A row that is True on a prefix of length n and False after it has n True entries. */
  lemma {:induction false} CountTruePrefix(row: seq<bool>, n: nat)
    requires n <= |row|
    requires forall j :: 0 <= j < |row| ==> (row[j] <==> j < n)
    ensures CountTrue(row) == n
  {
    if |row| > 0 {
      var init := row[..|row| - 1];
      if n == |row| {
        CountTruePrefix(init, n - 1);
      } else {
        CountTruePrefix(init, n);
      }
    }
  }

  /**
   * The two views agree: the first CountTrue(mask[i]) entries of padded row i are exactly
   * the ids of sequence i, whatever the padding id is.
   */
  lemma MaskRecoversIds(p: PiecesWithIds, paddingId: int, i: nat)
    requires i < |p.ids|
    ensures var mask := AttentionMask(p); var t := PaddedTensor(p, paddingId);
            CountTrue(mask[i]) <= |t[i]| && t[i][..CountTrue(mask[i])] == p.ids[i]
  {
    CountTruePrefix(AttentionMask(p)[i], |p.ids[i]|);
  }

  /** The mask depends only on the row lengths, never on the id values. */
  lemma AttentionMaskIgnoresIds(p: PiecesWithIds, q: PiecesWithIds)
    requires |p.ids| == |q.ids|
    requires forall i :: 0 <= i < |p.ids| ==> |p.ids[i]| == |q.ids[i]|
    ensures AttentionMask(p) == AttentionMask(q)
  {
    assert MaxLen(p.ids) == MaxLen(q.ids) by {
      var mp, mq := MaxLen(p.ids), MaxLen(q.ids);
      if p.ids != [] {
        var i :| 0 <= i < |p.ids| && |p.ids[i]| == mp;
        var k :| 0 <= k < |q.ids| && |q.ids[k]| == mq;
        assert |q.ids[i]| <= mq && |p.ids[k]| <= mp;
      }
    }
  }
}
