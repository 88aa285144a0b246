/** The helpers shared by the post-encoders and pre-decoders that add and strip marker pieces. */
module TokenizationUtil {
  import opened Tokenizer

  /** `remove_pieces_from_sequence`: the ids of the sequence, in order, that are not in `remove`. */
  function RemovePieces(ids: seq<int>, remove: set<int>): (r: seq<int>)
    ensures |r| <= |ids|
    ensures forall k :: 0 <= k < |r| ==> r[k] !in remove && r[k] in ids
    ensures forall k :: 0 <= k < |ids| && ids[k] !in remove ==> ids[k] in r
    ensures (forall k :: 0 <= k < |ids| ==> ids[k] !in remove) ==> r == ids
  {
    if ids == [] then []
    else (if ids[0] in remove then [] else [ids[0]]) + RemovePieces(ids[1..], remove)
  }

  /** Removal works piecewise, so the kept ids stay in their original relative order. */
  lemma {:induction false} RemovePiecesAppend(a: seq<int>, b: seq<int>, remove: set<int>)
    ensures RemovePieces(a + b, remove) == RemovePieces(a, remove) + RemovePieces(b, remove)
  {
    if a != [] {
      var head := if a[0] in remove then [] else [a[0]];
      assert (a + b)[0] == a[0];
      assert (a + b)[1..] == a[1..] + b;
      assert RemovePieces(a + b, remove) == head + RemovePieces(a[1..] + b, remove);
      RemovePiecesAppend(a[1..], b, remove);
      assert RemovePieces(a, remove) == head + RemovePieces(a[1..], remove);
    } else {
      assert a + b == b;
    }
  }

  /** Every id outside `remove` keeps its number of occurrences; the removed ids have none left. */
  lemma {:induction false} RemovePiecesCounts(ids: seq<int>, remove: set<int>, x: int)
    ensures multiset(RemovePieces(ids, remove))[x] == if x in remove then 0 else multiset(ids)[x]
  {
    if ids != [] {
      RemovePiecesCounts(ids[1..], remove, x);
      assert ids == [ids[0]] + ids[1..];
    }
  }

  /** `add_bos_eos_to_encoding`: wraps every sequence in the begin and end markers. */
  function AddBosEos(p: PiecesWithIds, bosPiece: string, eosPiece: string, bosId: int, eosId: int): (r: PiecesWithIds)
    ensures |r.ids| == |p.ids| && |r.pieces| == |p.pieces| && |r.lens| == |p.lens|
    ensures forall i :: 0 <= i < |r.ids| ==>
              |r.ids[i]| == |p.ids[i]| + 2 && r.ids[i][0] == bosId && r.ids[i][|r.ids[i]| - 1] == eosId
              && r.ids[i][1..|r.ids[i]| - 1] == p.ids[i]
    ensures forall i :: 0 <= i < |r.pieces| ==>
              |r.pieces[i]| == |p.pieces[i]| + 2 && r.pieces[i][0] == bosPiece
              && r.pieces[i][|r.pieces[i]| - 1] == eosPiece && r.pieces[i][1..|r.pieces[i]| - 1] == p.pieces[i]
    ensures forall i :: 0 <= i < |r.lens| ==>
              |r.lens[i]| == |p.lens[i]| + 2 && r.lens[i][0] == 1 && r.lens[i][|r.lens[i]| - 1] == 1
              && r.lens[i][1..|r.lens[i]| - 1] == p.lens[i]
  {
    PiecesWithIds(
      seq(|p.ids|, i requires 0 <= i < |p.ids| => [bosId] + p.ids[i] + [eosId]),
      seq(|p.pieces|, i requires 0 <= i < |p.pieces| => [bosPiece] + p.pieces[i] + [eosPiece]),
      seq(|p.lens|, i requires 0 <= i < |p.lens| => [1] + p.lens[i] + [1]))
  }

  /** Wrapping keeps the batch invariant: each marker is one piece of its own one-piece word. */
  lemma AddBosEosValid(p: PiecesWithIds, bosPiece: string, eosPiece: string, bosId: int, eosId: int)
    ensures Valid(p) ==> Valid(AddBosEos(p, bosPiece, eosPiece, bosId, eosId))
  {
    var r := AddBosEos(p, bosPiece, eosPiece, bosId, eosId);
    if Valid(p) {
      forall i | 0 <= i < |r.ids|
        ensures |r.ids[i]| == |r.pieces[i]| == Sum(r.lens[i])
      {
        SumAppend([1] + p.lens[i], [1]);
        SumAppend([1], p.lens[i]);
      }
    }
  }

  /** Stripping the markers from a wrapped sequence whose ids contain no marker gives it back. */
  lemma StripWrapped(ids: seq<int>, bosId: int, eosId: int)
    requires bosId !in ids && eosId !in ids
    ensures RemovePieces([bosId] + ids + [eosId], {bosId, eosId}) == ids
  {
    RemovePiecesAppend([bosId] + ids, [eosId], {bosId, eosId});
    RemovePiecesAppend([bosId], ids, {bosId, eosId});
  }
}
