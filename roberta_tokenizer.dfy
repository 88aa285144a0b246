/**
 * The RoBERTa tokenizer's own logic: resolving the begin/end marker pieces in the
 * byte-level BPE vocabulary, the post-encoder that wraps sequences in them, the
 * pre-decoder that strips them again, and reading merges from a serialized tokenizer.
 */
module RobertaTokenization {
  import opened Results
  import opened Strings
  import opened Tokenizer
  import opened TokenizationUtil

  /** The byte-level BPE processor, seen only through its vocabulary and merge rules. */
  datatype ByteBpeProcessor = ByteBpeProcessor(vocab: map<string, int>, merges: seq<seq<string>>)

  /** `processor.piece_id(piece)`: the piece's id, or None when it is not in the vocabulary. */
  function PieceId(processor: ByteBpeProcessor, piece: string): Option<int>
  {
    if piece in processor.vocab then Some(processor.vocab[piece]) else None
  }

  /** The error text: the piece appears between single quotes, after the fixed opening words. */
  function MissingPieceMessage(piece: string): (message: string)
    ensures |message| == 57 + |piece|
    ensures message[49] == '\'' && message[50..50 + |piece|] == piece && message[50 + |piece|] == '\''
  {
    "RoBERTa piece encoder vocabulary doesn't contain '" + piece + "' piece"
  }

  /** `_get_piece_id_or_fail`: the piece's id, or a ValueError naming the piece. */
  function GetPieceIdOrFail(processor: ByteBpeProcessor, piece: string): (r: Result<int>)
    ensures r.Ok? <==> piece in processor.vocab
    ensures r.Ok? ==> PieceId(processor, piece) == Some(r.value)
    ensures r.Err? ==> r.error == ValueError(MissingPieceMessage(piece))
  {
    match PieceId(processor, piece)
    case None => Err(ValueError(MissingPieceMessage(piece)))
    case Some(id) => Ok(id)
  }

  datatype RobertaPreDecoder = RobertaPreDecoder(bosId: int, eosId: int)

  /** `RobertaPreDecoder.__call__`: one id list per input sequence, with the marker ids removed. */
  function PreDecode(d: RobertaPreDecoder, input: seq<seq<int>>): (r: seq<seq<int>>)
    ensures |r| == |input|
    ensures forall i :: 0 <= i < |r| ==> d.bosId !in r[i] && d.eosId !in r[i]
    ensures forall i :: 0 <= i < |r| ==> (d.bosId !in input[i] && d.eosId !in input[i] ==> r[i] == input[i])
  {
    seq(|input|, i requires 0 <= i < |input| => RemovePieces(input[i], {d.bosId, d.eosId}))
  }

  /** Pre-decoding keeps the other ids of each sequence, in their order and with their counts. */
  lemma PreDecodeKeepsOthers(d: RobertaPreDecoder, input: seq<seq<int>>, i: nat, a: seq<int>, b: seq<int>, x: int)
    requires i < |input| && input[i] == a + b
    requires x != d.bosId && x != d.eosId
    ensures PreDecode(d, input)[i] == PreDecode(d, [a])[0] + PreDecode(d, [b])[0]
    ensures multiset(PreDecode(d, input)[i])[x] == multiset(input[i])[x]
  {
    RemovePiecesAppend(a, b, {d.bosId, d.eosId});
    RemovePiecesCounts(input[i], {d.bosId, d.eosId}, x);
  }

  datatype RobertaPostEncoder = RobertaPostEncoder(bosPiece: string, eosPiece: string, bosId: int, eosId: int)

  /** `RobertaPostEncoder.__call__`: every sequence wrapped in the begin and end markers. */
  function PostEncode(e: RobertaPostEncoder, p: PiecesWithIds): (r: PiecesWithIds)
    ensures Valid(p) ==> Valid(r)
    ensures |r.ids| == |p.ids|
    ensures forall i :: 0 <= i < |r.ids| ==>
              |r.ids[i]| >= 2 && r.ids[i][0] == e.bosId && r.ids[i][|r.ids[i]| - 1] == e.eosId
    ensures forall i :: 0 <= i < |r.pieces| ==>
              |r.pieces[i]| >= 2 && r.pieces[i][0] == e.bosPiece && r.pieces[i][|r.pieces[i]| - 1] == e.eosPiece
  {
    AddBosEosValid(p, e.bosPiece, e.eosPiece, e.bosId, e.eosId);
    AddBosEos(p, e.bosPiece, e.eosPiece, e.bosId, e.eosId)
  }

  datatype RobertaTokenizer = RobertaTokenizer(
    processor: ByteBpeProcessor, preDecoder: RobertaPreDecoder, postEncoder: RobertaPostEncoder)

  /**
   * `RobertaTokenizer.__init__`: resolves the marker pieces (begin marker first) and builds
   * the pre-decoder and post-encoder from the same ids.
   */
  function NewRobertaTokenizer(processor: ByteBpeProcessor, bosPiece: string := "<s>", eosPiece: string := "</s>")
    : (r: Result<RobertaTokenizer>)
    ensures r.Ok? <==> bosPiece in processor.vocab && eosPiece in processor.vocab
    ensures bosPiece !in processor.vocab ==> r == Err(ValueError(MissingPieceMessage(bosPiece)))
    ensures bosPiece in processor.vocab && eosPiece !in processor.vocab ==>
              r == Err(ValueError(MissingPieceMessage(eosPiece)))
    ensures r.Ok? ==>
              var bosId, eosId := processor.vocab[bosPiece], processor.vocab[eosPiece];
              r.value == RobertaTokenizer(processor, RobertaPreDecoder(bosId, eosId),
                                          RobertaPostEncoder(bosPiece, eosPiece, bosId, eosId))
  {
    var bosId :- GetPieceIdOrFail(processor, bosPiece);
    var eosId :- GetPieceIdOrFail(processor, eosPiece);
    Ok(RobertaTokenizer(processor, RobertaPreDecoder(bosId, eosId),
                        RobertaPostEncoder(bosPiece, eosPiece, bosId, eosId)))
  }

  /** Decoding what the tokenizer encoded gives back the ids, when they contain no marker id. */
  lemma PreDecodeUndoesPostEncode(t: RobertaTokenizer, p: PiecesWithIds)
    requires exists bosPiece, eosPiece :: NewRobertaTokenizer(t.processor, bosPiece, eosPiece) == Ok(t)
    requires forall i :: 0 <= i < |p.ids| ==> t.preDecoder.bosId !in p.ids[i] && t.preDecoder.eosId !in p.ids[i]
    ensures PreDecode(t.preDecoder, PostEncode(t.postEncoder, p).ids) == p.ids
  {
    var e := t.postEncoder;
    var wrapped := PostEncode(e, p).ids;
    forall i | 0 <= i < |p.ids|
      ensures PreDecode(t.preDecoder, wrapped)[i] == p.ids[i]
    {
      assert wrapped[i] == [e.bosId] + p.ids[i] + [e.eosId];
      StripWrapped(p.ids[i], e.bosId, e.eosId);
    }
  }

  /** One serialized merge rule `"a b"` as the tuple `merge.split(" ")`. */
  function SplitMerge(merge: string): (pair: seq<string>)
    ensures Join(pair, ' ') == merge
  {
    JoinSplit(merge, ' ');
    Split(merge, ' ')
  }

  /** A merge of two space-free pieces becomes exactly that pair. */
  lemma SplitMergePair(a: string, b: string)
    requires ' ' !in a && ' ' !in b
    ensures SplitMerge(a + " " + b) == [a, b]
  {
    assert Join([a, b], ' ') == a + " " + b by {
      JoinCons(a, [b], ' ');
    }
    SplitJoin([a, b], ' ');
  }

  /** The `model` part of a serialized Hugging Face tokenizer, plus its marker tokens. */
  datatype HfTokenizerState = HfTokenizerState(
    vocab: map<string, int>, merges: seq<string>, bosToken: string, eosToken: string)

  /** `convert_hf_tokenizer`: a processor over the same vocabulary and the merges in their order. */
  function ConvertHfTokenizer(state: HfTokenizerState): (r: Result<RobertaTokenizer>)
    ensures r == NewRobertaTokenizer(
                   ByteBpeProcessor(state.vocab, seq(|state.merges|, k requires 0 <= k < |state.merges| => SplitMerge(state.merges[k]))),
                   state.bosToken, state.eosToken)
    ensures r.Ok? ==> r.value.processor.vocab == state.vocab && |r.value.processor.merges| == |state.merges|
    ensures r.Ok? ==> forall k :: 0 <= k < |state.merges| ==> Join(r.value.processor.merges[k], ' ') == state.merges[k]
  {
    var merges := seq(|state.merges|, k requires 0 <= k < |state.merges| => SplitMerge(state.merges[k]));
    NewRobertaTokenizer(ByteBpeProcessor(state.vocab, merges), state.bosToken, state.eosToken)
  }
}
