/**
 * The toy BERT encoding of the two short sample texts, as the tokenizer tests fix it:
 * ids, pieces and per-word piece counts, the padded tensor with padding id 1, the
 * attention mask, and the decoded texts.
 */
module BertToyEncoding {
  import opened Results
  import opened Strings
  import opened Tokenizer
  import opened TokenizationUtil
  import opened BertTokenization
  import EncoderCommon

  /** The two encoded sequences without their [CLS] and [SEP] markers. */
  function ToyInner(): PiecesWithIds
  {
    PiecesWithIds(
      [[41, 818, 61, 67, 193, 88, 204, 61, 251, 909, 682, 102, 95, 17],
       [824, 98, 189, 311, 417, 65, 155, 503, 99, 1, 416, 117, 88, 15, 844, 91, 100, 163, 183, 5]],
      [Row0Pieces(), Row1Pieces()],
      [[1, 1, 1, 3, 1, 1, 5, 1], [3, 1, 1, 2, 3, 3, 1, 3, 1, 1, 1]])
  }

  function Row0Pieces(): seq<string>
  {
    ["I", "saw", "a", "g", "##ir", "##l", "with", "a", "te", "##les", "##co", "##p", "##e", "."]
  }

  function Row1Pieces(): seq<string>
  {
    ["To", "##d", "##ay", "we", "will", "e", "##at", "po", "##k", "[UNK]", "bo", "##w", "##l", ",",
     "lo", "##t", "##s", "of", "it", "!"]
  }

  /** The encoding the toy tokenizer produces, markers included. */
  function ToyEncoding(): PiecesWithIds
  {
    PiecesWithIds(
      [[2, 41, 818, 61, 67, 193, 88, 204, 61, 251, 909, 682, 102, 95, 17, 3],
       [2, 824, 98, 189, 311, 417, 65, 155, 503, 99, 1, 416, 117, 88, 15, 844, 91, 100, 163, 183, 5, 3]],
      [["[CLS]"] + Row0Pieces() + ["[SEP]"], ["[CLS]"] + Row1Pieces() + ["[SEP]"]],
      [[1, 1, 1, 1, 3, 1, 1, 5, 1, 1], [1, 3, 1, 1, 2, 3, 3, 1, 3, 1, 1, 1, 1]])
  }

  /** The toy encoding is the inner encoding wrapped in [CLS] (id 2) and [SEP] (id 3). */
  lemma ToyEncodingIsWrapped()
    ensures ToyEncoding() == AddBosEos(ToyInner(), "[CLS]", "[SEP]", 2, 3)
  {
    var r := AddBosEos(ToyInner(), "[CLS]", "[SEP]", 2, 3);
    ToyIdsWrapped();
    ToyLensWrapped();
    assert r.pieces == ToyEncoding().pieces;
  }

  lemma ToyIdsWrapped()
    ensures AddBosEos(ToyInner(), "[CLS]", "[SEP]", 2, 3).ids == ToyEncoding().ids
  {
    Row0IdsWrapped();
    Row1IdsWrapped();
  }

  lemma Row0IdsWrapped()
    ensures AddBosEos(ToyInner(), "[CLS]", "[SEP]", 2, 3).ids[0] == ToyEncoding().ids[0]
  {
    var r := AddBosEos(ToyInner(), "[CLS]", "[SEP]", 2, 3);
    assert r.ids[0] == [2] + ToyInner().ids[0] + [3];
  }

  lemma Row1IdsWrapped()
    ensures AddBosEos(ToyInner(), "[CLS]", "[SEP]", 2, 3).ids[1] == ToyEncoding().ids[1]
  {
    var r := AddBosEos(ToyInner(), "[CLS]", "[SEP]", 2, 3);
    assert r.ids[1] == [2] + ToyInner().ids[1] + [3];
  }

  lemma ToyLensWrapped()
    ensures AddBosEos(ToyInner(), "[CLS]", "[SEP]", 2, 3).lens == ToyEncoding().lens
  {
    var r := AddBosEos(ToyInner(), "[CLS]", "[SEP]", 2, 3);
    assert r.lens[0] == ToyEncoding().lens[0];
    assert r.lens[1] == ToyEncoding().lens[1];
  }

  /**
   * The toy encoding keeps the batch invariant, and each of its sequences starts with
   * [CLS] and ends with [SEP], each a one-piece word.
   */
  lemma ToyEncodingValid()
    ensures Valid(ToyEncoding())
    ensures forall i :: 0 <= i < |ToyEncoding().ids| ==>
              var ids, pieces, lens := ToyEncoding().ids[i], ToyEncoding().pieces[i], ToyEncoding().lens[i];
              && ids[0] == 2 && ids[|ids| - 1] == 3
              && pieces[0] == "[CLS]" && pieces[|pieces| - 1] == "[SEP]"
              && lens[0] == 1 && lens[|lens| - 1] == 1
  {
    ToyEncodingIsWrapped();
    ToyInnerValid();
    AddBosEosValid(ToyInner(), "[CLS]", "[SEP]", 2, 3);
  }

  /** Every word of the toy text accounts for its pieces. */
  lemma ToyInnerValid()
    ensures Valid(ToyInner())
  {
    Row0LensSum();
    Row1LensSum();
  }

  lemma Row0LensSum()
    ensures Sum([1, 1, 1, 3, 1, 1, 5, 1]) == 14
  {
    SumAppend([1, 1, 1, 3], [1, 1, 5, 1]);
    SumAppend([1, 1], [1, 3]);
    SumAppend([1, 1], [5, 1]);
    assert [1, 1] + [1, 3] == [1, 1, 1, 3];
    assert [1, 1] + [5, 1] == [1, 1, 5, 1];
    assert [1, 1, 1, 3] + [1, 1, 5, 1] == [1, 1, 1, 3, 1, 1, 5, 1];
  }

  lemma Row1LensSum()
    ensures Sum([3, 1, 1, 2, 3, 3, 1, 3, 1, 1, 1]) == 20
  {
    SumAppend([3, 1, 1, 2, 3], [3, 1, 3, 1, 1, 1]);
    SumAppend([3, 1], [1, 2, 3]);
    SumAppend([3, 1, 3], [1, 1, 1]);
    SumAppend([1, 2], [3]);
    SumAppend([3, 1], [3]);
    SumAppend([1, 1], [1]);
    assert [1, 2] + [3] == [1, 2, 3];
    assert [3, 1] + [3] == [3, 1, 3];
    assert [1, 1] + [1] == [1, 1, 1];
    assert [3, 1] + [1, 2, 3] == [3, 1, 1, 2, 3];
    assert [3, 1, 3] + [1, 1, 1] == [3, 1, 3, 1, 1, 1];
    assert [3, 1, 1, 2, 3] + [3, 1, 3, 1, 1, 1] == [3, 1, 1, 2, 3, 3, 1, 3, 1, 1, 1];
  }

  /** `padded_tensor(padding_id=1)`: the first row gets six padding ids, the longest row none. */
  lemma ToyPaddedTensor()
    ensures PaddedTensor(ToyEncoding(), 1) ==
              [[2, 41, 818, 61, 67, 193, 88, 204, 61, 251, 909, 682, 102, 95, 17, 3, 1, 1, 1, 1, 1, 1],
               [2, 824, 98, 189, 311, 417, 65, 155, 503, 99, 1, 416, 117, 88, 15, 844, 91, 100, 163, 183, 5, 3]]
  {
    var p := ToyEncoding();
    var t := PaddedTensor(p, 1);
    ToyPaddedRows();
    assert t == [t[0], t[1]];
  }

  lemma ToyPaddedRows()
    ensures PaddedTensor(ToyEncoding(), 1)[0] ==
              [2, 41, 818, 61, 67, 193, 88, 204, 61, 251, 909, 682, 102, 95, 17, 3, 1, 1, 1, 1, 1, 1]
    ensures PaddedTensor(ToyEncoding(), 1)[1] == ToyEncoding().ids[1]
  {
    var p := ToyEncoding();
    var t := PaddedTensor(p, 1);
    assert MaxLen(p.ids) == 22;
    assert t[0] == p.ids[0] + [1, 1, 1, 1, 1, 1] by {
      assert t[0] == t[0][..16] + t[0][16..];
    }
    assert t[1] == p.ids[1] by {
      assert t[1] == t[1][..22];
    }
  }

  /**
   * `attention_mask`: True on the sixteen tokens of the first row and on all of the
   * second, including position 10, whose id 1 equals the padding id.
   */
  lemma ToyAttentionMask()
    ensures var mask := AttentionMask(ToyEncoding());
            && mask[0] == seq(16, _ => true) + seq(6, _ => false)
            && mask[1] == seq(22, _ => true)
    ensures ToyEncoding().ids[1][10] == 1 && AttentionMask(ToyEncoding())[1][10]
  {
    var p := ToyEncoding();
    assert MaxLen(p.ids) == 22;
  }

  /**
   * Deriving the mask from the padded tensor instead, as an encoder does when no mask is
   * passed, hides the `[UNK]` piece at position 10 of the second row, whose id is the
   * padding id: the two masks disagree there.
   */
  lemma ToyDerivedMaskHidesUnknown()
    ensures var derived := EncoderCommon.CreateAttentionMask(PaddedTensor(ToyEncoding(), 1), 1);
            derived[1][10] == 0 && AttentionMask(ToyEncoding())[1][10]
  {
    ToyAttentionMask();
    assert MaxLen(ToyEncoding().ids) == 22;
    EncoderCommon.DerivedMaskMatchesBatchMask(ToyEncoding(), 1, 1, 10);
  }

  /** A vocabulary that maps every toy id back to the piece it was encoded from. */
  predicate VocabAgreesWithToy(vocab: map<int, string>)
  {
    forall i, j :: 0 <= i < 2 && 0 <= j < |ToyInner().ids[i]| ==>
      ToyInner().ids[i][j] in vocab && vocab[ToyInner().ids[i][j]] == ToyInner().pieces[i][j]
  }

  /**
   * `decode(encoding.ids)`: the markers are dropped, continuation pieces are glued to the
   * piece before them, `[UNK]` stays as it is and the punctuation is pulled onto the word
   * before it.
   */
  lemma ToyDecode(vocab: map<int, string>)
    requires VocabAgreesWithToy(vocab)
    ensures Decode(vocab, 2, 3, ToyEncoding().ids[0]) == Some("I saw a girl with a telescope.")
    ensures Decode(vocab, 2, 3, ToyEncoding().ids[1]) == Some("Today we will eat pok [UNK] bowl, lots of it!")
  {
    ToyIdsUnwrap();
    DecodeWrapped(vocab, 2, 3, ToyInner().ids[0], Row0Pieces());
    DecodeWrapped(vocab, 2, 3, ToyInner().ids[1], Row1Pieces());
    Row0Text();
    Row1Text();
  }

  lemma ToyIdsUnwrap()
    ensures ToyEncoding().ids[0] == [2] + ToyInner().ids[0] + [3]
    ensures ToyEncoding().ids[1] == [2] + ToyInner().ids[1] + [3]
    ensures 2 !in ToyInner().ids[0] && 3 !in ToyInner().ids[0]
    ensures 2 !in ToyInner().ids[1] && 3 !in ToyInner().ids[1]
    ensures |ToyInner().ids[0]| == |Row0Pieces()| && |ToyInner().ids[1]| == |Row1Pieces()|
  {
    Row0IdsWrapped();
    Row1IdsWrapped();
  }

  lemma Row0Text()
    ensures CleanUp(JoinWordPieces(Row0Pieces())) == "I saw a girl with a telescope."
  {
    Row0Joined();
    Row0Literals();
    CleanUpMarkAfterWords("I saw a girl with a telescope", '.', "");
  }

  lemma Row0Literals()
    ensures "I saw a girl with a telescope ." == "I saw a girl with a telescope" + [' ', '.'] + ""
    ensures "I saw a girl with a telescope" + ['.'] + "" == "I saw a girl with a telescope."
    ensures forall k :: 0 <= k < |"I saw a girl with a telescope"| ==> !IsCleanedMark("I saw a girl with a telescope"[k])
  {
  }

  lemma Row0Joined()
    ensures JoinWordPieces(Row0Pieces()) == "I saw a girl with a telescope ."
  {
    var a, b, c, d, e := ["I", "saw", "a"], ["g", "##ir", "##l"], ["with", "a"], ["te", "##les", "##co", "##p", "##e"], ["."];
    assert Row0Pieces() == a + b + c + d + e;
    assert a + b + c + d == ["I", "saw", "a", "g", "##ir", "##l", "with", "a", "te", "##les", "##co", "##p", "##e"];
    Row0Prefix3();
    JoinWordPiecesAppend(a + b + c + d, e);
    assert "I saw a girl with a telescope" + " " + "." == "I saw a girl with a telescope .";
  }

  lemma Row0Prefix3()
    ensures JoinWordPieces(["I", "saw", "a", "g", "##ir", "##l", "with", "a", "te", "##les", "##co", "##p", "##e"])
            == "I saw a girl with a telescope"
  {
    var abc, d := ["I", "saw", "a", "g", "##ir", "##l", "with", "a"], ["te", "##les", "##co", "##p", "##e"];
    assert abc + d == ["I", "saw", "a", "g", "##ir", "##l", "with", "a", "te", "##les", "##co", "##p", "##e"];
    Row0Prefix2();
    WordTelescope();
    JoinWordPiecesAppend(abc, d);
    assert "I saw a girl with a" + " " + "telescope" == "I saw a girl with a telescope";
  }

  lemma Row0Prefix2()
    ensures JoinWordPieces(["I", "saw", "a", "g", "##ir", "##l", "with", "a"]) == "I saw a girl with a"
  {
    var ab, c := ["I", "saw", "a", "g", "##ir", "##l"], ["with", "a"];
    assert ab + c == ["I", "saw", "a", "g", "##ir", "##l", "with", "a"];
    Row0Prefix1();
    JoinWordPiecesSnoc(["with"], "a");
    JoinWordPiecesAppend(ab, c);
    assert "I saw a girl" + " " + "with a" == "I saw a girl with a";
  }

  lemma Row0Prefix1()
    ensures JoinWordPieces(["I", "saw", "a", "g", "##ir", "##l"]) == "I saw a girl"
  {
    var a, b := ["I", "saw", "a"], ["g", "##ir", "##l"];
    assert a + b == ["I", "saw", "a", "g", "##ir", "##l"];
    JoinWordPiecesSnoc(["I"], "saw");
    JoinWordPiecesSnoc(["I", "saw"], "a");
    WordGirl();
    JoinWordPiecesAppend(a, b);
    assert "I saw a" + " " + "girl" == "I saw a girl";
  }

  lemma WordGirl()
    ensures JoinWordPieces(["g", "##ir", "##l"]) == "girl"
  {
    JoinWordPiecesWord("g", ["##ir", "##l"]);
    assert ["g"] + ["##ir", "##l"] == ["g", "##ir", "##l"];
    assert ["##ir", "##l"][..1] == ["##ir"];
    assert ["##ir"][..0] == [];
    assert Glued(["##ir"]) == "ir";
    assert Glued(["##ir", "##l"]) == "irl";
  }


  lemma WordTelescope()
    ensures JoinWordPieces(["te", "##les", "##co", "##p", "##e"]) == "telescope"
  {
    JoinWordPiecesWord("te", ["##les", "##co", "##p", "##e"]);
    assert ["te"] + ["##les", "##co", "##p", "##e"] == ["te", "##les", "##co", "##p", "##e"];
    TelescopeGlued();
  }

  lemma TelescopeGlued()
    ensures Glued(["##les", "##co", "##p", "##e"]) == "lescope"
  {
    assert ["##les", "##co"][..1] == ["##les"];
    assert ["##les"][..0] == [];
    assert Glued(["##les", "##co"]) == "lesco";
    assert ["##les", "##co", "##p", "##e"][..3] == ["##les", "##co", "##p"];
    assert ["##les", "##co", "##p"][..2] == ["##les", "##co"];
  }



  lemma Row1Text()
    ensures CleanUp(JoinWordPieces(Row1Pieces())) == "Today we will eat pok [UNK] bowl, lots of it!"
  {
    Row1Joined();
    Row1Cleaned();
  }

  lemma Row1Joined()
    ensures JoinWordPieces(Row1Pieces()) == "Today we will eat pok [UNK] bowl , lots of it !"
  {
    Row1Prefix8();
    assert Row1Pieces() == ["To", "##d", "##ay", "we", "will", "e", "##at", "po", "##k", "[UNK]", "bo", "##w", "##l", ",", "lo", "##t", "##s", "of", "it", "!"];
  }

  lemma Row1Cleaned()
    ensures CleanUp("Today we will eat pok [UNK] bowl , lots of it !") == "Today we will eat pok [UNK] bowl, lots of it!"
  {
    var a, b := "Today we will eat pok [UNK] bowl", " lots of it";
    Row1Literals();
    CleanUpMarkAfterWords(a, ',', b + [' ', '!'] + "");
    CleanUpMarkAfterWords(b, '!', "");
  }

  lemma Row1Literals()
    ensures "Today we will eat pok [UNK] bowl , lots of it !"
            == "Today we will eat pok [UNK] bowl" + [' ', ','] + (" lots of it" + [' ', '!'] + "")
    ensures "Today we will eat pok [UNK] bowl" + [','] + (" lots of it" + ['!'] + "")
            == "Today we will eat pok [UNK] bowl, lots of it!"
    ensures forall k :: 0 <= k < |"Today we will eat pok [UNK] bowl"| ==> !IsCleanedMark("Today we will eat pok [UNK] bowl"[k])
    ensures forall k :: 0 <= k < |" lots of it"| ==> !IsCleanedMark(" lots of it"[k])
  {
  }

  lemma WordToday()
    ensures JoinWordPieces(["To", "##d", "##ay"]) == "Today"
  {
    JoinWordPiecesWord("To", ["##d", "##ay"]);
    assert ["To"] + ["##d", "##ay"] == ["To", "##d", "##ay"];
    assert ["##d", "##ay"][..1] == ["##d"];
    assert ["##d"][..0] == [];
    assert Glued(["##d"]) == "d";
    assert Glued(["##d", "##ay"]) == "day";
  }


  lemma WordWeWill()
    ensures JoinWordPieces(["we", "will"]) == "we will"
  {
    JoinWordPiecesSnoc(["we"], "will");
    assert ["we"] + ["will"] == ["we", "will"];
  }

  lemma WordEat()
    ensures JoinWordPieces(["e", "##at"]) == "eat"
  {
    JoinWordPiecesWord("e", ["##at"]);
    assert ["e"] + ["##at"] == ["e", "##at"];
    assert ["##at"][..0] == [];
    assert Glued(["##at"]) == "at";
  }


  lemma WordPok()
    ensures JoinWordPieces(["po", "##k"]) == "pok"
  {
    JoinWordPiecesWord("po", ["##k"]);
    assert ["po"] + ["##k"] == ["po", "##k"];
    assert ["##k"][..0] == [];
    assert Glued(["##k"]) == "k";
  }


  lemma WordBowl()
    ensures JoinWordPieces(["bo", "##w", "##l"]) == "bowl"
  {
    JoinWordPiecesWord("bo", ["##w", "##l"]);
    assert ["bo"] + ["##w", "##l"] == ["bo", "##w", "##l"];
    assert ["##w", "##l"][..1] == ["##w"];
    assert ["##w"][..0] == [];
    assert Glued(["##w"]) == "w";
    assert Glued(["##w", "##l"]) == "wl";
  }


  lemma WordLots()
    ensures JoinWordPieces(["lo", "##t", "##s"]) == "lots"
  {
    JoinWordPiecesWord("lo", ["##t", "##s"]);
    assert ["lo"] + ["##t", "##s"] == ["lo", "##t", "##s"];
    assert ["##t", "##s"][..1] == ["##t"];
    assert ["##t"][..0] == [];
    assert Glued(["##t"]) == "t";
    assert Glued(["##t", "##s"]) == "ts";
  }


  lemma WordOfItBang()
    ensures JoinWordPieces(["of", "it", "!"]) == "of it !"
  {
    JoinWordPiecesSnoc(["of"], "it");
    assert ["of"] + ["it"] == ["of", "it"];
    assert JoinWordPieces(["of", "it"]) == "of it";
    JoinWordPiecesSnoc(["of", "it"], "!");
    assert ["of", "it"] + ["!"] == ["of", "it", "!"];
  }

  lemma Row1Prefix1()
    ensures JoinWordPieces(["To", "##d", "##ay", "we", "will"]) == "Today we will"
  {
    var a, b := ["To", "##d", "##ay"], ["we", "will"];
    assert a + b == ["To", "##d", "##ay", "we", "will"];
    WordToday();
    WordWeWill();
    JoinWordPiecesAppend(a, b);
    assert "Today" + " " + "we will" == "Today we will";
  }

  lemma Row1Prefix2()
    ensures JoinWordPieces(["To", "##d", "##ay", "we", "will", "e", "##at"]) == "Today we will eat"
  {
    var a, b := ["To", "##d", "##ay", "we", "will"], ["e", "##at"];
    assert a + b == ["To", "##d", "##ay", "we", "will", "e", "##at"];
    Row1Prefix1();
    WordEat();
    JoinWordPiecesAppend(a, b);
    assert "Today we will" + " " + "eat" == "Today we will eat";
  }

  lemma Row1Prefix3()
    ensures JoinWordPieces(["To", "##d", "##ay", "we", "will", "e", "##at", "po", "##k"]) == "Today we will eat pok"
  {
    var a, b := ["To", "##d", "##ay", "we", "will", "e", "##at"], ["po", "##k"];
    assert a + b == ["To", "##d", "##ay", "we", "will", "e", "##at", "po", "##k"];
    Row1Prefix2();
    WordPok();
    JoinWordPiecesAppend(a, b);
    assert "Today we will eat" + " " + "pok" == "Today we will eat pok";
  }

  lemma Row1Prefix4()
    ensures JoinWordPieces(["To", "##d", "##ay", "we", "will", "e", "##at", "po", "##k", "[UNK]"]) == "Today we will eat pok [UNK]"
  {
    var a, b := ["To", "##d", "##ay", "we", "will", "e", "##at", "po", "##k"], ["[UNK]"];
    assert a + b == ["To", "##d", "##ay", "we", "will", "e", "##at", "po", "##k", "[UNK]"];
    Row1Prefix3();
    JoinWordPiecesAppend(a, b);
    assert "Today we will eat pok" + " " + "[UNK]" == "Today we will eat pok [UNK]";
  }

  lemma Row1Prefix5()
    ensures JoinWordPieces(["To", "##d", "##ay", "we", "will", "e", "##at", "po", "##k", "[UNK]", "bo", "##w", "##l"]) == "Today we will eat pok [UNK] bowl"
  {
    var a, b := ["To", "##d", "##ay", "we", "will", "e", "##at", "po", "##k", "[UNK]"], ["bo", "##w", "##l"];
    assert a + b == ["To", "##d", "##ay", "we", "will", "e", "##at", "po", "##k", "[UNK]", "bo", "##w", "##l"];
    Row1Prefix4();
    WordBowl();
    JoinWordPiecesAppend(a, b);
    assert "Today we will eat pok [UNK]" + " " + "bowl" == "Today we will eat pok [UNK] bowl";
  }

  lemma Row1Prefix6()
    ensures JoinWordPieces(["To", "##d", "##ay", "we", "will", "e", "##at", "po", "##k", "[UNK]", "bo", "##w", "##l", ","]) == "Today we will eat pok [UNK] bowl ,"
  {
    var a, b := ["To", "##d", "##ay", "we", "will", "e", "##at", "po", "##k", "[UNK]", "bo", "##w", "##l"], [","];
    assert a + b == ["To", "##d", "##ay", "we", "will", "e", "##at", "po", "##k", "[UNK]", "bo", "##w", "##l", ","];
    Row1Prefix5();
    JoinWordPiecesAppend(a, b);
    assert "Today we will eat pok [UNK] bowl" + " " + "," == "Today we will eat pok [UNK] bowl ,";
  }

  lemma Row1Prefix7()
    ensures JoinWordPieces(["To", "##d", "##ay", "we", "will", "e", "##at", "po", "##k", "[UNK]", "bo", "##w", "##l", ",", "lo", "##t", "##s"]) == "Today we will eat pok [UNK] bowl , lots"
  {
    var a, b := ["To", "##d", "##ay", "we", "will", "e", "##at", "po", "##k", "[UNK]", "bo", "##w", "##l", ","], ["lo", "##t", "##s"];
    assert a + b == ["To", "##d", "##ay", "we", "will", "e", "##at", "po", "##k", "[UNK]", "bo", "##w", "##l", ",", "lo", "##t", "##s"];
    Row1Prefix6();
    WordLots();
    JoinWordPiecesAppend(a, b);
    assert "Today we will eat pok [UNK] bowl ," + " " + "lots" == "Today we will eat pok [UNK] bowl , lots";
  }

  lemma Row1Prefix8()
    ensures JoinWordPieces(["To", "##d", "##ay", "we", "will", "e", "##at", "po", "##k", "[UNK]", "bo", "##w", "##l", ",", "lo", "##t", "##s", "of", "it", "!"]) == "Today we will eat pok [UNK] bowl , lots of it !"
  {
    var a, b := ["To", "##d", "##ay", "we", "will", "e", "##at", "po", "##k", "[UNK]", "bo", "##w", "##l", ",", "lo", "##t", "##s"], ["of", "it", "!"];
    assert a + b == ["To", "##d", "##ay", "we", "will", "e", "##at", "po", "##k", "[UNK]", "bo", "##w", "##l", ",", "lo", "##t", "##s", "of", "it", "!"];
    Row1Prefix7();
    WordOfItBang();
    JoinWordPiecesAppend(a, b);
    assert "Today we will eat pok [UNK] bowl , lots" + " " + "of it !" == "Today we will eat pok [UNK] bowl , lots of it !";
  }
}
