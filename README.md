# Tokenizer post-processing, encoder bookkeeping and model dispatch of curated-transformers

This project models the integer and sequence bookkeeping around the neural networks of
curated-transformers and of the spaCy experimental torch transformer. It proves properties
of that model in Dafny.

- **RoBERTa tokenizer** (`RobertaTokenization`, `TokenizationUtil`)
  - The post-encoder wraps every sequence in the begin and end markers. It keeps ids,
    pieces and per-word piece counts in step.
  - The pre-decoder strips the marker ids again.
  - Construction fails with a `ValueError` naming a marker piece that is missing from the
    vocabulary.
  - Converting a Hugging Face tokenizer splits every merge rule `"a b"` into its pair.
- **The `PiecesWithIds` batch** (`Tokenizer`)
  - Ids, pieces and lens are parallel.
  - The padded tensor is right-padded with a caller-chosen id.
  - The attention mask is true exactly on the real tokens.
- **BERT tokenizer** (`BertTokenization`, `BertToyEncoding`)
  - The BERT pre-encoder optionally lowercases and strips accents, then isolates
    punctuation.
  - Decoding removes `[CLS]`/`[SEP]`, glues `##` continuation pieces to the piece before
    them, and pulls `.`, `,`, `!`, `?` onto the preceding word.
  - The toy encoding of the tokenizer tests is reproduced exactly: ids, pieces, lens,
    padded tensor, attention mask and decoded texts.
- **Encoders** (`EncoderCommon`, `TorchTransformer`, `RobertaModel`)
  - The default attention mask compares ids with the padding id.
  - Learned position ids are `cumsum(mask) * mask + padding_idx`.
  - Token-type ids default to zeros.
  - The forward loop threads one hidden state through the layers and collects each
    layer's output.
  - Embeddings and layers are opaque functions over an abstract hidden-state type `H`.
  - Both forward passes are `method`s with a `while` loop, proved against the
    specification function `LayerOutputs`.
- **Model dispatch** (`AutoModel`)
  - The model type of a checkpoint is looked up in the table of the auto class.
  - A supported type loads the mapped class with the caller's arguments.
  - An unsupported type raises a `ValueError` that lists the supported keys in table order.

One consequence of the model is worth stating. The toy batch holds the id 1 (`[UNK]`) and
is padded with id 1. Its own attention mask keeps that token. A mask derived from the padded
tensor by comparing with the padding id, as both encoders do when no mask is given, drops it
(`BertToyEncoding.ToyDerivedMaskHidesUnknown`).

The files `curated_transformers/tokenization/util.py` and
`curated_transformers/tokenization/bert_tokenizer.py` are not part of this model.
`remove_pieces_from_sequence`, `add_bos_eos_to_encoding`, the BERT pre-encoder and BERT
decoding are reconstructed from two sources:

- their call sites in `roberta_tokenizer.py`;
- the expected values in `test_bert_tokenizer.py`.

## Model

| member | source | states |
|---|---|---|
| Strings.JoinSplit | curated_transformers/tokenization/roberta_tokenizer.py:132 | joining the fields of `s.split(sep)` with `sep` gives back `s` |
| Strings.SplitJoin | curated_transformers/tokenization/roberta_tokenizer.py:132 | splitting a join of separator-free parts gives back exactly those parts |
| Tokenizer.Valid | curated_transformers/tests/tokenization/test_bert_tokenizer.py:42-116 | the batch invariant: ids, pieces and lens rows are parallel and each lens row sums to the row's piece count; in a valid batch the attention mask marks exactly the positions that hold a piece |
| Tokenizer.MaxLen | curated_transformers/tests/tokenization/test_bert_tokenizer.py:118-173 | the padded width bounds every row and is reached by some row; it is 0 for an empty batch |
| Tokenizer.PaddedTensor | curated_transformers/tests/tokenization/test_bert_tokenizer.py:118-173 | one row per sequence, all of the longest length; each row starts with its ids and holds the padding id everywhere after them |
| Tokenizer.AttentionMask | curated_transformers/tests/tokenization/test_bert_tokenizer.py:174-228 | batch × longest-length shape; entry (i, j) is true iff j is less than the length of sequence i |
| Tokenizer.MaskRecoversIds | curated_transformers/tests/tokenization/test_bert_tokenizer.py:118-228 | the prefix of a padded row as long as the number of true mask entries is exactly that row's ids, for any padding id |
| Tokenizer.AttentionMaskIgnoresIds | curated_transformers/tests/tokenization/test_bert_tokenizer.py:174-228 | two batches with the same row lengths have the same attention mask, whatever their ids |
| TokenizationUtil.RemovePieces | curated_transformers/tokenization/roberta_tokenizer.py:31-35 | no removed id is left; every kept id comes from the input; a sequence without removed ids is unchanged |
| TokenizationUtil.RemovePiecesAppend | curated_transformers/tokenization/roberta_tokenizer.py:31-35 | removal works piecewise over a concatenation, so kept ids keep their relative order |
| TokenizationUtil.RemovePiecesCounts | curated_transformers/tokenization/roberta_tokenizer.py:31-35 | every id outside the removed set keeps its number of occurrences; removed ids have none left |
| TokenizationUtil.AddBosEos | curated_transformers/tokenization/roberta_tokenizer.py:59-66 | every id row, piece row and lens row gets the begin marker first and the end marker last (lens 1 for each), with the original row in between |
| TokenizationUtil.AddBosEosValid | curated_transformers/tokenization/roberta_tokenizer.py:59-66 | wrapping keeps ids, pieces and lens parallel, with lens summing to the piece count |
| TokenizationUtil.StripWrapped | curated_transformers/tokenization/roberta_tokenizer.py:31-66 | removing the markers from a wrapped marker-free sequence gives it back |
| RobertaTokenization.MissingPieceMessage | curated_transformers/tokenization/roberta_tokenizer.py:146-148 | the error text is the fixed opening words followed by the missing piece between single quotes and the word "piece" |
| RobertaTokenization.GetPieceIdOrFail | curated_transformers/tokenization/roberta_tokenizer.py:143-149 | succeeds iff the piece is in the vocabulary, with exactly its id; otherwise a ValueError naming the piece |
| RobertaTokenization.PreDecode | curated_transformers/tokenization/roberta_tokenizer.py:31-35 | one id list per input sequence; no marker id is left; a marker-free sequence (including the empty one) is unchanged |
| RobertaTokenization.PreDecodeKeepsOthers | curated_transformers/tokenization/roberta_tokenizer.py:31-35 | pre-decoding works piecewise over a split of a sequence and keeps the count of every non-marker id |
| RobertaTokenization.PostEncode | curated_transformers/tokenization/roberta_tokenizer.py:59-66 | a valid batch stays valid; every id row starts with bos_id and ends with eos_id, and every piece row starts with bos_piece and ends with eos_piece |
| RobertaTokenization.NewRobertaTokenizer | curated_transformers/tokenization/roberta_tokenizer.py:70-100 | succeeds iff both marker pieces are in the vocabulary; the begin marker is checked first and its error wins; pre-decoder and post-encoder share the resolved ids |
| RobertaTokenization.PreDecodeUndoesPostEncode | curated_transformers/tokenization/roberta_tokenizer.py:31-66 | for a constructed tokenizer, pre-decoding post-encoded marker-free ids gives back the original ids |
| RobertaTokenization.SplitMerge | curated_transformers/tokenization/roberta_tokenizer.py:132 | the split merge joins back with a space to the serialized merge |
| RobertaTokenization.SplitMergePair | curated_transformers/tokenization/roberta_tokenizer.py:132 | a merge `"a b"` of space-free pieces becomes exactly the pair `[a, b]` |
| RobertaTokenization.ConvertHfTokenizer | curated_transformers/tokenization/roberta_tokenizer.py:128-140 | the tokenizer is built from the same vocabulary and marker tokens, with one split merge per serialized merge, in order |
| BertTokenization.Decompose | curated_transformers/tests/tokenization/test_bert_tokenizer.py:238 | NFD: a base character followed only by combining marks; ASCII characters are left alone |
| BertTokenization.DropMarks | curated_transformers/tests/tokenization/test_bert_tokenizer.py:238 | no combining mark is left, no other character is added and the result is no longer than the input; mark-free text is unchanged |
| BertTokenization.DropMarksAppend | curated_transformers/tests/tokenization/test_bert_tokenizer.py:238 | dropping marks works piecewise over a concatenation, so the surviving characters keep their order |
| BertTokenization.DropMarksCounts | curated_transformers/tests/tokenization/test_bert_tokenizer.py:238 | every character other than a combining mark keeps its number of occurrences; combining marks have none left |
| BertTokenization.DropMarksOfDecomposition | curated_transformers/tests/tokenization/test_bert_tokenizer.py:238 | a base character followed only by combining marks reduces to the base character |
| BertTokenization.StripAccents | curated_transformers/tests/tokenization/test_bert_tokenizer.py:238 | the result holds no combining mark, adds no space, leaves ASCII text unchanged, and is empty for text made only of combining marks |
| BertTokenization.StripAccentsBaseLetters | curated_transformers/tests/tokenization/test_bert_tokenizer.py:238 | on text without combining marks, stripping keeps the length and replaces every character by the base character of its decomposition (ö by o, é by e) |
| BertTokenization.StripAccentsIgnoresMarks | curated_transformers/tests/tokenization/test_bert_tokenizer.py:238 | combining marks already in the input are dropped: stripping a text is stripping the text without its marks |
| BertTokenization.StripAccentsOfAnyText | curated_transformers/tests/tokenization/test_bert_tokenizer.py:238 | for any text, the result is its characters other than combining marks, in order, each replaced by the base character of its decomposition |
| BertTokenization.Lower | curated_transformers/tests/tokenization/test_bert_tokenizer.py:232 | lowercasing keeps the length; every upper-case letter becomes the corresponding lower-case letter, no upper-case letter is left, and every other character is unchanged |
| BertTokenization.Normalize | curated_transformers/tests/tokenization/test_bert_tokenizer.py:232 | normalization adds no space and maps the empty word to itself |
| BertTokenization.SplitOnPunctuation | curated_transformers/tests/tokenization/test_bert_tokenizer.py:233-239 | a non-empty token gives non-empty groups ending in the token's last character |
| BertTokenization.SplitOnPunctuationSound | curated_transformers/tests/tokenization/test_bert_tokenizer.py:233-239 | the groups spell out the token in order, and every group is a single punctuation mark or free of punctuation |
| BertTokenization.SplitOnPunctuationConcat | curated_transformers/tests/tokenization/test_bert_tokenizer.py:233-239 | splitting the concatenation of canonical groups gives back exactly those groups |
| BertTokenization.SplitOnPunctuationCanonical | curated_transformers/tests/tokenization/test_bert_tokenizer.py:233-239 | the split is canonical: no two punctuation-free groups are adjacent; with SplitOnPunctuationConcat it is the only canonical grouping that spells the token |
| BertTokenization.PreEncode | curated_transformers/tests/tokenization/test_bert_tokenizer.py:231-239 | one output per input text, in order, and the empty text maps to the empty text; the content of each output is fixed by PreEncodeFields |
| BertTokenization.PreEncodeIsolatesPunctuation | curated_transformers/tests/tokenization/test_bert_tokenizer.py:233-239 | every space-separated word of the output is non-empty and is a lone punctuation mark or punctuation-free; no leading or trailing space |
| BertTokenization.PreEncodeField | curated_transformers/tests/tokenization/test_bert_tokenizer.py:233-239 | a space-free text whose normalized form is the concatenation of canonical groups becomes those groups joined by single spaces |
| BertTokenization.WordsOfFields | curated_transformers/tests/tokenization/test_bert_tokenizer.py:231-239 | the words of a text are, field by field and in order, the canonical groups of each normalized field |
| BertTokenization.PreEncodeFields | curated_transformers/tests/tokenization/test_bert_tokenizer.py:231-239 | any text, written as its space-separated fields, becomes the canonical punctuation groups of every normalized field, in field order, joined by single spaces; empty fields contribute no word |
| BertTokenization.PreEncoderExampleInnerHyphen | curated_transformers/tests/tokenization/test_bert_tokenizer.py:233 | "AWO-Mitarbeiter" becomes "AWO - Mitarbeiter" |
| BertTokenization.PreEncoderExampleLeadingHyphen | curated_transformers/tests/tokenization/test_bert_tokenizer.py:234 | "-Mitarbeiter" becomes "- Mitarbeiter" |
| BertTokenization.PreEncoderExampleTrailingHyphen | curated_transformers/tests/tokenization/test_bert_tokenizer.py:235 | "AWO-" becomes "AWO -" with no trailing space |
| BertTokenization.PreEncoderExampleLoneHyphenAndEmpty | curated_transformers/tests/tokenization/test_bert_tokenizer.py:236-237 | "-" stays "-" and "" stays "" |
| BertTokenization.PreEncoderExampleUmlaut | curated_transformers/tests/tokenization/test_bert_tokenizer.py:238 | with accent stripping, "Brötchen" becomes "Brotchen" |
| BertTokenization.PreEncoderExamplePeriods | curated_transformers/tests/tokenization/test_bert_tokenizer.py:239 | "Mw.-St." becomes "Mw . - St ." |
| BertTokenization.JoinWordPieces | curated_transformers/tests/tokenization/test_bert_tokenizer.py:31-34 | a single piece decodes to itself; the general rule is JoinWordPiecesWord |
| BertTokenization.JoinWordPiecesWord | curated_transformers/tests/tokenization/test_bert_tokenizer.py:31-34 | a piece followed by continuation pieces decodes to the piece with every continuation glued on, in order, without its `##`; with JoinWordPiecesAppend this fixes decoding word by word |
| BertTokenization.JoinWordPiecesPlain | curated_transformers/tests/tokenization/test_bert_tokenizer.py:31-34 | without continuation pieces, decoding joins the pieces with single spaces |
| BertTokenization.JoinWordPiecesAppend | curated_transformers/tests/tokenization/test_bert_tokenizer.py:31-34 | a run of pieces starting a new word decodes after a single space, so words decode independently |
| BertTokenization.CleanUp | curated_transformers/tests/tokenization/test_bert_tokenizer.py:31-34 | the clean-up never lengthens the text |
| BertTokenization.CleanUpRemovesOnlySpaces | curated_transformers/tests/tokenization/test_bert_tokenizer.py:31-34 | the clean-up removes only spaces: the non-space characters are the same, in order |
| BertTokenization.CleanUpWithoutMarks | curated_transformers/tests/tokenization/test_bert_tokenizer.py:31-34 | text without the marks `. , ! ?` is left unchanged |
| BertTokenization.CleanUpMarkAfterWords | curated_transformers/tests/tokenization/test_bert_tokenizer.py:31-34 | the space before a mark that follows mark-free words is dropped |
| BertTokenization.IdsToPieces | curated_transformers/tests/tokenization/test_bert_tokenizer.py:31-34 | defined iff every id is in the vocabulary, and then each piece is that id's vocabulary entry |
| BertTokenization.Decode | curated_transformers/tests/tokenization/test_bert_tokenizer.py:31-34 | decoding succeeds iff every id other than [CLS]/[SEP] is in the vocabulary |
| BertTokenization.DecodeWrapped | curated_transformers/tests/tokenization/test_bert_tokenizer.py:31-34 | decoding a [CLS]…[SEP]-wrapped marker-free sequence gives the cleaned word-piece join of its pieces |
| BertToyEncoding.ToyEncodingIsWrapped | curated_transformers/tests/tokenization/test_bert_tokenizer.py:42-116 | the golden ids, pieces and lens are the inner encoding wrapped in [CLS] (id 2) and [SEP] (id 3) |
| BertToyEncoding.ToyEncodingValid | curated_transformers/tests/tokenization/test_bert_tokenizer.py:37-116 | in the golden batch ids, pieces and lens are parallel; every row starts with [CLS]/2/lens 1 and ends with [SEP]/3/lens 1 |
| BertToyEncoding.ToyInnerValid | curated_transformers/tests/tokenization/test_bert_tokenizer.py:42-116 | the unwrapped rows are parallel and their lens sum to the piece counts 14 and 20 |
| BertToyEncoding.ToyPaddedTensor | curated_transformers/tests/tokenization/test_bert_tokenizer.py:118-173 | the padded tensor with padding id 1 is exactly the golden 2×22 matrix |
| BertToyEncoding.ToyAttentionMask | curated_transformers/tests/tokenization/test_bert_tokenizer.py:174-228 | the mask is 16 trues then 6 falses, then 22 trues, including the [UNK] position whose id equals the padding id |
| BertToyEncoding.ToyDerivedMaskHidesUnknown | curated_transformers/tests/tokenization/test_bert_tokenizer.py:118-228 | a mask derived from the padded tensor by comparing with padding id 1 is 0 at that [UNK] position, where the batch mask is true |
| BertToyEncoding.ToyDecode | curated_transformers/tests/tokenization/test_bert_tokenizer.py:27-34 | with a vocabulary matching the pieces, the two rows decode to "I saw a girl with a telescope." and "Today we will eat pok [UNK] bowl, lots of it!" |
| EncoderCommon.CreateAttentionMask | spacy_experimental/transformers/models/torch_transformer/encoder.py:76-77 | the mask has the shape of the ids and is 1 exactly where the id differs from the padding id and 0 elsewhere; the RoBERTa encoder's mask (curated_transformers/models/roberta/encoder.py:30-31) is the same |
| EncoderCommon.DerivedMaskMatchesBatchMask | spacy_experimental/transformers/models/torch_transformer/encoder.py:76-77 | on a padded batch, the derived mask is 1 iff the batch mask is true and the id is not the padding id |
| EncoderCommon.EffectiveMask | spacy_experimental/transformers/models/torch_transformer/encoder.py:106-107 | the caller's mask when given; otherwise a mask of the input's shape that is 1 exactly where the id differs from the padding id; the RoBERTa encoder does the same (curated_transformers/models/roberta/encoder.py:48-49) |
| EncoderCommon.LayerOutputs | spacy_experimental/transformers/models/torch_transformer/encoder.py:123-128 | one output per layer; the first layer gets the input and layer k gets output k-1, always with the same mask |
| EncoderCommon.LayerOutputIsComposition | spacy_experimental/transformers/models/torch_transformer/encoder.py:123-128 | output k is the first k+1 layers applied in order to the input |
| EncoderCommon.RunLayers | spacy_experimental/transformers/models/torch_transformer/encoder.py:123-128 | the loop that reassigns the layer output and appends it collects exactly the per-layer outputs |
| TorchTransformer.CumSumAt | spacy_experimental/transformers/models/torch_transformer/encoder.py:86 | entry j of the running sum is the sum of entries 0..j |
| TorchTransformer.PositionIds | spacy_experimental/transformers/models/torch_transformer/encoder.py:85-86 | position ids have the shape of the input |
| TorchTransformer.MaskSumCountsTokens | spacy_experimental/transformers/models/torch_transformer/encoder.py:85-86 | summing a prefix of a mask row counts the non-padding ids in that prefix |
| TorchTransformer.PositionIdAt | spacy_experimental/transformers/models/torch_transformer/encoder.py:85-86 | a padding position gets padding_idx; a real token at j gets padding_idx plus the number of real tokens in positions 0..j |
| TorchTransformer.SuccessivePositions | spacy_experimental/transformers/models/torch_transformer/encoder.py:85-86 | successive real tokens of a row, with only padding between them, get position ids that differ by exactly 1 |
| TorchTransformer.LeftPaddingInvariant | spacy_experimental/transformers/models/torch_transformer/encoder.py:85-86 | left padding does not shift positions: the tokens keep their unpadded position ids and the padding gets padding_idx |
| TorchTransformer.FirstRealTokenPosition | spacy_experimental/transformers/models/torch_transformer/encoder.py:85-86 | the first real token of a row gets padding_idx + 1, however much padding precedes it |
| TorchTransformer.PositionIdsBounds | spacy_experimental/transformers/models/torch_transformer/encoder.py:85-86 | a padding position gets padding_idx; a real token at position j gets an id above padding_idx and at most padding_idx + j + 1 |
| TorchTransformer.Zeros | spacy_experimental/transformers/models/torch_transformer/encoder.py:113-115 | all-zero ids of the input's shape |
| TorchTransformer.TransformerEncoderOutput.LastHiddenOutput | spacy_experimental/transformers/models/torch_transformer/encoder.py:16-18 | defined iff there is a layer output, and then it is the last one |
| TorchTransformer.TransformerEncoder.TokenTypeIds | spacy_experimental/transformers/models/torch_transformer/encoder.py:111-116 | the caller's token-type ids when given, else zeros of the input's shape |
| TorchTransformer.TransformerEncoder.PositionInput | spacy_experimental/transformers/models/torch_transformer/encoder.py:79-89 | the position embeddings see the ids themselves unless positions are learned; learned position ids have the input's shape, keep padding_idx on padding and lie between padding_idx + 1 and padding_idx + j + 1 on a real token at j |
| TorchTransformer.TransformerEncoder.EmbeddingSum | spacy_experimental/transformers/models/torch_transformer/encoder.py:109-122 | the normalized sum of the input and position embeddings, plus the token-type embeddings only when the encoder has them, of the caller's token types or else of zeros |
| TorchTransformer.TransformerEncoder.Forward | spacy_experimental/transformers/models/torch_transformer/encoder.py:91-132 | the embedding sum is input + token-type + position embeddings, normalized; the layer outputs are `LayerOutputs` from it with the caller's mask or, without one, the padding mask; one output per layer |
| TorchTransformer.NewTransformerEncoder | spacy_experimental/transformers/models/torch_transformer/encoder.py:22-74 | n_layers layers in order; type embeddings exist iff type_vocab_size > 0; padding id and position-embedding kind as given, defaulting to padding_idx 0, type_vocab_size 0 and fixed position embeddings as in the source |
| TorchTransformer.LastHiddenOutputIsStack | spacy_experimental/transformers/models/torch_transformer/encoder.py:16-18 | with at least one layer, the last hidden output is all layers applied in order to the embedding sum |
| RobertaModel.RobertaEncoder.Forward | curated_transformers/models/roberta/encoder.py:33-61 | the embedding output is the embeddings of the ids and token types; the hidden states are `LayerOutputs` from it with the caller's mask or, without one, the padding mask; one state per layer |
| RobertaModel.NewRobertaEncoder | curated_transformers/models/roberta/encoder.py:15-28 | padding id and maximum length come from the configuration; num_hidden_layers layers of the plain or the quantized kind, in order |
| RobertaModel.QuantizedDiffersOnlyInLayers | curated_transformers/models/roberta/encoder.py:15-28 | the quantized encoder equals the plain one built from the same configuration except for its layer kind and layers; both stacks have num_hidden_layers layers, layer k of each being layer k of its kind (lines 64-78 for the quantized class) |
| AutoModel.Get | curated_transformers/util/auto_model.py:64 | `get` finds a class iff the key is one of the table's keys |
| AutoModel.GetReturnsEntry | curated_transformers/util/auto_model.py:64 | a class found for a key is stored in the table under that key |
| AutoModel.GetFindsEntry | curated_transformers/util/auto_model.py:64 | in a table with distinct keys, `get` on an entry's key returns that entry's class |
| AutoModel.QuotedKeysAppend | curated_transformers/util/auto_model.py:68 | the key list is the quoted keys in table order separated by ", " |
| AutoModel.TupleRepr | curated_transformers/util/auto_model.py:68 | the tuple text is parenthesised, and a one-key tuple keeps its trailing comma |
| AutoModel.UnsupportedMessage | curated_transformers/util/auto_model.py:66-69 | the message names the model type between backticks, then the auto class, and ends with the tuple text of the table's keys |
| AutoModel.InstantiateModuleFromHfHub | curated_transformers/util/auto_model.py:55-74 | succeeds iff the configured model type is a table key, loading the class stored under it with name, revision, device and quantization config unchanged; otherwise a ValueError naming the type and the auto class and listing the table's keys, with nothing loaded |
| AutoModel.AutoEncoderFromHfHub | curated_transformers/util/auto_model.py:88-101 | succeeds iff the type is bert, albert, camembert, roberta or xlm-roberta; the result is an encoder module loaded with the caller's arguments (revision "main" by default) |
| AutoModel.AutoDecoderFromHfHub | curated_transformers/util/auto_model.py:114-127 | succeeds iff the type is gpt_neox, llama, RefinedWeb or RefinedWebModel; the result is a decoder module loaded with the caller's arguments |
| AutoModel.AutoCausalLMFromHfHub | curated_transformers/util/auto_model.py:140-153 | succeeds iff the type is gpt_neox, llama, RefinedWeb or RefinedWebModel; the result is a causal-LM module loaded with the caller's arguments |
| AutoModel.EncoderTable | curated_transformers/util/auto_model.py:80-86 | the encoder table has distinct keys and maps only to encoder modules |
| AutoModel.DecoderTable | curated_transformers/util/auto_model.py:107-112 | the decoder table has distinct keys and maps only to decoder modules |
| AutoModel.CausalLMTable | curated_transformers/util/auto_model.py:133-138 | the causal-LM table has distinct keys and maps only to causal-LM modules |
| AutoModel.EncoderTableKeys | curated_transformers/util/auto_model.py:80-86 | the encoder table has exactly the keys bert, albert, camembert, roberta, xlm-roberta, in that order, each once, all mapping to encoder modules |
| AutoModel.DecoderTablesKeys | curated_transformers/util/auto_model.py:107-138 | the decoder and causal-LM tables have the same four keys in the same order, each once, mapping to decoder and causal-LM modules respectively |
| AutoModel.RefinedWebAliases | curated_transformers/util/auto_model.py:107-138 | "RefinedWeb" and "RefinedWebModel" resolve to the same class in both tables |
| AutoModel.EncoderKeysRepr | curated_transformers/util/auto_model.py:68 | the encoder error lists `('bert', 'albert', 'camembert', 'roberta', 'xlm-roberta')` |
| AutoModel.UnsupportedEncoderExample | curated_transformers/util/auto_model.py:63-69 | a checkpoint of type gpt2 makes the encoder auto class fail with "Unsupported model type `gpt2` for AutoEncoder. Supported model types: ('bert', …, 'xlm-roberta')" |

## Left out

- Hub access is modelled only through parameters. `get_hf_config_model_type` is a function parameter from name and revision to the model type. `from_hf_hub` of the resolved class is represented by the request it receives. Downloading and weight loading are not modelled.
- Tokenizer I/O is not modelled: `RobertaTokenizer.from_files` and the JSON serialization behind `convert_hf_tokenizer`. The byte-level BPE processor is only its vocabulary map and merge list.
- The BPE and WordPiece splitting algorithms are not modelled. The toy encoding is taken from the golden test data rather than computed.
- The numerics are not modelled: embeddings, layer norm, dropout, attention and sinusoidal position embeddings. Each is an opaque function over an abstract hidden-state type.
- The parity tests against Hugging Face and the BERT encoder test are not modelled: they compare floating-point tensors on devices.
- `LLaMACausalLM`, the KV cache and the generation interface of `generation/hf_hub.py` are not modelled. They hold no index logic.
- TokenizationUtil.RemovePieces: reconstructed from its call site and from decoding the golden data, because its source is not part of this model.
- TokenizationUtil.AddBosEos: reconstructed from its call site and from the golden [CLS]/[SEP] data, for the same reason.
- BertTokenization.IsPunctuation: punctuation is ASCII punctuation only, not the Unicode punctuation categories.
- BertTokenization.Lower: lowercasing is ASCII only.
- BertTokenization.PreEncode: words are separated by the space character U+0020 only. Python's whitespace split would also split at tabs, newlines and other Unicode whitespace; the model keeps such characters inside a word (`"a\tb"` stays `"a\tb"`).
- BertTokenization.IsCombiningMark: a combining mark is a character of the block U+0300..U+036F. Other characters of the Unicode category Mn are not recognised as marks, so accent stripping keeps them.
- BertTokenization.Decompose: covers only a small table of accented Latin letters (umlauts, grave and acute accents, ñ, ç). Other characters are treated as having no decomposition.
- BertTokenization.CleanUp: the decoder's clean-up is reconstructed from the golden decoded texts. It drops a space before `.`, `,`, `!` or `?` and does nothing else. Other clean-up rules the real decoder may apply are not modelled.
- BertTokenization.JoinWordPieces: a continuation piece at the very start of a sequence is kept whole, with its `##`, because the golden data does not fix that case.
- Tokenizer.PaddedTensor: the int32 dtype is not modelled; ids are unbounded integers. An empty batch gives an empty tensor, because the source's behaviour on an empty batch is not part of this model.
- TorchTransformer.TransformerEncoderOutput.LastHiddenOutput: Python raises `IndexError` when there are no layer outputs; the model returns `None` instead.
- RobertaModel.RobertaEncoder.Forward: `QuantizedRobertaEncoder` is the same datatype with a layer-kind flag rather than a separate class. Its quantized layers are opaque like the plain ones.
- AutoModel.QuotedKeysAppend: a key is quoted as `'key'`. Python's `repr` switches to double quotes and escapes for keys containing quotes or backslashes; no table key contains one.
- The encoders are datatypes whose forward pass is a method. Neither `TransformerEncoder` nor `RobertaEncoder` changes its fields after construction, so there is no mutable state to model.
