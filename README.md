# FUNSD end-to-end IE labels and layer-wise AdamW decay, in Dafny

This project models two pieces of the VIMER repository and proves properties about them.

The first piece is how the StrucTexT v2 end-to-end information-extraction dataset builds its training labels from FUNSD annotations:

- the fixed vocabularies (`TEXT_CLASSES` and `Lexicon_Table_95`);
- the `LabelConverter` (token tables, `encode`, and `decode` in CE and CTC modes);
- `_bbox2poly`;
- the FUNSD record parser `_parse_ann_info_funsd`, working on already-parsed records;
- the stable sort of entries by box centre;
- the label assembly of `_convert_examples`;
- the image-name rule of `_read_data`.

The second piece is the layer-wise learning-rate decay used by the CAE segmentation trainer:

- `layerwise_lr_decay`;
- the `AdamWDL` optimizer's type check, and its save, rescale and restore of a parameter's learning rate around each update step;
- `create_optimizer`: the weight-decay mask, the teacher filter, the `name_dict` table and the constants it passes.

Python behaviour is modelled explicitly:

- exceptions are `PyError` values carried in a `Result`;
- `str.find`, `in`, slicing with negative bounds, `split`, `replace`, ASCII `upper`, `int()` (white space, sign, underscores), `os.path.basename` and `os.path.join` are written out in module `PyStr`;
- a dictionary filled pair by pair is `Dicts.LastWins`, where a later key overrides an earlier one.

Module by module:

- `Lexicon`, `LabelCodec` and `LabelFacts` model the converter. `LabelCodec.LabelConverter` is a class. Its `Encode` and `Decode` methods (the CTC collapse is a loop) are proved equal to the specification functions `EncodeSpec` and `DecodeSpec`. `LabelFacts` proves what those functions promise.
- `Annotation` models the parser. `ParseAnnInfoFunsd` is the nested loop over records and words. It is proved equal to a step-wise specification, which is in turn proved equal to a loop-free reference.
- `BoxOrder` models the sort.
- `DatasetLabels` models `_convert_examples` and the image name.
- `LayerDecay` models `layerwise_lr_decay` and `AdamWDL`. Parameters are objects whose learning rate is updated in place.
- `OptimizerFactory` models `create_optimizer`.

A learning rate is kept as the product it denotes (`LayerDecay.Lr`), not as a float.

## Model

| member | source | states |
|---|---|---|
| Lexicon.Lexicon95IsPrintableAscii | StrucTexT/v2/src/tasks/end2end_ie/dataset.py:35-40 | The 95-entry lexicon is exactly the printable ASCII characters 33..126 followed by the space. |
| Lexicon.InLexiconIffPrintable | StrucTexT/v2/src/tasks/end2end_ie/dataset.py:35-40 | A character is in the lexicon if and only if it lies between space and tilde. |
| Lexicon.Lexicon95Distinct | StrucTexT/v2/src/tasks/end2end_ie/dataset.py:35-40 | The lexicon has 95 pairwise distinct characters. |
| Lexicon.UpperStaysInLexicon | StrucTexT/v2/src/tasks/end2end_ie/dataset.py:35-40 | Upper-casing a lexicon character gives a lexicon character. |
| Lexicon.IndexMapRoundTrip | StrucTexT/v2/src/tasks/end2end_ie/dataset.py:57-59 | For any table, looking an entry up in char2idx and indexing idx2char with the result gives the entry back. |
| Lexicon.IndexMapKeys | StrucTexT/v2/src/tasks/end2end_ie/dataset.py:57-59 | The keys of char2idx are exactly the entries of idx2char. |
| Lexicon.IndexMapOfDistinct | StrucTexT/v2/src/tasks/end2end_ie/dataset.py:57-59 | With distinct entries, char2idx maps idx2char[i] back to i for every index. |
| Lexicon.DefaultTableFacts | StrucTexT/v2/src/tasks/end2end_ie/dataset.py:50-59 | The default table has 97 distinct entries; `[PAD]` maps to 0, `[STOP]` to 1, and every index maps back to itself. |
| Lexicon.FilterLexicon | StrucTexT/v2/src/tasks/end2end_ie/dataset.py:146 | The filtered transcript holds only lexicon characters, keeps every lexicon character of the input, and is no longer. |
| Lexicon.FilterLexiconOne | StrucTexT/v2/src/tasks/end2end_ie/dataset.py:146 | A single character is kept exactly when it is in the lexicon. |
| Lexicon.FilterLexiconAppend | StrucTexT/v2/src/tasks/end2end_ie/dataset.py:146 | Filtering distributes over concatenation. Together with FilterLexiconOne this fixes the result: the kept characters in their input order, with their repetitions. |
| Lexicon.FilterLexiconKeeps | StrucTexT/v2/src/tasks/end2end_ie/dataset.py:146 | Filtering leaves a lexicon-only text unchanged. |
| LabelCodec.ReservedTokensIndexed | StrucTexT/v2/src/tasks/end2end_ie/dataset.py:53-59 | Both reserved tokens are keys of char2idx, whatever lexicon is given. |
| LabelCodec.Tokens | StrucTexT/v2/src/tasks/end2end_ie/dataset.py:69-72 | The token list has one token per character of the transcript ("" when ignored), then `[STOP]`. |
| LabelCodec.LookupAll | StrucTexT/v2/src/tasks/end2end_ie/dataset.py:73 | The lookup succeeds if and only if every token is a key. It then gives each token's index in order; otherwise it raises KeyError naming a missing token. |
| LabelCodec.Fit | StrucTexT/v2/src/tasks/end2end_ie/dataset.py:74-80 | The first result has length seq_len. It is the raw indices followed by pad indices when they fit, and Python's `text_idx[:seq_len]` (negative seq_len included) when they do not. |
| LabelCodec.EncodeSpec | StrucTexT/v2/src/tasks/end2end_ie/dataset.py:61-82 | encode fails only with KeyError. On success the raw list has one index per token (each upper-cased character, then `[STOP]`), and the padded list has length seq_len when seq_len >= 0. The full shape and the failure condition are EncodeShape and EncodeFailsIff. |
| LabelCodec.PadOrTruncate | StrucTexT/v2/src/tasks/end2end_ie/dataset.py:74-80 | The buffer filled in place (`[PAD] * seq_len`, then the slice assignment) equals `Fit`. |
| LabelCodec.FitPadded | StrucTexT/v2/src/tasks/end2end_ie/dataset.py:74-80 | A buffer holding the raw indices and then only pad indices is the padded result. |
| LabelCodec.IndexAll | StrucTexT/v2/src/tasks/end2end_ie/dataset.py:92 | Looking up idx2char for every index succeeds if and only if each index is in Python's range -len..len-1. Each looked-up entry is what Python indexing gives, negative indices counting from the end; otherwise IndexError is raised. |
| LabelCodec.KeptPositions | StrucTexT/v2/src/tasks/end2end_ie/dataset.py:94-97 | The CTC survivors are the positions that are non-zero and differ from their predecessor, listed in increasing order. |
| LabelCodec.Collapse | StrucTexT/v2/src/tasks/end2end_ie/dataset.py:94-97 | The collapsed sequence is no longer than the input prefix. |
| LabelCodec.CollapseKept | StrucTexT/v2/src/tasks/end2end_ie/dataset.py:94-97 | The collapsed sequence is the input at exactly the surviving positions. No survivor is 0 or equal to the input element before it. |
| LabelCodec.CutAtStop | StrucTexT/v2/src/tasks/end2end_ie/dataset.py:100-101 | The cut text is a prefix without `[STOP]`. It is the whole text when `[STOP]` is absent, and otherwise ends where the first `[STOP]` begins. |
| LabelCodec.DecodeSpec | StrucTexT/v2/src/tasks/end2end_ie/dataset.py:84-102 | decode succeeds only in CE or CTC mode and never returns a text containing `[STOP]`. Its only errors are IndexError (an index out of range) and UnboundLocalError (an unknown mode). The round trip is CERoundTrip, and the CTC agreement is CTCAgreesWithCE. |
| LabelCodec.LabelConverter.constructor | StrucTexT/v2/src/tasks/end2end_ie/dataset.py:44-59 | The converter keeps seq_len and recg_loss. idx2char is the reserved tokens plus the given lexicon (Lexicon_Table_95 when None), and char2idx is built entry by entry. |
| LabelCodec.LabelConverter.Encode | StrucTexT/v2/src/tasks/end2end_ie/dataset.py:61-82 | encode returns the padded and raw index lists of `EncodeSpec`, or its KeyError. |
| LabelCodec.LabelConverter.Decode | StrucTexT/v2/src/tasks/end2end_ie/dataset.py:84-102 | decode (CE join, CTC collapse loop, cut at `[STOP]`) returns `DecodeSpec`: the text, IndexError, or UnboundLocalError for an unknown mode. |
| LabelFacts.EncodeFailsIff | StrucTexT/v2/src/tasks/end2end_ie/dataset.py:69-73 | encode fails if and only if some upper-cased character is not a table entry, and the KeyError names such a character. |
| LabelFacts.EncodeShape | StrucTexT/v2/src/tasks/end2end_ie/dataset.py:69-82 | For any table: the raw list has one index per character plus a final `[STOP]` index, and each index names its own token. The padded list has length seq_len: the raw list plus `[PAD]` indices, or its prefix. |
| LabelFacts.ReservedIndicesFixed | StrucTexT/v2/src/tasks/end2end_ie/dataset.py:53-59 | `[PAD]` is 0 and `[STOP]` is 1 unless the lexicon itself repeats them. |
| LabelFacts.DefaultEntry | StrucTexT/v2/src/tasks/end2end_ie/dataset.py:50-59 | A one-character string is in the default table if and only if it is a lexicon character, and then its index is at least 2. |
| LabelFacts.DefaultEncodeSucceedsIff | StrucTexT/v2/src/tasks/end2end_ie/dataset.py:69-73 | With the default table, encode succeeds if and only if every upper-cased character is printable ASCII. |
| LabelFacts.LexiconTextEncodes | StrucTexT/v2/src/tasks/end2end_ie/dataset.py:69-73 | A lexicon-only transcript always encodes with the default table. |
| LabelFacts.DefaultEncodeShape | StrucTexT/v2/src/tasks/end2end_ie/dataset.py:61-82 | With the default table, characters get indices of at least 2, the raw list ends with 1, and padding is 0. A truncated padded list has no 1. |
| LabelFacts.DefaultIgnoredText | StrucTexT/v2/src/tasks/end2end_ie/dataset.py:69-82 | An ignored transcript encodes as raw `[1]`, and padded `[1]` followed by zeros (empty when seq_len is 0). |
| LabelFacts.CEDecodePadded | StrucTexT/v2/src/tasks/end2end_ie/dataset.py:84-102 | CE-decoding the padded encoding of a transcript that fits gives the upper-cased transcript cut at its first `[STOP]`. |
| LabelFacts.CEDecodeRaw | StrucTexT/v2/src/tasks/end2end_ie/dataset.py:84-102 | The same holds for the raw encoding, whatever seq_len is. |
| LabelFacts.CERoundTrip | StrucTexT/v2/src/tasks/end2end_ie/dataset.py:61-102 | decode(encode(text)) is text.upper() when the upper-cased transcript holds no `[STOP]` and fits in seq_len. |
| LabelFacts.StopInTextBreaksRoundTrip | StrucTexT/v2/src/tasks/end2end_ie/dataset.py:100-101 | When the upper-cased transcript holds `[STOP]`, no index list decodes to it, in CE or CTC mode. |
| LabelFacts.EmbeddedStopCutsText | StrucTexT/v2/src/tasks/end2end_ie/dataset.py:61-102 | A transcript `a + "[stop]" + b` decodes to `a.upper()` alone. |
| LabelFacts.CEDecodeTruncated | StrucTexT/v2/src/tasks/end2end_ie/dataset.py:76-102 | A transcript that does not fit decodes to its first seq_len upper-cased characters, cut at `[STOP]`. |
| LabelFacts.DecodeNeverStop | StrucTexT/v2/src/tasks/end2end_ie/dataset.py:91-102 | A decoded text never contains `[STOP]`; a mode other than CE or CTC raises UnboundLocalError. |
| LabelFacts.CEDecodeFailsIff | StrucTexT/v2/src/tasks/end2end_ie/dataset.py:91-92 | CE decoding fails if and only if some index is outside Python's list range. |
| LabelFacts.CollapseNoOp | StrucTexT/v2/src/tasks/end2end_ie/dataset.py:94-97 | Input without blanks or repeats is left unchanged by the CTC collapse. |
| LabelFacts.CTCAgreesWithCE | StrucTexT/v2/src/tasks/end2end_ie/dataset.py:91-98 | On such input, CTC and CE decoding agree. |
| LabelFacts.CollapseIsSubsequence | StrucTexT/v2/src/tasks/end2end_ie/dataset.py:94-97 | The collapsed sequence is a subsequence of the input: the k-th survivor comes from position k or later. |
| Annotation.Bbox2Poly | StrucTexT/v2/src/tasks/end2end_ie/dataset.py:123-126 | The polygon exists if and only if the box has four numbers (IndexError otherwise). It is axis-aligned, with corners equal to the box. |
| Annotation.Bbox2PolyOfCorners | StrucTexT/v2/src/tasks/end2end_ie/dataset.py:123-126 | An axis-aligned polygon is recovered from its corners. |
| Annotation.ParseAnnInfoFunsd | StrucTexT/v2/src/tasks/end2end_ie/dataset.py:129-157 | The record and word loops return `ParseAnnInfo`: the errors of the first malformed record, None, or the line and word lists. |
| Annotation.ParseAnnInfo | StrucTexT/v2/src/tasks/end2end_ie/dataset.py:129-157 | No contract of its own. ParseAnnInfoOutcome states when it fails and when it gives None, and ParsedEntries gives the entries it returns. |
| Annotation.ParseLinesSkipsEmpty | StrucTexT/v2/src/tasks/end2end_ie/dataset.py:141-144 | Dropping records with an empty transcript does not change the parse. |
| Annotation.KeptLines | StrucTexT/v2/src/tasks/end2end_ie/dataset.py:143-144 | The kept records are exactly the records with a non-empty transcript. |
| Annotation.KeptLinesOne | StrucTexT/v2/src/tasks/end2end_ie/dataset.py:143-144 | A single record is kept exactly when its transcript is non-empty. |
| Annotation.KeptLinesAppend | StrucTexT/v2/src/tasks/end2end_ie/dataset.py:143-144 | Keeping records distributes over concatenation, so the kept records stay in input order with their repetitions. |
| Annotation.WordEntryOf | StrucTexT/v2/src/tasks/end2end_ie/dataset.py:149-153 | A word entry has the axis-aligned polygon of its box, the lexicon-filtered transcript of its word, class -1 and no ignore flag. |
| Annotation.LineEntryOf | StrucTexT/v2/src/tasks/end2end_ie/dataset.py:142-148 | A line entry has the polygon of its box, class TEXT_CLASSES[label] in 0..3, no ignore flag and the lexicon-filtered transcript. |
| Annotation.MapWords | StrucTexT/v2/src/tasks/end2end_ie/dataset.py:149-153 | There is one word entry per word, in order. |
| Annotation.FlatWords | StrucTexT/v2/src/tasks/end2end_ie/dataset.py:149-153 | The word entries of all lines are counted line by line, and each has class -1 and a lexicon-only transcript. |
| Annotation.FlatWordsOfAllWords | StrucTexT/v2/src/tasks/end2end_ie/dataset.py:149-153 | Word entry k of the lines is the entry of the k-th word record, taking the lines' words one line after another. |
| Annotation.WordEntriesReference | StrucTexT/v2/src/tasks/end2end_ie/dataset.py:149-153 | The word loop succeeds if and only if every box has four numbers, and then equals the one-entry-per-word reference. |
| Annotation.LineEntriesReference | StrucTexT/v2/src/tasks/end2end_ie/dataset.py:142-153 | One record is skipped when its transcript is empty. It raises if its box, label or words are malformed, and otherwise gives its line entry and word entries. |
| Annotation.ParseLinesReference | StrucTexT/v2/src/tasks/end2end_ie/dataset.py:141-153 | The whole loop succeeds if and only if every record is well formed, and then equals the loop-free reference. |
| Annotation.ParsedEntries | StrucTexT/v2/src/tasks/end2end_ie/dataset.py:141-157 | For well-formed records, line entry k comes from the k-th non-empty record: the polygon of its box, the class of its label and its filtered transcript. Word entry k comes from the k-th word of those records: the polygon of its box, its filtered transcript and class -1. The counts are the kept records and their words, and nothing is ignored. |
| Annotation.ParseAnnInfoOutcome | StrucTexT/v2/src/tasks/end2end_ie/dataset.py:155-157 | The parse fails exactly for malformed records. It gives None exactly when no line is kept or those lines have no words. |
| BoxOrder.Insert | StrucTexT/v2/src/tasks/end2end_ie/dataset.py:119 | Insertion adds exactly one element (multiset). |
| BoxOrder.SortBy | StrucTexT/v2/src/tasks/end2end_ie/dataset.py:119 | The sort is a permutation of its input (multiset). |
| BoxOrder.SortBySorted | StrucTexT/v2/src/tasks/end2end_ie/dataset.py:119 | The sort's result is ordered by the key. |
| BoxOrder.SortByStable | StrucTexT/v2/src/tasks/end2end_ie/dataset.py:119 | Elements with equal keys keep their input order (stable, like Python's `sorted`). |
| BoxOrder.CentreOfBox | StrucTexT/v2/src/tasks/end2end_ie/dataset.py:107-112 | The sort key of a box's polygon is the midpoint of the box, which lies inside the box. |
| BoxOrder.SortBoxWithList | StrucTexT/v2/src/tasks/end2end_ie/dataset.py:105-120 | The sorted entries are a permutation of the input. |
| BoxOrder.SortBoxWithListSpec | StrucTexT/v2/src/tasks/end2end_ie/dataset.py:105-120 | The result is a permutation ordered by (cy, cx), or by (cx, cy) when left_right_first; equal centres keep their input order. |
| DatasetLabels.LabelsOf | StrucTexT/v2/src/tasks/end2end_ie/dataset.py:211-243 | Each of the four label lists has one item per entry. |
| DatasetLabels.LabelsOfSpec | StrucTexT/v2/src/tasks/end2end_ie/dataset.py:216-237 | Labelling succeeds if and only if every entry encodes. Then item k holds entry k's polygon, class, ignore flag and its padded (words) or raw (lines) encoding. |
| DatasetLabels.BuildLabels | StrucTexT/v2/src/tasks/end2end_ie/dataset.py:216-237 | The append loop returns `LabelsOf`, calling the converter's `Encode` for each entry. |
| DatasetLabels.ConvertExamples | StrucTexT/v2/src/tasks/end2end_ie/dataset.py:197-243 | `_convert_examples` parses, sorts both lists top to bottom, and labels words with padded encodings and lines with raw ones; None when the parse is None. |
| DatasetLabels.ConvertSpec | StrucTexT/v2/src/tasks/end2end_ie/dataset.py:197-243 | No contract of its own. ConvertSpecOutcome, DefaultConvert and ConvertOrder state its result. |
| DatasetLabels.ConvertSpecOutcome | StrucTexT/v2/src/tasks/end2end_ie/dataset.py:197-243 | For any table, the conversion succeeds if and only if the parse succeeds and, unless it is None, every sorted word and line encodes. The result is None exactly when the parse is. Word label k carries the k-th sorted word's polygon, class, flag and padded encoding, and line label k the k-th sorted line's, with the raw encoding. |
| DatasetLabels.AllEncodeIff | StrucTexT/v2/src/tasks/end2end_ie/dataset.py:216-237 | The labels of one list build exactly when every entry's transcript encodes, and then match the entries item by item. |
| DatasetLabels.DefaultLabels | StrucTexT/v2/src/tasks/end2end_ie/dataset.py:216-226 | With the default table, lexicon-only entries always label. Every text has length seq_len (words) or ends with 1 (lines), and flags and classes are copied. |
| DatasetLabels.SortedEntries | StrucTexT/v2/src/tasks/end2end_ie/dataset.py:208-209 | Sorting keeps each entry's lexicon-only transcript, class range and ignore flag. |
| DatasetLabels.ParsedForLabels | StrucTexT/v2/src/tasks/end2end_ie/dataset.py:141-157 | Parsed entries are aligned and lexicon-only, with class -1 for words and 0..3 for lines. |
| DatasetLabels.DefaultConvert | StrucTexT/v2/src/tasks/end2end_ie/dataset.py:197-243 | With the default converter, well-formed records always convert (None exactly when the parse is None). Word texts have length seq_len with class -1; line texts end with 1 with classes 0..3; nothing is ignored. |
| DatasetLabels.ConvertOrder | StrucTexT/v2/src/tasks/end2end_ie/dataset.py:208-223 | The word polygons and the line polygons of the result are each ordered by centre, top to bottom, then left to right. |
| DatasetLabels.SortedLabelsRowMajor | StrucTexT/v2/src/tasks/end2end_ie/dataset.py:208-209 | Labelling a list sorted by `_sort_box_with_list` keeps its centre order. |
| DatasetLabels.ImageName | StrucTexT/v2/src/tasks/end2end_ie/dataset.py:262 | The image name holds no "/". |
| DatasetLabels.ImagePath | StrucTexT/v2/src/tasks/end2end_ie/dataset.py:263 | The joined image path ends with the image name. |
| DatasetLabels.ImageNameOfJson | StrucTexT/v2/src/tasks/end2end_ie/dataset.py:262 | `dir/stem.json` gives `stem.png` when the stem holds no "/" or ".json". |
| DatasetLabels.ImageNameWithoutJson | StrucTexT/v2/src/tasks/end2end_ie/dataset.py:262 | A base name without ".json" is used unchanged. |
| LayerDecay.LayerwiseLrDecay | CAE/Segmentation/paddleseg/core/utils.py:30-50 | The parameter's rate is multiplied by the ratio `DecayRatio` gives. On any exception (TypeError, KeyError, IndexError, ValueError, ZeroDivisionError) the rate is unchanged. |
| LayerDecay.LayerOfBlockName | CAE/Segmentation/paddleseg/core/utils.py:45-46 | Parsing the layer number can raise only IndexError (too few parts after the split) or ValueError (not an integer). BlockLayer gives its value for well-formed names. |
| LayerDecay.ChooseRatio | CAE/Segmentation/paddleseg/core/utils.py:42-49 | Choosing the exponent raises only IndexError, ValueError or TypeError. A power is chosen only for a name with "blocks" or "embed" and a layer count; ratio 1.0 only for a name with neither. |
| LayerDecay.DecayRatio | CAE/Segmentation/paddleseg/core/utils.py:42-49 | A ratio is produced only when name_dict is given, holds the parameter's name, and the power is defined (no 0.0 to a negative power). Otherwise exactly one of TypeError, KeyError(name), IndexError, ValueError or ZeroDivisionError is raised. |
| LayerDecay.BlockLayer | CAE/Segmentation/paddleseg/core/utils.py:44-46 | A static name `prefix + "blocks." + str(n) + rest` (rest empty or starting with ".") has layer n. |
| LayerDecay.BlockExponent | CAE/Segmentation/paddleseg/core/utils.py:44-47 | Such a block parameter gets exponent n_layers - n, even when its name also mentions "embed". |
| LayerDecay.EmbedAndOtherExponent | CAE/Segmentation/paddleseg/core/utils.py:44-50 | Without "blocks": an "embed" name gets n_layers + 1 (TypeError when n_layers is None); any other name gets ratio 1.0. |
| LayerDecay.BlocksWithoutDot | CAE/Segmentation/paddleseg/core/utils.py:44-46 | "blocks" with no "blocks." raises: find gives -1, the last character splits into too few parts (IndexError), or into an empty layer for "." (ValueError). |
| LayerDecay.BlockWithoutNumber | CAE/Segmentation/paddleseg/core/utils.py:44-46 | A layer segment without digits raises ValueError. |
| LayerDecay.NoLayerCount | CAE/Segmentation/paddleseg/core/utils.py:44-49 | With n_layers None, a parsable block name or an embedding name raises TypeError. |
| LayerDecay.OtherParamUnchanged | CAE/Segmentation/paddleseg/core/utils.py:42-50 | A parameter outside blocks and embeddings gets ratio 1.0 whatever the rate and n_layers. |
| LayerDecay.AdamWDL.constructor | CAE/Segmentation/paddleseg/core/utils.py:170-173 | The optimizer keeps the rate, n_layers and name_dict it binds into set_param_lr_fun. |
| LayerDecay.AdamWDL.New | CAE/Segmentation/paddleseg/core/utils.py:151-185 | Construction fails with TypeError exactly when the type check does, and otherwise stores the checked rate, n_layers and name_dict. |
| LayerDecay.AdamWDL.AppendOptimizeOp | CAE/Segmentation/paddleseg/core/utils.py:187-198 | The update step is built with the decayed rate, or the decay's exception is propagated. Either way, the parameter's rate afterwards equals its rate before. |
| OptimizerFactory.CreateOptimizer | CAE/Segmentation/paddleseg/core/utils.py:208-257 | The arguments are the corrected ones of `CreateOptimizerArgs`, not the code as written. The optimizer is built with rate 0.65, num_layers and the name_dict filled by the loop. |
| OptimizerFactory.CreateOptimizerAsWritten | CAE/Segmentation/paddleseg/core/utils.py:208-257 | `create_optimizer` as written fails only with TypeError, and only when filter_bias_and_bn holds and skip_list is None. With skip_list given, or no filtering, it succeeds. |
| OptimizerFactory.CreateOptimizerArgs | CAE/Segmentation/paddleseg/core/utils.py:208-257 | No contract of its own. AsWrittenAgrees relates it to the code as written; EveryParameterHasMask and BlockParameterRatio state what the optimizer receives. |
| OptimizerFactory.MaskKeys | CAE/Segmentation/paddleseg/core/utils.py:221-226 | The mask has a key exactly for the framework names of entries whose structured name has no "teacher". |
| OptimizerFactory.MaskValue | CAE/Segmentation/paddleseg/core/utils.py:221-226 | The last non-teacher entry with a framework name decides its mask value: false for a 1-D parameter, a ".bias" name or a skipped name, and true otherwise. |
| OptimizerFactory.MaskPairsAsWritten | CAE/Segmentation/paddleseg/core/utils.py:221-226 | The comprehension as written always succeeds when skip_list is given. Its only failure is TypeError with skip_list None, and it yields at most one pair per entry. |
| OptimizerFactory.DecayMask | CAE/Segmentation/paddleseg/core/utils.py:215-226 | No contract of its own. MaskKeys, MaskValue and NoWeightDecayHonoured state its keys and values. |
| OptimizerFactory.NoWeightDecayHonoured | CAE/Segmentation/paddleseg/core/utils.py:216-226 | With no skip_list, the names in the model's no_weight_decay() are never decayed (corrected mask). |
| OptimizerFactory.SkipListGiven | CAE/Segmentation/paddleseg/core/utils.py:217-226 | When skip_list is given, the comprehension as written builds the intended pairs. |
| OptimizerFactory.SkipListMissing | CAE/Segmentation/paddleseg/core/utils.py:221-226 | As written, with skip_list None: TypeError exactly when some non-teacher entry is neither 1-D nor ".bias"; otherwise the pairs for an empty skip set. |
| OptimizerFactory.SkipListMissingExample | CAE/Segmentation/paddleseg/core/utils.py:215-226 | One 2-D weight and no skip_list: the code as written raises TypeError, while the corrected mask decays the weight. |
| OptimizerFactory.OptimizerParametersMembers | CAE/Segmentation/paddleseg/core/utils.py:228-231 | The corrected parameter list holds exactly the parameters of non-teacher entries. |
| OptimizerFactory.EveryParameterHasMask | CAE/Segmentation/paddleseg/core/utils.py:221-241 | Every parameter of the corrected list has a mask entry, so `decay_dict[n]` cannot raise for it. |
| OptimizerFactory.TeacherFiltersAgree | CAE/Segmentation/paddleseg/core/utils.py:221-231 | The two teacher filters give the same parameters when each framework name mentions "teacher" exactly when its structured name does. |
| OptimizerFactory.TeacherWeightExample | CAE/Segmentation/paddleseg/core/utils.py:221-241 | A teacher weight with a generated framework name stays in the parameters as written, but has no mask entry (KeyError). |
| OptimizerFactory.AsWrittenAgrees | CAE/Segmentation/paddleseg/core/utils.py:215-257 | With skip_list given and the teacher names agreeing, the code as written and the corrected version build the same arguments. |
| OptimizerFactory.NameDictEntry | CAE/Segmentation/paddleseg/core/utils.py:253-256 | name_dict maps each framework name to the structured name of the last entry carrying it. |
| OptimizerFactory.BlockParameterRatio | CAE/Segmentation/paddleseg/core/utils.py:251-257 | The optimizer scales a block parameter `...blocks.n...` by 0.65 ** (num_layers - n). |
| OptimizerFactory.DefaultNumLayersFails | CAE/Segmentation/paddleseg/core/utils.py:208-257 | With num_layers left at its default None, the update step of such a block parameter raises TypeError. |

## Findings

| source | as written | input that shows it | evidently intended | confidence | as-written member | corrected member |
|---|---|---|---|---|---|---|
| CAE/Segmentation/paddleseg/core/utils.py:216-223 | The mask tests `name in skip_list`. The skip set `skip` computed just above (skip_list, else the model's no_weight_decay()) is never used. | `skip_list=None` and a model with one 2-D weight `head.weight` | test `name in skip` | not executed; high (the loop raises TypeError on `in None`) | OptimizerFactory.MaskPairsAsWritten, OptimizerFactory.SkipListMissingExample | OptimizerFactory.DecayMask, OptimizerFactory.NoWeightDecayHonoured |
| CAE/Segmentation/paddleseg/core/utils.py:221-241 | The mask keeps entries whose structured name lacks "teacher". The parameter list filters on the framework name `param.name`. | a teacher weight named `teacher.fc.weight` whose framework name is `linear_0.w_0` | filter the parameter list by the structured name, like the mask | not executed; medium (depends on the framework's generated names) | OptimizerFactory.ParametersAsWritten, OptimizerFactory.TeacherWeightExample | OptimizerFactory.OptimizerParameters, OptimizerFactory.EveryParameterHasMask |

`CreateOptimizer` and `CreateOptimizerArgs` use the corrected definitions. `CreateOptimizerAsWritten` keeps the code as written, and `AsWrittenAgrees` states when the two coincide.

The filtering branch also sets `weight_decay` to 0.0, which makes the mask irrelevant to the update. The model keeps that as written.

## Left out

- OptimizerFactory.CreateOptimizer: builds the corrected arguments of `CreateOptimizerArgs`, so it never raises the TypeError of `name in skip_list` with skip_list None. It also drops a teacher parameter whose framework name lacks "teacher", which the code as written keeps. The code as written is `CreateOptimizerAsWritten`; `AsWrittenAgrees` states when the two coincide.
- String case: `upper()` is modelled for ASCII letters only. Non-ASCII case mappings are not modelled; the lexicon filter removes non-ASCII characters from parsed transcripts anyway.
- `int()` is modelled for ASCII digits only. Other Unicode decimal digits are not accepted by the model.
- Floats: polygons and centres are reals. The float32 conversion and reshape of numpy arrays are not modelled, and neither is the rounding of `**` and `*=` on learning rates. A learning rate is kept as the product it denotes.
- Tensor rates: a Variable `decay_rate` is kept symbolic (`TensorRate`); its power is not evaluated.
- Float power errors: OverflowError of `decay_rate ** e` is not modelled. ZeroDivisionError of 0.0 raised to a negative power is modelled.
- BoxOrder.SortBoxWithList: requires every polygon to be axis-aligned, which is what `_bbox2poly` produces. `cv2.minAreaRect` is not modelled for general quadrilaterals; its centre is the midpoint of opposite corners.
- File and JSON I/O: `codecs.open`, `json.load`, `glob`, `os.path.exists`, `cv2.imread` and logging are not modelled. Records arrive already parsed, so the KeyError of a missing JSON field and the ValueError of a non-numeric box coordinate are not modelled.
- `_read_data`: only the image-name rule is modelled. The existence and load checks, which return None, depend on the file system.
- `_convert_examples`: the image transform and the merge of its outputs are not modelled, because the transform pipeline belongs to another part of the repository.
- `Dataset.__init__` (configuration lookup and the data-loader set-up) is not modelled. Its defaults (seq_len 50, "CE") are the converter's parameters.
- The Adam update itself (the base class's `_append_optimize_op`, `_append_decoupled_weight_decay`) is framework code. It is not modelled; the step records which parameter and which learning rate it is given.
- LayerDecay.AdamWDL.AppendOptimizeOp: `set_param_lr_fun` is a constructor argument, but the model fixes it to its default `layerwise_lr_decay`, the only one `create_optimizer` uses. A custom setter (such as one raising after it has changed the rate) is not modelled. The promise that the rate is unchanged after an exception holds only because `layerwise_lr_decay` raises before its `*=`. The fallback to a base class when `set_param_lr_fun` is None is not modelled either: the constructor always binds a `partial`, which is never None.
- The unused `opt_lower` split and the commented-out optimizer choices of `create_optimizer` are not modelled.
