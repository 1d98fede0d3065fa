/** The label assembly of `Dataset._convert_examples` and the image-name rule
    of `Dataset._read_data`. Word texts are stored as the fixed-length
    (padded) encoding, line texts as the raw encoding. */
module DatasetLabels {
  import opened Wrappers
  import opened PyStr
  import opened Lexicon
  import opened LabelCodec
  import opened LabelFacts
  import opened Annotation
  import opened BoxOrder

  /** The four parallel lists built for one granularity (`polys`, `texts`,
      `classes`, `ignore_tags`). */
  datatype LabelSet = LabelSet(polys: seq<seq<real>>, texts: seq<seq<int>>, classes: seq<int>, ignoreTags: seq<bool>)

  /** The text label of one entry: `encode(text, ignore_tag)[0]` for words,
      `[1]` for lines. */
  function TextOf(table: seq<string>, seqLen: int, e: Entry, padded: bool): Result<seq<int>, PyError>
    requires ValidTable(table)
  {
    match EncodeSpec(table, seqLen, e.transcript, e.ignore)
    case Failure(err) => Failure(err)
    case Success(enc) => Success(if padded then enc.padded else enc.raw)
  }

  /** The lists after the loop over `es`, the first failing encoding being
      the error. */
  function LabelsOf(table: seq<string>, seqLen: int, es: seq<Entry>, padded: bool): (r: Result<LabelSet, PyError>)
    requires ValidTable(table)
    ensures r.Success? ==>
      |r.value.polys| == |es| && |r.value.texts| == |es| && |r.value.classes| == |es| && |r.value.ignoreTags| == |es|
  {
    if es == [] then Success(LabelSet([], [], [], []))
    else
      match LabelsOf(table, seqLen, es[..|es| - 1], padded)
      case Failure(err) => Failure(err)
      case Success(ls) =>
        var e := es[|es| - 1];
        match TextOf(table, seqLen, e, padded)
        case Failure(err) => Failure(err)
        case Success(t) => Success(LabelSet(ls.polys + [e.poly], ls.texts + [t], ls.classes + [e.textClass], ls.ignoreTags + [e.ignore]))
  }

  /** Entry `k` of each list comes from entry `k` of the input, its text
      being the entry's encoding. */
  predicate LabelsMatch(table: seq<string>, seqLen: int, es: seq<Entry>, padded: bool, ls: LabelSet)
    requires ValidTable(table)
  {
    && |ls.polys| == |es| && |ls.texts| == |es| && |ls.classes| == |es| && |ls.ignoreTags| == |es|
    && forall k :: 0 <= k < |es| ==>
         && ls.polys[k] == es[k].poly
         && ls.classes[k] == es[k].textClass
         && ls.ignoreTags[k] == es[k].ignore
         && TextOf(table, seqLen, es[k], padded) == Success(ls.texts[k])
  }

  /** The loop succeeds exactly when every entry encodes, and then the lists
      are the entries' fields and encodings, item by item. */
  lemma {:induction false} LabelsOfSpec(table: seq<string>, seqLen: int, es: seq<Entry>, padded: bool)
    requires ValidTable(table)
    ensures LabelsOf(table, seqLen, es, padded).Success? <==>
      forall k :: 0 <= k < |es| ==> TextOf(table, seqLen, es[k], padded).Success?
    ensures LabelsOf(table, seqLen, es, padded).Success? ==>
      LabelsMatch(table, seqLen, es, padded, LabelsOf(table, seqLen, es, padded).value)
  {
    if es != [] {
      var front := es[..|es| - 1];
      var e := es[|es| - 1];
      LabelsOfSpec(table, seqLen, front, padded);
      assert forall k :: 0 <= k < |front| ==> front[k] == es[k];
      var r := LabelsOf(table, seqLen, es, padded);
      var rf := LabelsOf(table, seqLen, front, padded);
      if rf.Success? && TextOf(table, seqLen, e, padded).Success? {
        LabelsMatchSnoc(table, seqLen, es, padded, rf.value, TextOf(table, seqLen, e, padded).value);
      }
    }
  }

  lemma LabelsMatchSnoc(table: seq<string>, seqLen: int, es: seq<Entry>, padded: bool, ls: LabelSet, t: seq<int>)
    requires ValidTable(table) && es != []
    requires LabelsMatch(table, seqLen, es[..|es| - 1], padded, ls)
    requires TextOf(table, seqLen, es[|es| - 1], padded) == Success(t)
    ensures var e := es[|es| - 1];
      LabelsMatch(table, seqLen, es, padded,
        LabelSet(ls.polys + [e.poly], ls.texts + [t], ls.classes + [e.textClass], ls.ignoreTags + [e.ignore]))
  {
    var front := es[..|es| - 1];
    assert forall k :: 0 <= k < |front| ==> front[k] == es[k];
  }

  /** A successful parse has axis-aligned polygons in both lists. */
  lemma ParsedAligned(form: seq<FormLine>)
    requires ParseAnnInfo(form).Success? && ParseAnnInfo(form).value.Some?
    ensures AllAligned(ParseAnnInfo(form).value.value.line)
    ensures AllAligned(ParseAnnInfo(form).value.value.word)
  {
    ParseAnnInfoOutcome(form);
    ParsedEntries(form);
  }

  /** `_convert_examples` up to the transform: parse, sort both lists top to
      bottom, then build the word labels and the line labels. */
  function ConvertSpec(table: seq<string>, seqLen: int, form: seq<FormLine>): Result<Option<(LabelSet, LabelSet)>, PyError>
    requires ValidTable(table)
  {
    match ParseAnnInfo(form)
    case Failure(e) => Failure(e)
    case Success(None) => Success(None)
    case Success(Some(a)) =>
      ParsedAligned(form);
      var words := SortBoxWithList(a.word, false);
      var lines := SortBoxWithList(a.line, false);
      match LabelsOf(table, seqLen, words, true)
      case Failure(e) => Failure(e)
      case Success(lw) =>
        match LabelsOf(table, seqLen, lines, false)
        case Failure(e) => Failure(e)
        case Success(ll) => Success(Some((lw, ll)))
  }

  /** The loop of `_convert_examples` over one sorted list. */
  method BuildLabels(conv: LabelConverter, es: seq<Entry>, padded: bool) returns (r: Result<LabelSet, PyError>)
    requires conv.Valid()
    ensures r == LabelsOf(conv.idx2char, conv.seqLen, es, padded)
  {
    var polys: seq<seq<real>> := [];
    var texts: seq<seq<int>> := [];
    var classes: seq<int> := [];
    var ignoreTags: seq<bool> := [];
    for i := 0 to |es|
      invariant LabelsOf(conv.idx2char, conv.seqLen, es[..i], padded) == Success(LabelSet(polys, texts, classes, ignoreTags))
    {
      assert es[..i + 1][..i] == es[..i];
      var e := es[i];
      polys := polys + [e.poly];
      classes := classes + [e.textClass];
      var enc := conv.Encode(e.transcript, e.ignore);
      if enc.Failure? {
        LabelsFailPrefix(conv.idx2char, conv.seqLen, es, padded, i + 1);
        return Failure(enc.error);
      }
      texts := texts + [if padded then enc.value.padded else enc.value.raw];
      ignoreTags := ignoreTags + [e.ignore];
    }
    assert es[..|es|] == es;
    r := Success(LabelSet(polys, texts, classes, ignoreTags));
  }

  lemma {:induction false} LabelsFailPrefix(table: seq<string>, seqLen: int, es: seq<Entry>, padded: bool, n: nat)
    requires ValidTable(table)
    requires n <= |es| && LabelsOf(table, seqLen, es[..n], padded).Failure?
    ensures LabelsOf(table, seqLen, es, padded) == LabelsOf(table, seqLen, es[..n], padded)
  {
    if n < |es| {
      assert es[..|es| - 1][..n] == es[..n];
      LabelsFailPrefix(table, seqLen, es[..|es| - 1], padded, n);
    } else {
      assert es[..n] == es;
    }
  }

  /** `_convert_examples` on the decoded `form` records of one annotation. */
  method ConvertExamples(conv: LabelConverter, form: seq<FormLine>) returns (r: Result<Option<(LabelSet, LabelSet)>, PyError>)
    requires conv.Valid()
    ensures r == ConvertSpec(conv.idx2char, conv.seqLen, form)
  {
    var anno := ParseAnnInfoFunsd(form);
    if anno.Failure? {
      return Failure(anno.error);
    }
    if anno.value.None? {
      return Success(None);
    }
    var a := anno.value.value;
    ParsedAligned(form);
    var words := SortBoxWithList(a.word, false);
    var lines := SortBoxWithList(a.line, false);
    var lw := BuildLabels(conv, words, true);
    if lw.Failure? {
      return Failure(lw.error);
    }
    var ll := BuildLabels(conv, lines, false);
    if ll.Failure? {
      return Failure(ll.error);
    }
    r := Success(Some((lw.value, ll.value)));
  }

  /** Every element of a sorted list comes from the input list. */
  lemma SortedFrom(anno: seq<Entry>, k: int)
    requires AllAligned(anno) && 0 <= k < |anno|
    ensures SortBoxWithList(anno, false)[k] in anno
  {
    var r := SortBoxWithList(anno, false);
    assert r[k] in multiset(r);
  }

  /** With the default table, lists of lexicon-only entries always encode:
      word texts are exactly `seq_len` long, line texts end with 1. */
  lemma DefaultLabels(seqLen: int, es: seq<Entry>, padded: bool)
    requires forall k :: 0 <= k < |es| ==> LexiconOnly(es[k].transcript)
    ensures LabelsOf(DefaultTable, seqLen, es, padded).Success?
    ensures var ls := LabelsOf(DefaultTable, seqLen, es, padded).value;
      && LabelsMatch(DefaultTable, seqLen, es, padded, ls)
      && forall k :: 0 <= k < |es| ==>
           (padded && seqLen >= 0 ==> |ls.texts[k]| == seqLen) &&
           (!padded ==> |ls.texts[k]| >= 1 && ls.texts[k][|ls.texts[k]| - 1] == 1)
  {
    forall k | 0 <= k < |es| ensures TextOf(DefaultTable, seqLen, es[k], padded).Success? {
      LexiconTextEncodes(seqLen, es[k].transcript, es[k].ignore);
    }
    LabelsOfSpec(DefaultTable, seqLen, es, padded);
    var ls := LabelsOf(DefaultTable, seqLen, es, padded).value;
    forall k | 0 <= k < |es|
      ensures (padded && seqLen >= 0 ==> |ls.texts[k]| == seqLen)
      ensures (!padded ==> |ls.texts[k]| >= 1 && ls.texts[k][|ls.texts[k]| - 1] == 1)
    {
      DefaultEncodeShape(seqLen, es[k].transcript, es[k].ignore);
    }
  }

  /** Sorting keeps every per-entry fact of the parse. */
  lemma SortedEntries(anno: seq<Entry>, lines: bool)
    requires AllAligned(anno)
    requires forall k :: 0 <= k < |anno| ==>
      (LexiconOnly(anno[k].transcript) && !anno[k].ignore && (if lines then 0 <= anno[k].textClass <= 3 else anno[k].textClass == -1))
    ensures var r := SortBoxWithList(anno, false);
      forall k :: 0 <= k < |r| ==>
        (LexiconOnly(r[k].transcript) && !r[k].ignore && (if lines then 0 <= r[k].textClass <= 3 else r[k].textClass == -1))
  {
    var r := SortBoxWithList(anno, false);
    forall k | 0 <= k < |r|
      ensures LexiconOnly(r[k].transcript) && !r[k].ignore && (if lines then 0 <= r[k].textClass <= 3 else r[k].textClass == -1)
    {
      SortedFrom(anno, k);
    }
  }

  /** The facts of a successful parse that the label assembly relies on. */
  lemma ParsedForLabels(form: seq<FormLine>)
    requires LinesOk(form)
    ensures ParseAnnInfo(form).Success?
    ensures ParseAnnInfo(form).value.Some? ==>
      var a := ParseAnnInfo(form).value.value;
      && AllAligned(a.line) && AllAligned(a.word)
      && (forall k :: 0 <= k < |a.line| ==>
            (LexiconOnly(a.line[k].transcript) && !a.line[k].ignore && 0 <= a.line[k].textClass <= 3))
      && (forall k :: 0 <= k < |a.word| ==>
            (LexiconOnly(a.word[k].transcript) && !a.word[k].ignore && a.word[k].textClass == -1))
  {
    ParseAnnInfoOutcome(form);
    ParsedEntries(form);
    var acc := ParseLines(form).value;
    if ParseAnnInfo(form).value.Some? {
      assert ParseAnnInfo(form).value.value == AnnInfo(acc.0, acc.1);
    }
  }

  /** Once both lists encode, the result is the pair of label sets. */
  lemma ConvertSpecSome(table: seq<string>, seqLen: int, form: seq<FormLine>)
    requires ValidTable(table)
    requires ParseAnnInfo(form).Success? && ParseAnnInfo(form).value.Some?
    requires AllAligned(ParseAnnInfo(form).value.value.line) && AllAligned(ParseAnnInfo(form).value.value.word)
    requires LabelsOf(table, seqLen, SortBoxWithList(ParseAnnInfo(form).value.value.word, false), true).Success?
    requires LabelsOf(table, seqLen, SortBoxWithList(ParseAnnInfo(form).value.value.line, false), false).Success?
    ensures ConvertSpec(table, seqLen, form) == Success(Some((
      LabelsOf(table, seqLen, SortBoxWithList(ParseAnnInfo(form).value.value.word, false), true).value,
      LabelsOf(table, seqLen, SortBoxWithList(ParseAnnInfo(form).value.value.line, false), false).value)))
  {
  }

  /** The word and the line entries of a parse that gave a result, each
      sorted top to bottom by `_sort_box_with_list`. */
  function SortedParse(form: seq<FormLine>): (seq<Entry>, seq<Entry>)
    requires ParseAnnInfo(form).Success? && ParseAnnInfo(form).value.Some?
  {
    ParsedAligned(form);
    var a := ParseAnnInfo(form).value.value;
    (SortBoxWithList(a.word, false), SortBoxWithList(a.line, false))
  }

  /** Every entry's transcript encodes. */
  predicate AllEncode(table: seq<string>, seqLen: int, es: seq<Entry>)
    requires ValidTable(table)
  {
    forall k :: 0 <= k < |es| ==> EncodeSpec(table, seqLen, es[k].transcript, es[k].ignore).Success?
  }

  /** For any table: the conversion succeeds exactly when the parse does and,
      unless it is None, every sorted word and line encodes. Label `k` of the
      words then carries the `k`-th sorted word's polygon, class, flag and
      padded encoding, and label `k` of the lines the `k`-th sorted line's,
      with its raw encoding. */
  lemma ConvertSpecOutcome(table: seq<string>, seqLen: int, form: seq<FormLine>)
    requires ValidTable(table)
    ensures ConvertSpec(table, seqLen, form).Success? <==>
      && ParseAnnInfo(form).Success?
      && (ParseAnnInfo(form).value.None? ||
          (AllEncode(table, seqLen, SortedParse(form).0) && AllEncode(table, seqLen, SortedParse(form).1)))
    ensures ConvertSpec(table, seqLen, form).Success? ==>
      (ConvertSpec(table, seqLen, form).value.None? <==> ParseAnnInfo(form).value.None?)
    ensures ConvertSpec(table, seqLen, form).Success? && ConvertSpec(table, seqLen, form).value.Some? ==>
      && LabelsMatch(table, seqLen, SortedParse(form).0, true, ConvertSpec(table, seqLen, form).value.value.0)
      && LabelsMatch(table, seqLen, SortedParse(form).1, false, ConvertSpec(table, seqLen, form).value.value.1)
  {
    if ParseAnnInfo(form).Success? && ParseAnnInfo(form).value.Some? {
      var (words, lines) := SortedParse(form);
      AllEncodeIff(table, seqLen, words, true);
      AllEncodeIff(table, seqLen, lines, false);
      if LabelsOf(table, seqLen, words, true).Success? && LabelsOf(table, seqLen, lines, false).Success? {
        ParsedAligned(form);
        ConvertSpecSome(table, seqLen, form);
      }
    }
  }

  /** The labels of a list build exactly when every entry encodes. */
  lemma AllEncodeIff(table: seq<string>, seqLen: int, es: seq<Entry>, padded: bool)
    requires ValidTable(table)
    ensures LabelsOf(table, seqLen, es, padded).Success? <==> AllEncode(table, seqLen, es)
    ensures LabelsOf(table, seqLen, es, padded).Success? ==>
      LabelsMatch(table, seqLen, es, padded, LabelsOf(table, seqLen, es, padded).value)
  {
    LabelsOfSpec(table, seqLen, es, padded);
    assert forall k :: 0 <= k < |es| ==>
      (TextOf(table, seqLen, es[k], padded).Success? <==> EncodeSpec(table, seqLen, es[k].transcript, es[k].ignore).Success?);
  }

  /** With the default table nothing in the label assembly can fail once the
      annotation parses, since every transcript is lexicon-only. Word texts
      are then exactly `seq_len` long with class -1; line texts are the
      transcript's indices followed by 1, with the class of their label;
      nothing is ignored. */
  lemma DefaultConvert(seqLen: int, form: seq<FormLine>)
    requires LinesOk(form)
    ensures ConvertSpec(DefaultTable, seqLen, form).Success?
    ensures ConvertSpec(DefaultTable, seqLen, form).value.None? <==> ParseAnnInfo(form).value.None?
    ensures ConvertSpec(DefaultTable, seqLen, form).value.Some? ==>
      var (lw, ll) := ConvertSpec(DefaultTable, seqLen, form).value.value;
      && (forall k :: 0 <= k < |lw.texts| ==> lw.classes[k] == -1 && !lw.ignoreTags[k] && (seqLen >= 0 ==> |lw.texts[k]| == seqLen))
      && (forall k :: 0 <= k < |ll.texts| ==>
            0 <= ll.classes[k] <= 3 && !ll.ignoreTags[k] && |ll.texts[k]| >= 1 && ll.texts[k][|ll.texts[k]| - 1] == 1)
  {
    ParsedForLabels(form);
    if ParseAnnInfo(form).value.Some? {
      var a := ParseAnnInfo(form).value.value;
      SortedEntries(a.word, false);
      SortedEntries(a.line, true);
      DefaultLabels(seqLen, SortBoxWithList(a.word, false), true);
      DefaultLabels(seqLen, SortBoxWithList(a.line, false), false);
      ConvertSpecSome(DefaultTable, seqLen, form);
    }
  }

  /** Polygons listed top to bottom, then left to right, by centre. */
  predicate RowMajor(polys: seq<seq<real>>) {
    forall i, j :: 0 <= i < j < |polys| ==>
      (IsAxisAligned(polys[i]) && IsAxisAligned(polys[j]) &&
       KeyLe((Centre(polys[i]).1, Centre(polys[i]).0), (Centre(polys[j]).1, Centre(polys[j]).0)))
  }

  /** Labelling the sorted entries keeps their order. */
  lemma SortedLabelsRowMajor(table: seq<string>, seqLen: int, es: seq<Entry>, padded: bool)
    requires ValidTable(table) && AllAligned(es)
    requires LabelsOf(table, seqLen, SortBoxWithList(es, false), padded).Success?
    ensures RowMajor(LabelsOf(table, seqLen, SortBoxWithList(es, false), padded).value.polys)
  {
    SortBoxWithListSpec(es, false);
    LabelsOfSpec(table, seqLen, SortBoxWithList(es, false), padded);
  }

  /** Both label lists follow the boxes top to bottom, then left to right,
      by centre. */
  lemma ConvertOrder(table: seq<string>, seqLen: int, form: seq<FormLine>)
    requires ValidTable(table)
    requires ConvertSpec(table, seqLen, form).Success? && ConvertSpec(table, seqLen, form).value.Some?
    ensures RowMajor(ConvertSpec(table, seqLen, form).value.value.0.polys)
    ensures RowMajor(ConvertSpec(table, seqLen, form).value.value.1.polys)
  {
    var a := ParseAnnInfo(form).value.value;
    ParsedAligned(form);
    SortedLabelsRowMajor(table, seqLen, a.word, true);
    SortedLabelsRowMajor(table, seqLen, a.line, false);
    ConvertSpecSome(table, seqLen, form);
  }

  lemma DefaultTableFactsValid()
    ensures ValidTable(DefaultTable)
  {
  }

  /** `os.path.basename(data_path).replace('.json', '.png')`. */
  function ImageName(dataPath: string): (r: string)
    ensures '/' !in r
  {
    ReplaceAllKeepsOut(Basename(dataPath), ".json", ".png", '/');
    ReplaceAll(Basename(dataPath), ".json", ".png")
  }

  /** `os.path.join(image_path, image_name)`. */
  function ImagePath(imageDir: string, dataPath: string): (r: string)
    ensures EndsWith(r, ImageName(dataPath))
  {
    PathJoin(imageDir, ImageName(dataPath))
  }

  /** An annotation `<dir>/<stem>.json` has the image `<stem>.png`, when the
      stem holds no `/` and no `.json` of its own. */
  lemma ImageNameOfJson(dir: string, stem: string)
    requires '/' !in stem && !Contains(stem, ".json")
    ensures ImageName(dir + "/" + stem + ".json") == stem + ".png"
  {
    assert dir + "/" + stem + ".json" == dir + "/" + (stem + ".json");
    BasenameOfJoined(dir, stem + ".json");
    ReplaceAllAtEnd(stem, ".json", ".png");
  }

  /** A name without `.json` is kept: the image of `a.png` is `a.png`. */
  lemma ImageNameWithoutJson(dataPath: string)
    requires !Contains(Basename(dataPath), ".json")
    ensures ImageName(dataPath) == Basename(dataPath)
  {
    ReplaceAllAbsent(Basename(dataPath), ".json", ".png");
  }
}
