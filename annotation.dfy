/** FUNSD annotation parsing: boxes become axis-aligned polygons, and the
    `form` records of an annotation become line-level and word-level entries
    `(poly, transcript, text_class, ignore_tag)`. */
module Annotation {
  import opened Wrappers
  import opened Lexicon

  /** A word of a FUNSD `form` record. */
  datatype WordRecord = WordRecord(box: seq<real>, text: string)

  /** A `form` record: a text line with its box, label and words. */
  datatype FormLine = FormLine(box: seq<real>, text: string, labelText: string, words: seq<WordRecord>)

  /** `(poly, transcript, text_class, ignore_tag)`. */
  datatype Entry = Entry(poly: seq<real>, transcript: string, textClass: int, ignore: bool)

  /** `{'line': [...], 'word': [...]}`. */
  datatype AnnInfo = AnnInfo(line: seq<Entry>, word: seq<Entry>)

  /** Eight coordinates `x0 y0 x1 y1 x2 y2 x3 y3` tracing an axis-aligned
      rectangle: top-left, top-right, bottom-right, bottom-left. */
  predicate IsAxisAligned(p: seq<real>) {
    |p| == 8 && p[0] == p[6] && p[1] == p[3] && p[2] == p[4] && p[5] == p[7]
  }

  /** The box `[x0, y0, x1, y1]` spanned by a polygon's first and third corner. */
  function Corners(p: seq<real>): (b: seq<real>)
    requires |p| == 8
    ensures |b| == 4
  {
    [p[0], p[1], p[4], p[5]]
  }

  /** `_bbox2poly(bbox)`: the rectangle of `[x0, y0, x1, y1]` as a polygon;
      a box of fewer than four numbers raises `IndexError`. */
  function Bbox2Poly(b: seq<real>): (r: Result<seq<real>, PyError>)
    ensures r.Success? <==> |b| >= 4
    ensures r.Failure? ==> r.error == IndexError
    ensures r.Success? ==> IsAxisAligned(r.value) && Corners(r.value) == b[..4]
  {
    if |b| < 4 then Failure(IndexError)
    else Success([b[0], b[1], b[2], b[1], b[2], b[3], b[0], b[3]])
  }

  /** An axis-aligned polygon is determined by its corners: converting them
      back gives the polygon. */
  lemma Bbox2PolyOfCorners(p: seq<real>)
    requires IsAxisAligned(p)
    ensures Bbox2Poly(Corners(p)) == Success(p)
  {
    var q := Bbox2Poly(Corners(p)).value;
    assert forall i :: 0 <= i < 8 ==> q[i] == p[i];
    assert q == p;
  }

  /** The word entry: `(poly, filtered transcript, -1, False)`. */
  function WordEntry(w: WordRecord): Result<Entry, PyError> {
    match Bbox2Poly(w.box)
    case Failure(e) => Failure(e)
    case Success(p) => Success(Entry(p, FilterLexicon(w.text), -1, false))
  }

  /** The entries the inner loop appends for `words`, in order. */
  function WordEntries(ws: seq<WordRecord>): Result<seq<Entry>, PyError> {
    if ws == [] then Success([]) else WordStep(WordEntries(ws[..|ws| - 1]), ws[|ws| - 1])
  }

  /** One iteration of the inner loop. */
  function WordStep(acc: Result<seq<Entry>, PyError>, w: WordRecord): Result<seq<Entry>, PyError> {
    match acc
    case Failure(e) => Failure(e)
    case Success(es) =>
      match WordEntry(w)
      case Failure(e) => Failure(e)
      case Success(x) => Success(es + [x])
  }

  /** One iteration of the outer loop: nothing for an empty transcript, else
      the line entry and its word entries. The box is converted first
      (`IndexError`), then the label looked up (`KeyError`), then the words. */
  function LineEntries(l: FormLine): Result<Option<(Entry, seq<Entry>)>, PyError> {
    if |l.text| == 0 then Success(None)
    else match Bbox2Poly(l.box)
      case Failure(e) => Failure(e)
      case Success(p) =>
        if l.labelText !in TextClasses then Failure(KeyError(l.labelText))
        else match WordEntries(l.words)
          case Failure(e) => Failure(e)
          case Success(ws) => Success(Some((Entry(p, FilterLexicon(l.text), TextClasses[l.labelText], false), ws)))
  }

  /** `res['line']` and `res['word']` after the loop over `form`. */
  function ParseLines(form: seq<FormLine>): Result<(seq<Entry>, seq<Entry>), PyError> {
    if form == [] then Success(([], [])) else LineStep(ParseLines(form[..|form| - 1]), form[|form| - 1])
  }

  /** One iteration of the outer loop applied to the lists built so far. */
  function LineStep(acc: Result<(seq<Entry>, seq<Entry>), PyError>, l: FormLine): Result<(seq<Entry>, seq<Entry>), PyError> {
    match acc
    case Failure(e) => Failure(e)
    case Success(a) =>
      match LineEntries(l)
      case Failure(e) => Failure(e)
      case Success(None) => Success(a)
      case Success(Some(x)) => Success((a.0 + [x.0], a.1 + x.1))
  }

  /** `_parse_ann_info_funsd` on the decoded `form` records: `None` when
      either list is empty. */
  function ParseAnnInfo(form: seq<FormLine>): Result<Option<AnnInfo>, PyError> {
    match ParseLines(form)
    case Failure(e) => Failure(e)
    case Success(acc) =>
      if |acc.0| == 0 || |acc.1| == 0 then Success(None) else Success(Some(AnnInfo(acc.0, acc.1)))
  }

  /** Once a prefix of the words fails, the whole list fails the same way. */
  lemma {:induction false} WordEntriesFailPrefix(ws: seq<WordRecord>, n: nat)
    requires n <= |ws| && WordEntries(ws[..n]).Failure?
    ensures WordEntries(ws) == WordEntries(ws[..n])
  {
    if n < |ws| {
      assert ws[..|ws| - 1][..n] == ws[..n];
      WordEntriesFailPrefix(ws[..|ws| - 1], n);
    } else {
      assert ws[..n] == ws;
    }
  }

  /** Once a prefix of the form fails, the whole form fails the same way. */
  lemma {:induction false} ParseLinesFailPrefix(form: seq<FormLine>, n: nat)
    requires n <= |form| && ParseLines(form[..n]).Failure?
    ensures ParseLines(form) == ParseLines(form[..n])
  {
    if n < |form| {
      assert form[..|form| - 1][..n] == form[..n];
      ParseLinesFailPrefix(form[..|form| - 1], n);
    } else {
      assert form[..n] == form;
    }
  }

  /** `_parse_ann_info_funsd` with its nested appending loops. */
  method ParseAnnInfoFunsd(form: seq<FormLine>) returns (r: Result<Option<AnnInfo>, PyError>)
    ensures r == ParseAnnInfo(form)
  {
    var lines: seq<Entry> := [];
    var words: seq<Entry> := [];
    for i := 0 to |form|
      invariant ParseLines(form[..i]) == Success((lines, words))
    {
      assert form[..i + 1][..i] == form[..i];
      var line := form[i];
      if |line.text| == 0 {
        continue;
      }
      var poly := Bbox2Poly(line.box);
      if poly.Failure? {
        ParseLinesFailPrefix(form, i + 1);
        return Failure(poly.error);
      }
      var transcript := FilterLexicon(line.text);
      if line.labelText !in TextClasses {
        ParseLinesFailPrefix(form, i + 1);
        return Failure(KeyError(line.labelText));
      }
      var textClass := TextClasses[line.labelText];
      var lineEntry := Entry(poly.value, transcript, textClass, false);
      lines := lines + [lineEntry];
      var before := words;
      for j := 0 to |line.words|
        invariant WordEntries(line.words[..j]).Success?
        invariant words == before + WordEntries(line.words[..j]).value
      {
        assert line.words[..j + 1][..j] == line.words[..j];
        var wpoly := Bbox2Poly(line.words[j].box);
        if wpoly.Failure? {
          WordEntriesFailPrefix(line.words, j + 1);
          ParseLinesFailPrefix(form, i + 1);
          return Failure(wpoly.error);
        }
        var wtranscript := FilterLexicon(line.words[j].text);
        words := words + [Entry(wpoly.value, wtranscript, -1, false)];
      }
      assert line.words[..|line.words|] == line.words;
    }
    assert form[..|form|] == form;
    if |lines| == 0 || |words| == 0 {
      return Success(None);
    }
    return Success(Some(AnnInfo(lines, words)));
  }

  /** An empty transcript does not count as a line. */
  function KeptLines(form: seq<FormLine>): (r: seq<FormLine>)
    ensures |r| <= |form|
    ensures forall k :: 0 <= k < |r| ==> |r[k].text| > 0 && r[k] in form
    ensures forall l :: l in form && |l.text| > 0 ==> l in r
  {
    if form == [] then []
    else
      var front := KeptLines(form[..|form| - 1]);
      assert forall l :: l in form ==> l in form[..|form| - 1] || l == form[|form| - 1];
      if |form[|form| - 1].text| > 0 then front + [form[|form| - 1]] else front
  }

  /** Keeping lines is a filter: one record is kept exactly when its
      transcript is non-empty, and records keep their order and repetitions. */
  lemma KeptLinesOne(l: FormLine)
    ensures KeptLines([l]) == if |l.text| > 0 then [l] else []
  {
    assert [l][..0] == [];
  }

  lemma {:induction false} KeptLinesAppend(a: seq<FormLine>, b: seq<FormLine>)
    ensures KeptLines(a + b) == KeptLines(a) + KeptLines(b)
  {
    if b == [] {
      assert a + b == a;
    } else {
      var bf := b[..|b| - 1];
      var last := b[|b| - 1];
      assert b == bf + [last];
      assert a + b == (a + bf) + [last];
      KeptLinesAppend(a, bf);
      KeptLinesSnoc(a + bf, last);
      KeptLinesSnoc(bf, last);
    }
  }

  lemma KeptLinesSnoc(xs: seq<FormLine>, l: FormLine)
    ensures KeptLines(xs + [l]) == KeptLines(xs) + (if |l.text| > 0 then [l] else [])
  {
    assert (xs + [l])[..|xs|] == xs;
  }

  /** Lines with empty transcripts are skipped together with their words:
      they change neither the result nor the error raised. */
  lemma {:induction false} ParseLinesSkipsEmpty(form: seq<FormLine>)
    ensures ParseLines(form) == ParseLines(KeptLines(form))
  {
    if form != [] {
      var front := form[..|form| - 1];
      var last := form[|form| - 1];
      ParseLinesSkipsEmpty(front);
      var kept := KeptLines(form);
      if |last.text| > 0 {
        assert kept == KeptLines(front) + [last];
        assert kept[..|kept| - 1] == KeptLines(front);
        assert ParseLines(kept) == LineStep(ParseLines(KeptLines(front)), last);
      } else {
        assert kept == KeptLines(front);
        assert LineStep(ParseLines(front), last) == ParseLines(front);
      }
    }
  }

  /** Every box has at least four numbers. */
  predicate WordsOk(ws: seq<WordRecord>) {
    forall k :: 0 <= k < |ws| ==> |ws[k].box| >= 4
  }

  /** A record the loop body gets through without raising. */
  predicate LineOk(l: FormLine) {
    |l.text| == 0 || (|l.box| >= 4 && l.labelText in TextClasses && WordsOk(l.words))
  }

  predicate LinesOk(form: seq<FormLine>) {
    forall i :: 0 <= i < |form| ==> LineOk(form[i])
  }

  /** Only characters of Lexicon_Table_95. */
  predicate LexiconOnly(s: string) {
    forall c :: c in s ==> c in Lexicon95
  }

  /** The word entry of a well-formed word, built directly. */
  function WordEntryOf(w: WordRecord): (e: Entry)
    requires |w.box| >= 4
    ensures IsAxisAligned(e.poly) && Corners(e.poly) == w.box[..4]
    ensures e.textClass == -1 && !e.ignore && LexiconOnly(e.transcript) && e.transcript == FilterLexicon(w.text)
  {
    Entry(Bbox2Poly(w.box).value, FilterLexicon(w.text), -1, false)
  }

  /** The line entry of a well-formed, non-empty line, built directly. */
  function LineEntryOf(l: FormLine): (e: Entry)
    requires |l.text| > 0 && LineOk(l)
    ensures IsAxisAligned(e.poly) && Corners(e.poly) == l.box[..4]
    ensures e.textClass == TextClasses[l.labelText] && 0 <= e.textClass <= 3
    ensures !e.ignore && LexiconOnly(e.transcript) && e.transcript == FilterLexicon(l.text)
  {
    Entry(Bbox2Poly(l.box).value, FilterLexicon(l.text), TextClasses[l.labelText], false)
  }

  /** The word entries of well-formed words: one per word, in order. */
  function MapWords(ws: seq<WordRecord>): (r: seq<Entry>)
    requires WordsOk(ws)
    ensures |r| == |ws| && forall k :: 0 <= k < |ws| ==> r[k] == WordEntryOf(ws[k])
  {
    if ws == [] then []
    else
      assert forall k :: 0 <= k < |ws| - 1 ==> ws[..|ws| - 1][k] == ws[k];
      MapWords(ws[..|ws| - 1]) + [WordEntryOf(ws[|ws| - 1])]
  }

  /** The number of words of the given lines. */
  function WordCount(ls: seq<FormLine>): nat {
    if ls == [] then 0 else WordCount(ls[..|ls| - 1]) + |ls[|ls| - 1].words|
  }

  /** The word entries of all the lines, line after line. Every one has
      class -1, no ignore flag and a lexicon-only transcript. */
  function FlatWords(ls: seq<FormLine>): (r: seq<Entry>)
    requires forall k :: 0 <= k < |ls| ==> WordsOk(ls[k].words)
    ensures |r| == WordCount(ls)
    ensures forall k :: 0 <= k < |r| ==>
      r[k].textClass == -1 && !r[k].ignore && LexiconOnly(r[k].transcript) && IsAxisAligned(r[k].poly)
  {
    if ls == [] then []
    else FlatWords(ls[..|ls| - 1]) + MapWords(ls[|ls| - 1].words)
  }

  /** The word records of all the lines, line after line. */
  function AllWords(ls: seq<FormLine>): (r: seq<WordRecord>)
    ensures |r| == WordCount(ls)
  {
    if ls == [] then [] else AllWords(ls[..|ls| - 1]) + ls[|ls| - 1].words
  }

  lemma MapWordsAppend(a: seq<WordRecord>, b: seq<WordRecord>)
    requires WordsOk(a) && WordsOk(b)
    ensures WordsOk(a + b) && MapWords(a + b) == MapWords(a) + MapWords(b)
  {
    var ab := a + b;
    assert forall k :: 0 <= k < |ab| ==> ab[k] == if k < |a| then a[k] else b[k - |a|];
    assert WordsOk(ab);
    var l := MapWords(ab);
    var r := MapWords(a) + MapWords(b);
    assert |l| == |r|;
    forall k | 0 <= k < |l| ensures l[k] == r[k] {
      if k < |a| {
        assert ab[k] == a[k];
      } else {
        assert ab[k] == b[k - |a|];
      }
    }
  }

  /** Word entry `k` of the lines is the entry of word record `k`. */
  lemma {:induction false} FlatWordsOfAllWords(ls: seq<FormLine>)
    requires forall k :: 0 <= k < |ls| ==> WordsOk(ls[k].words)
    ensures WordsOk(AllWords(ls)) && FlatWords(ls) == MapWords(AllWords(ls))
  {
    if ls != [] {
      var front := ls[..|ls| - 1];
      assert forall k :: 0 <= k < |front| ==> front[k] == ls[k];
      FlatWordsOfAllWords(front);
      MapWordsAppend(AllWords(front), ls[|ls| - 1].words);
    }
  }

  /** The inner loop's words succeed exactly when every box is long enough,
      and then give one entry per word, in order. */
  lemma {:induction false} WordEntriesReference(ws: seq<WordRecord>)
    ensures WordEntries(ws).Success? <==> WordsOk(ws)
    ensures WordsOk(ws) ==> WordEntries(ws) == Success(MapWords(ws))
  {
    if ws != [] {
      var front := ws[..|ws| - 1];
      var last := ws[|ws| - 1];
      WordEntriesReference(front);
      WordsOkSnoc(ws);
      if !WordsOk(front) {
        assert WordEntries(ws).Failure?;
      } else if |last.box| < 4 {
        assert WordEntry(last).Failure?;
      } else {
        assert WordEntry(last) == Success(WordEntryOf(last));
      }
    }
  }

  lemma WordsOkSnoc(ws: seq<WordRecord>)
    requires ws != []
    ensures WordsOk(ws) <==> WordsOk(ws[..|ws| - 1]) && |ws[|ws| - 1].box| >= 4
  {
    assert forall k :: 0 <= k < |ws| - 1 ==> ws[..|ws| - 1][k] == ws[k];
  }

  /** The same result built without loops: keep the non-empty lines, convert
      each, and collect their words. */
  function Reference(form: seq<FormLine>): (seq<Entry>, seq<Entry>)
    requires LinesOk(form)
  {
    var kept := KeptLines(form);
    assert forall k :: 0 <= k < |kept| ==> LineOk(kept[k]) && WordsOk(kept[k].words);
    (MapLines(kept), FlatWords(kept))
  }

  /** The line entries of non-empty, well-formed lines: one per line, in order. */
  function MapLines(ls: seq<FormLine>): (r: seq<Entry>)
    requires forall k :: 0 <= k < |ls| ==> |ls[k].text| > 0 && LineOk(ls[k])
    ensures |r| == |ls| && forall k :: 0 <= k < |ls| ==> r[k] == LineEntryOf(ls[k])
  {
    if ls == [] then []
    else
      var front := ls[..|ls| - 1];
      assert forall k :: 0 <= k < |front| ==> front[k] == ls[k];
      MapLines(front) + [LineEntryOf(ls[|ls| - 1])]
  }

  /** The loop over `form` succeeds exactly when every record is well formed,
      and then agrees with the loop-free reference. */
  lemma {:induction false} ParseLinesReference(form: seq<FormLine>)
    ensures ParseLines(form).Success? <==> LinesOk(form)
    ensures LinesOk(form) ==> ParseLines(form) == Success(Reference(form))
  {
    if form != [] {
      var front := form[..|form| - 1];
      var last := form[|form| - 1];
      ParseLinesReference(front);
      LinesOkSnoc(form);
      LineEntriesReference(last);
      if LinesOk(form) {
        ReferenceSnoc(form);
      }
    } else {
      assert Reference(form).0 == [];
    }
  }

  /** The reference grows by the last record exactly as the loop does. */
  lemma ReferenceSnoc(form: seq<FormLine>)
    requires form != [] && LinesOk(form)
    ensures LinesOk(form[..|form| - 1])
    ensures var rf := Reference(form[..|form| - 1]); var last := form[|form| - 1];
      Reference(form) == if |last.text| > 0 then (rf.0 + [LineEntryOf(last)], rf.1 + MapWords(last.words)) else rf
  {
    var front := form[..|form| - 1];
    var last := form[|form| - 1];
    LinesOkSnoc(form);
    var kept := KeptLines(form);
    var kf := KeptLines(front);
    if |last.text| > 0 {
      assert kept == kf + [last];
      assert kept[..|kept| - 1] == kf;
      assert MapLines(kept) == MapLines(kf) + [LineEntryOf(last)];
      assert FlatWords(kept) == FlatWords(kf) + MapWords(last.words);
    } else {
      assert kept == kf;
    }
  }

  lemma LinesOkSnoc(form: seq<FormLine>)
    requires form != []
    ensures LinesOk(form) <==> LinesOk(form[..|form| - 1]) && LineOk(form[|form| - 1])
  {
    assert forall k :: 0 <= k < |form| - 1 ==> form[..|form| - 1][k] == form[k];
  }

  /** One record succeeds exactly when it is well formed, and then gives
      nothing for an empty transcript, or its line entry and word entries. */
  lemma LineEntriesReference(l: FormLine)
    ensures LineEntries(l).Success? <==> LineOk(l)
    ensures |l.text| == 0 ==> LineEntries(l) == Success(None)
    ensures LineOk(l) && |l.text| > 0 ==> LineEntries(l) == Success(Some((LineEntryOf(l), MapWords(l.words))))
  {
    WordEntriesReference(l.words);
  }

  /** What every parsed entry looks like: line entry `k` is built from the
      `k`-th non-empty record (its box, the class of its label, its filtered
      transcript) and word entry `k` from the `k`-th word of those records;
      no entry is ignored and every transcript stays in the lexicon. */
  lemma ParsedEntries(form: seq<FormLine>)
    requires LinesOk(form)
    ensures ParseLines(form).Success?
    ensures var acc := ParseLines(form).value;
      && |acc.0| == |KeptLines(form)|
      && (forall k :: 0 <= k < |acc.0| ==>
            && acc.0[k].textClass == TextClasses[KeptLines(form)[k].labelText] && 0 <= acc.0[k].textClass <= 3
            && acc.0[k].transcript == FilterLexicon(KeptLines(form)[k].text)
            && IsAxisAligned(acc.0[k].poly) && |KeptLines(form)[k].box| >= 4
            && Corners(acc.0[k].poly) == KeptLines(form)[k].box[..4]
            && !acc.0[k].ignore && LexiconOnly(acc.0[k].transcript))
    ensures var acc := ParseLines(form).value; var ws := AllWords(KeptLines(form));
      && |acc.1| == |ws| == WordCount(KeptLines(form))
      && (forall k :: 0 <= k < |acc.1| ==>
            && acc.1[k].textClass == -1 && !acc.1[k].ignore
            && acc.1[k].transcript == FilterLexicon(ws[k].text) && LexiconOnly(acc.1[k].transcript)
            && IsAxisAligned(acc.1[k].poly) && |ws[k].box| >= 4 && Corners(acc.1[k].poly) == ws[k].box[..4])
  {
    ParseLinesReference(form);
    var kept := KeptLines(form);
    assert forall k :: 0 <= k < |kept| ==> LineOk(kept[k]) && WordsOk(kept[k].words);
    FlatWordsOfAllWords(kept);
  }

  /** The result is `None` exactly when no line has a transcript or those
      lines have no words; it fails exactly when some record is malformed. */
  lemma ParseAnnInfoOutcome(form: seq<FormLine>)
    ensures ParseAnnInfo(form).Success? <==> LinesOk(form)
    ensures LinesOk(form) ==>
      (ParseAnnInfo(form) == Success(None) <==> KeptLines(form) == [] || WordCount(KeptLines(form)) == 0)
  {
    ParseLinesReference(form);
  }
}
