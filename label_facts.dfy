/** Properties of the label converter: the shape of `encode`, its failure
    condition, the reserved indices of the default table, and what `decode`
    gives back for an encoded transcript. */
module LabelFacts {
  import opened Wrappers
  import opened PyStr
  import opened Lexicon
  import opened LabelCodec

  /** The transcript `encode` actually reads: "" when the text is ignored. */
  function Read(text: string, ignoreTag: bool): string {
    Upper(if ignoreTag then "" else text)
  }

  /** `encode` fails exactly when some upper-cased character is not an entry
      of the table, and the `KeyError` names such a character. */
  lemma EncodeFailsIff(table: seq<string>, seqLen: int, text: string, ignoreTag: bool)
    requires ValidTable(table)
    ensures EncodeSpec(table, seqLen, text, ignoreTag).Failure? <==>
      exists i :: 0 <= i < |Read(text, ignoreTag)| && [Read(text, ignoreTag)[i]] !in table
    ensures EncodeSpec(table, seqLen, text, ignoreTag).Failure? ==>
      exists c :: c in Read(text, ignoreTag) && [c] !in table &&
        EncodeSpec(table, seqLen, text, ignoreTag).error == KeyError([c])
  {
    var u := Read(text, ignoreTag);
    var toks := Tokens(text, ignoreTag);
    var m := IndexMap(table);
    var look := LookupAll(m, toks);
    assert |toks| == |u| + 1;
    assert forall i :: 0 <= i < |u| ==> toks[i] == [u[i]];
    ReservedTokensIndexed(table);
    assert EncodeSpec(table, seqLen, text, ignoreTag).Failure? <==> look.Failure?;
    if look.Failure? {
      var i :| 0 <= i < |toks| && toks[i] !in m && look.error == KeyError(toks[i]);
      assert i < |u|;
      IndexMapKeys(table, toks[i]);
      assert u[i] in u && [u[i]] !in table;
      assert EncodeSpec(table, seqLen, text, ignoreTag).error == KeyError([u[i]]);
    } else {
      forall i | 0 <= i < |u| ensures [u[i]] in table {
        assert toks[i] in m;
        IndexMapKeys(table, toks[i]);
      }
    }
  }

  /** Shape of the two results for any table: the raw sequence has one index
      per character plus the `[STOP]` index, each index names its token in
      the table, and the first result is the raw one padded with the `[PAD]`
      index or cut to `seq_len`. */
  lemma EncodeShape(table: seq<string>, seqLen: int, text: string, ignoreTag: bool)
    requires ValidTable(table)
    requires EncodeSpec(table, seqLen, text, ignoreTag).Success?
    ensures var e := EncodeSpec(table, seqLen, text, ignoreTag).value;
      && |e.raw| == |Read(text, ignoreTag)| + 1
      && (forall i :: 0 <= i < |Read(text, ignoreTag)| ==> 0 <= e.raw[i] < |table| && table[e.raw[i]] == [Read(text, ignoreTag)[i]])
      && 0 <= e.raw[|e.raw| - 1] < |table| && table[e.raw[|e.raw| - 1]] == StopToken
      && (seqLen >= 0 ==> |e.padded| == seqLen)
      && (|e.raw| <= seqLen ==> e.padded == e.raw + seq(seqLen - |e.raw|, _ => IndexMap(table)[PadToken]))
      && (0 <= seqLen < |e.raw| ==> e.padded == e.raw[..seqLen])
  {
    var toks := Tokens(text, ignoreTag);
    var u := Read(text, ignoreTag);
    var raw := LookupAll(IndexMap(table), toks).value;
    ReservedTokensIndexed(table);
    var pad := IndexMap(table)[PadToken];
    assert EncodeSpec(table, seqLen, text, ignoreTag).value == Encoding(Fit(raw, seqLen, pad), raw);
    RawNamesTokens(table, toks, raw);
    assert forall i :: 0 <= i < |u| ==> toks[i] == [u[i]];
    FitShape(raw, seqLen, pad);
  }

  /** Every looked-up index names its token in the table. */
  lemma RawNamesTokens(table: seq<string>, toks: seq<string>, raw: seq<int>)
    requires LookupAll(IndexMap(table), toks) == Success(raw)
    ensures |raw| == |toks|
    ensures forall i :: 0 <= i < |toks| ==> 0 <= raw[i] < |table| && table[raw[i]] == toks[i]
  {
    forall i | 0 <= i < |toks| ensures 0 <= raw[i] < |table| && table[raw[i]] == toks[i] {
      IndexMapRoundTrip(table, toks[i]);
    }
  }

  /** The first result padded: the raw sequence followed by `pad`s. */
  lemma FitShape(raw: seq<int>, seqLen: int, pad: int)
    ensures |raw| <= seqLen ==> Fit(raw, seqLen, pad) == raw + seq(seqLen - |raw|, _ => pad)
  {
  }

  /** When the lexicon holds neither reserved token, `[PAD]` is 0 and
      `[STOP]` is 1. */
  lemma ReservedIndicesFixed(table: seq<string>)
    requires ValidTable(table)
    requires PadToken !in table[1..] && StopToken !in table[2..]
    ensures IndexMap(table)[PadToken] == 0 && IndexMap(table)[StopToken] == 1
  {
    var ps := Enumerate(table);
    assert forall j :: 0 < j < |table| ==> table[j] == table[1..][j - 1];
    assert forall j :: 1 < j < |table| ==> table[j] == table[2..][j - 2];
    assert Dicts.IsLastFor(ps, 0);
    assert Dicts.IsLastFor(ps, 1);
    Dicts.LastWinsValue(ps, 0);
    Dicts.LastWinsValue(ps, 1);
  }

  /** The default table `[PAD] [STOP] Lexicon_Table_95`. */
  const DefaultTable: seq<string> := TokenTable(DefaultLexicon)

  /** A one-character string is a default-table entry iff the character is
      in the lexicon; it then sits at an index of 2 or more. */
  lemma DefaultEntry(c: char)
    ensures [c] in DefaultTable <==> c in Lexicon95
    ensures c in Lexicon95 ==> [c] in IndexMap(DefaultTable) && IndexMap(DefaultTable)[[c]] >= 2
  {
    var t := DefaultTable;
    DefaultTableFacts();
    if c in Lexicon95 {
      var i :| 0 <= i < |Lexicon95| && Lexicon95[i] == c;
      assert t[i + 2] == [c];
      IndexMapOfDistinct(t, i + 2);
    }
    if [c] in t {
      var i :| 0 <= i < |t| && t[i] == [c];
      assert i >= 2 && t[i] == DefaultLexicon[i - 2];
    }
  }

  /** With the default table, `encode` succeeds exactly when every
      upper-cased character is printable ASCII (space to tilde). */
  lemma DefaultEncodeSucceedsIff(seqLen: int, text: string, ignoreTag: bool)
    ensures EncodeSpec(DefaultTable, seqLen, text, ignoreTag).Success? <==>
      forall c :: c in Read(text, ignoreTag) ==> ' ' <= c <= '~'
  {
    var u := Read(text, ignoreTag);
    EncodeFailsIff(DefaultTable, seqLen, text, ignoreTag);
    forall c ensures [c] in DefaultTable <==> ' ' <= c <= '~' {
      DefaultEntry(c);
      InLexiconIffPrintable(c);
    }
  }

  /** A transcript made of lexicon characters always encodes with the
      default table, since upper-casing stays inside the lexicon. */
  lemma LexiconTextEncodes(seqLen: int, text: string, ignoreTag: bool)
    requires forall c :: c in text ==> c in Lexicon95
    ensures EncodeSpec(DefaultTable, seqLen, text, ignoreTag).Success?
  {
    var u := Read(text, ignoreTag);
    forall c | c in u ensures ' ' <= c <= '~' {
      var i :| 0 <= i < |u| && u[i] == c;
      UpperStaysInLexicon(text[i]);
      InLexiconIffPrintable(c);
    }
    DefaultEncodeSucceedsIff(seqLen, text, ignoreTag);
  }

  /** With the default table: the raw result is character indices (2 or
      more) followed by 1; padding is with 0; when the raw result is longer
      than `seq_len` the cut drops `[STOP]`, so 1 does not occur. */
  lemma DefaultEncodeShape(seqLen: int, text: string, ignoreTag: bool)
    requires EncodeSpec(DefaultTable, seqLen, text, ignoreTag).Success?
    ensures var e := EncodeSpec(DefaultTable, seqLen, text, ignoreTag).value;
      && |e.raw| == |Read(text, ignoreTag)| + 1
      && e.raw[|e.raw| - 1] == 1
      && (forall i :: 0 <= i < |e.raw| - 1 ==> e.raw[i] >= 2)
      && (seqLen >= 0 ==> |e.padded| == seqLen)
      && (|e.raw| <= seqLen ==> e.padded == e.raw + seq(seqLen - |e.raw|, _ => 0))
      && (0 <= seqLen < |e.raw| ==> e.padded == e.raw[..seqLen] && 1 !in e.padded)
  {
    var e := EncodeSpec(DefaultTable, seqLen, text, ignoreTag).value;
    var u := Read(text, ignoreTag);
    var toks := Tokens(text, ignoreTag);
    DefaultTableFacts();
    EncodeShape(DefaultTable, seqLen, text, ignoreTag);
    EncodeFailsIff(DefaultTable, seqLen, text, ignoreTag);
    forall i | 0 <= i < |e.raw| - 1 ensures e.raw[i] >= 2 {
      assert toks[i] == [u[i]] && [u[i]] in DefaultTable;
      DefaultEntry(u[i]);
    }
  }

  /** An ignored transcript encodes as `[STOP]` alone: raw `[1]`, first
      result `[1, 0, 0, ...]` (or `[]` when `seq_len` is 0). */
  lemma DefaultIgnoredText(seqLen: int, text: string)
    ensures EncodeSpec(DefaultTable, seqLen, text, true).Success?
    ensures EncodeSpec(DefaultTable, seqLen, text, true).value.raw == [1]
    ensures seqLen >= 1 ==> EncodeSpec(DefaultTable, seqLen, text, true).value.padded == [1] + seq(seqLen - 1, _ => 0)
    ensures seqLen == 0 ==> EncodeSpec(DefaultTable, seqLen, text, true).value.padded == []
  {
    DefaultEncodeSucceedsIff(seqLen, text, true);
    DefaultEncodeShape(seqLen, text, true);
  }

  /** Decoding indices that all lie in the table joins the entries they name. */
  lemma {:induction false} IndexAllInRange(t: seq<string>, idx: seq<int>, want: seq<string>)
    requires |idx| == |want|
    requires forall i :: 0 <= i < |idx| ==> 0 <= idx[i] < |t| && t[idx[i]] == want[i]
    ensures IndexAll(t, idx) == Success(want)
  {
    if idx != [] {
      assert PyIndex(t, idx[0]) == Success(want[0]);
      IndexAllInRange(t, idx[1..], want[1..]);
      assert want == [want[0]] + want[1..];
    }
  }

  /** `[STOP]` starts with a character that does not recur in it. */
  lemma StopTokenShape()
    ensures StopToken != [] && forall k :: 0 < k < |StopToken| ==> StopToken[k] != StopToken[0]
  {
  }

  /** Cutting at the first `[STOP]` ignores everything from an appended
      `[STOP]` onwards. */
  lemma CutAtStopAppended(u: string, tail: string)
    ensures CutAtStop(u + StopToken + tail) == CutAtStop(u)
  {
    StopTokenShape();
    if Contains(u, StopToken) {
      assert u + StopToken + tail == u + (StopToken + tail);
      FindExtend(u, StopToken, StopToken + tail);
      var f := Find(u, StopToken);
      assert (u + StopToken + tail)[..f] == u[..f];
    } else {
      FindAfterStem(u, StopToken, tail);
      assert (u + StopToken + tail)[..|u|] == u;
    }
  }

  /** Joining the tokens of a transcript, then `[STOP]`, then any padding. */
  lemma ConcatTokens(u: string, pads: seq<string>)
    ensures Concat(Singletons(u) + [StopToken] + pads) == u + StopToken + Concat(pads)
  {
    ConcatAppend(Singletons(u) + [StopToken], pads);
    ConcatAppend(Singletons(u), [StopToken]);
    ConcatSingletons(u);
    assert [StopToken][1..] == [];
  }

  /** CE decoding of the padded result of `encode`, for any table, when the
      transcript fits: the upper-cased transcript cut at its own first
      `[STOP]`. */
  lemma CEDecodePadded(table: seq<string>, seqLen: int, text: string)
    requires ValidTable(table)
    requires EncodeSpec(table, seqLen, text, false).Success?
    requires |text| + 1 <= seqLen
    ensures DecodeSpec(table, "CE", EncodeSpec(table, seqLen, text, false).value.padded) == Success(CutAtStop(Upper(text)))
  {
    var e := EncodeSpec(table, seqLen, text, false).value;
    var u := Upper(text);
    var toks := Tokens(text, false);
    EncodeShape(table, seqLen, text, false);
    ReservedTokensIndexed(table);
    IndexMapRoundTrip(table, PadToken);
    var pads := seq(seqLen - |toks|, _ => PadToken);
    var want := Singletons(u) + [StopToken] + pads;
    forall i | 0 <= i < |e.padded| ensures 0 <= e.padded[i] < |table| && table[e.padded[i]] == want[i] {
      if i < |e.raw| - 1 {
        assert want[i] == [u[i]];
      }
    }
    IndexAllInRange(table, e.padded, want);
    ConcatTokens(u, pads);
    CutAtStopAppended(u, Concat(pads));
  }

  /** CE decoding of the raw result returns the transcript cut at its first `[STOP]`. */
  lemma CEDecodeRaw(table: seq<string>, seqLen: int, text: string)
    requires ValidTable(table)
    requires EncodeSpec(table, seqLen, text, false).Success?
    ensures DecodeSpec(table, "CE", EncodeSpec(table, seqLen, text, false).value.raw) == Success(CutAtStop(Upper(text)))
  {
    var e := EncodeSpec(table, seqLen, text, false).value;
    var u := Upper(text);
    EncodeShape(table, seqLen, text, false);
    var want := Singletons(u) + [StopToken] + [];
    forall i | 0 <= i < |e.raw| ensures 0 <= e.raw[i] < |table| && table[e.raw[i]] == want[i] {
      if i < |e.raw| - 1 {
        assert want[i] == [u[i]];
      }
    }
    IndexAllInRange(table, e.raw, want);
    ConcatTokens(u, []);
    CutAtStopAppended(u, Concat([]));
  }

  /** The CE round trip: when the upper-cased transcript has no `[STOP]`
      substring and fits in `seq_len`, decoding the padded result gives it
      back, whatever the table. */
  lemma CERoundTrip(table: seq<string>, seqLen: int, text: string)
    requires ValidTable(table)
    requires EncodeSpec(table, seqLen, text, false).Success?
    requires !Contains(Upper(text), StopToken)
    requires |text| + 1 <= seqLen
    ensures DecodeSpec(table, "CE", EncodeSpec(table, seqLen, text, false).value.padded) == Success(Upper(text))
  {
    CEDecodePadded(table, seqLen, text);
  }

  /** The side condition is needed: a transcript whose upper-cased form
      contains `[STOP]` never comes back, because a decoded text never
      contains `[STOP]`. */
  lemma StopInTextBreaksRoundTrip(table: seq<string>, seqLen: int, text: string, idx: seq<int>)
    requires ValidTable(table)
    requires Contains(Upper(text), StopToken)
    ensures DecodeSpec(table, "CE", idx) != Success(Upper(text))
    ensures DecodeSpec(table, "CTC", idx) != Success(Upper(text))
  {
    DecodeNeverStop(table, "CE", idx);
    DecodeNeverStop(table, "CTC", idx);
  }

  /** For instance a transcript `a + "[stop]" + b` whose `a` holds no
      `[STOP]` decodes to the upper-cased `a` alone. */
  lemma EmbeddedStopCutsText(table: seq<string>, seqLen: int, a: string, b: string)
    requires ValidTable(table)
    requires EncodeSpec(table, seqLen, a + "[stop]" + b, false).Success?
    requires !Contains(Upper(a), StopToken)
    requires |a + "[stop]" + b| + 1 <= seqLen
    ensures DecodeSpec(table, "CE", EncodeSpec(table, seqLen, a + "[stop]" + b, false).value.padded) == Success(Upper(a))
  {
    var text := a + "[stop]" + b;
    var u := Upper(a) + StopToken + Upper(b);
    assert Upper(text) == u by {
      forall i | 0 <= i < |text| ensures Upper(text)[i] == u[i] {
        if |a| <= i < |a| + 6 {
          assert text[i] == "[stop]"[i - |a|] && u[i] == StopToken[i - |a|];
        }
      }
    }
    CEDecodePadded(table, seqLen, text);
    CutAtStopAppended(Upper(a), Upper(b));
  }

  /** When the transcript does not fit, the cut drops `[STOP]` and CE
      decoding gives the first `seq_len` upper-cased characters, cut at
      their own first `[STOP]`. */
  lemma CEDecodeTruncated(table: seq<string>, seqLen: int, text: string)
    requires ValidTable(table)
    requires EncodeSpec(table, seqLen, text, false).Success?
    requires 0 <= seqLen < |text| + 1
    ensures DecodeSpec(table, "CE", EncodeSpec(table, seqLen, text, false).value.padded) == Success(CutAtStop(Upper(text)[..seqLen]))
  {
    var e := EncodeSpec(table, seqLen, text, false).value;
    var u := Upper(text)[..seqLen];
    EncodeShape(table, seqLen, text, false);
    var want := Singletons(u);
    forall i | 0 <= i < |e.padded| ensures 0 <= e.padded[i] < |table| && table[e.padded[i]] == want[i] {
      assert e.padded[i] == e.raw[i];
    }
    IndexAllInRange(table, e.padded, want);
    ConcatSingletons(u);
  }

  /** A decoded text never contains `[STOP]`, and a mode other than "CE" or
      "CTC" always fails with the unbound `text`. */
  lemma DecodeNeverStop(table: seq<string>, recgLoss: string, idx: seq<int>)
    ensures DecodeSpec(table, recgLoss, idx).Success? ==> !Contains(DecodeSpec(table, recgLoss, idx).value, StopToken)
    ensures recgLoss != "CE" && recgLoss != "CTC" ==> DecodeSpec(table, recgLoss, idx) == Failure(UnboundLocalError)
  {
  }

  /** CE decoding fails exactly when an index lies outside Python's range
      `-len(idx2char) <= i < len(idx2char)`. */
  lemma CEDecodeFailsIff(table: seq<string>, idx: seq<int>)
    ensures DecodeSpec(table, "CE", idx).Failure? <==> exists i :: 0 <= i < |idx| && !(-|table| <= idx[i] < |table|)
  {
  }

  /** CTC collapsing leaves a sequence without blanks and without adjacent
      repeats unchanged. */
  lemma {:induction false} CollapseNoOp(s: seq<int>, n: nat)
    requires n <= |s|
    requires forall i :: 0 <= i < n ==> Keep(s, i)
    ensures Collapse(s, n) == s[..n]
  {
    if n > 0 {
      CollapseNoOp(s, n - 1);
      assert Keep(s, n - 1);
      assert Collapse(s, n) == Collapse(s, n - 1) + [s[n - 1]];
      assert s[..n] == s[..n - 1] + [s[n - 1]];
    }
  }

  /** So on such input CTC decoding agrees with CE decoding. */
  lemma CTCAgreesWithCE(table: seq<string>, idx: seq<int>)
    requires forall i :: 0 <= i < |idx| ==> Keep(idx, i)
    ensures DecodeSpec(table, "CTC", idx) == DecodeSpec(table, "CE", idx)
  {
    CollapseNoOp(idx, |idx|);
    assert idx[..|idx|] == idx;
  }

  /** Collapsing is a subsequence: every survivor comes from a strictly
      later input position than the one before it. */
  lemma CollapseIsSubsequence(s: seq<int>)
    ensures var p := KeptPositions(s, |s|);
      |Collapse(s, |s|)| == |p| <= |s| &&
      forall k :: 0 <= k < |p| ==> k <= p[k] < |s| && Collapse(s, |s|)[k] == s[p[k]]
  {
    var p := KeptPositions(s, |s|);
    CollapseKept(s, |s|);
    forall k | 0 <= k < |p| ensures k <= p[k] {
      PositionsGrow(p, k);
    }
    if |p| > |s| {
      PositionsGrow(p, |p| - 1);
    }
  }

  lemma {:induction false} PositionsGrow(p: seq<nat>, k: int)
    requires forall a, b :: 0 <= a < b < |p| ==> p[a] < p[b]
    requires 0 <= k < |p|
    ensures k <= p[k]
  {
    if k > 0 {
      PositionsGrow(p, k - 1);
    }
  }
}
