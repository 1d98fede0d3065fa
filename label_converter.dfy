/** LabelConverter: the codec between transcripts and lexicon indices used
    for the recognition labels. `encode` upper-cases a transcript, appends
    `[STOP]`, looks each token up and pads or truncates to `seq_len`;
    `decode` maps indices back (directly for "CE", after dropping blanks and
    repeats for "CTC") and cuts the text at the first `[STOP]`. */
module LabelCodec {
  import opened Wrappers
  import opened PyStr
  import opened Dicts
  import opened Lexicon

  /** The two results of `encode`: the fixed-length sequence and the raw one. */
  datatype Encoding = Encoding(padded: seq<int>, raw: seq<int>)

  /** A token table as the converter builds it: the reserved tokens first. */
  predicate ValidTable(t: seq<string>) {
    |t| >= 2 && t[0] == PadToken && t[1] == StopToken
  }

  lemma ReservedTokensIndexed(t: seq<string>)
    requires ValidTable(t)
    ensures PadToken in IndexMap(t) && StopToken in IndexMap(t)
  {
    IndexMapKeys(t, PadToken);
    IndexMapKeys(t, StopToken);
  }

  /** `list(text.upper()) + ['[STOP]']`, the text taken as "" when ignored. */
  function Tokens(text: string, ignoreTag: bool): (r: seq<string>)
    ensures |r| == (if ignoreTag then 0 else |text|) + 1
    ensures r[|r| - 1] == StopToken
  {
    Singletons(Upper(if ignoreTag then "" else text)) + [StopToken]
  }

  /** `[char2idx[c] for c in toks]`: a missing token raises `KeyError`, the
      first missing one being reported. */
  function LookupAll(m: map<string, int>, toks: seq<string>): (r: Result<seq<int>, PyError>)
    ensures r.Success? <==> forall i :: 0 <= i < |toks| ==> toks[i] in m
    ensures r.Success? ==> |r.value| == |toks| && forall i :: 0 <= i < |toks| ==> r.value[i] == m[toks[i]]
    ensures r.Failure? ==> exists i :: 0 <= i < |toks| && toks[i] !in m && r.error == KeyError(toks[i])
  {
    if toks == [] then Success([])
    else if toks[0] !in m then Failure(KeyError(toks[0]))
    else match LookupAll(m, toks[1..])
      case Failure(e) =>
        assert forall i :: 0 < i < |toks| ==> toks[1..][i - 1] == toks[i];
        Failure(e)
      case Success(rest) => Success([m[toks[0]]] + rest)
  }

  /** The first result of `encode`: `[PAD] * seq_len` with the raw indices
      written over its start, or the raw indices cut to `seq_len` (Python
      slicing) when they are longer. */
  function Fit(raw: seq<int>, seqLen: int, pad: int): (r: seq<int>)
    ensures seqLen >= 0 ==> |r| == seqLen
    ensures |raw| <= seqLen ==> r[..|raw|] == raw && forall k :: |raw| <= k < seqLen ==> r[k] == pad
    ensures 0 <= seqLen < |raw| ==> r == raw[..seqLen]
    ensures seqLen < 0 ==> r == raw[..if |raw| + seqLen < 0 then 0 else |raw| + seqLen]
  {
    if |raw| > seqLen then SliceTo(raw, seqLen)
    else raw + seq(seqLen - |raw|, _ => pad)
  }

  lemma FitPadded(raw: seq<int>, seqLen: int, pad: int, buf: seq<int>)
    requires |raw| <= seqLen && |buf| == seqLen
    requires forall j :: 0 <= j < |raw| ==> buf[j] == raw[j]
    requires forall j :: |raw| <= j < seqLen ==> buf[j] == pad
    ensures buf == Fit(raw, seqLen, pad)
  {
    var f := Fit(raw, seqLen, pad);
    forall j | 0 <= j < seqLen ensures buf[j] == f[j] {
      if j < |raw| {
        assert f[..|raw|][j] == f[j];
      }
    }
  }

  /** The padding step of `encode`: allocate `[PAD] * seq_len` and write
      the raw indices over its start, or keep `text_idx[:seq_len]` when the
      raw indices are longer than `seq_len`. */
  method PadOrTruncate(textIdx: seq<int>, seqLen: int, pad: int) returns (padded: seq<int>)
    ensures padded == Fit(textIdx, seqLen, pad)
  {
    var buf := new int[if seqLen < 0 then 0 else seqLen](_ => pad);
    var textLen := |textIdx|;
    if textLen > seqLen {
      padded := SliceTo(textIdx, seqLen);
    } else {
      for k := 0 to textLen
        invariant forall j :: 0 <= j < k ==> buf[j] == textIdx[j]
        invariant forall j :: k <= j < buf.Length ==> buf[j] == pad
      {
        buf[k] := textIdx[k];
      }
      padded := buf[..];
      FitPadded(textIdx, seqLen, pad, padded);
    }
  }

  /** `encode(text, ignore_tag)` with the converter's table and `seq_len`. */
  function EncodeSpec(table: seq<string>, seqLen: int, text: string, ignoreTag: bool): (r: Result<Encoding, PyError>)
    requires ValidTable(table)
    ensures r.Failure? ==> r.error.KeyError?
    ensures r.Success? ==> |r.value.raw| == |Tokens(text, ignoreTag)| && (seqLen >= 0 ==> |r.value.padded| == seqLen)
  {
    var m := IndexMap(table);
    match LookupAll(m, Tokens(text, ignoreTag))
    case Failure(e) => Failure(e)
    case Success(raw) =>
      ReservedTokensIndexed(table);
      Success(Encoding(Fit(raw, seqLen, m[PadToken]), raw))
  }

  /** Python's `t[i]` on a list: negative indices count from the end. */
  function PyIndex(t: seq<string>, i: int): (r: Result<string, PyError>)
    ensures r.Success? <==> -|t| <= i < |t|
    ensures 0 <= i < |t| ==> r == Success(t[i])
    ensures -|t| <= i < 0 ==> r == Success(t[|t| + i])
    ensures r.Failure? ==> r.error == IndexError
  {
    if 0 <= i < |t| then Success(t[i])
    else if -|t| <= i < 0 then Success(t[|t| + i])
    else Failure(IndexError)
  }

  /** `[idx2char[i] for i in idx]`: an index out of range raises `IndexError`. */
  function IndexAll(t: seq<string>, idx: seq<int>): (r: Result<seq<string>, PyError>)
    ensures r.Success? <==> forall i :: 0 <= i < |idx| ==> -|t| <= idx[i] < |t|
    ensures r.Success? ==> |r.value| == |idx| && forall i :: 0 <= i < |idx| ==> PyIndex(t, idx[i]) == Success(r.value[i])
    ensures r.Failure? ==> r.error == IndexError
  {
    if idx == [] then Success([])
    else match PyIndex(t, idx[0])
      case Failure(e) => Failure(e)
      case Success(c) =>
        match IndexAll(t, idx[1..])
        case Failure(e) =>
          assert forall i :: 0 < i < |idx| ==> idx[1..][i - 1] == idx[i];
          Failure(e)
        case Success(rest) => Success([c] + rest)
  }

  /** `''.join(ss)`. */
  function Concat(ss: seq<string>): string {
    if ss == [] then "" else ss[0] + Concat(ss[1..])
  }

  lemma {:induction false} ConcatAppend(a: seq<string>, b: seq<string>)
    ensures Concat(a + b) == Concat(a) + Concat(b)
  {
    if a == [] {
      assert a + b == b;
    } else {
      assert (a + b)[1..] == a[1..] + b;
      ConcatAppend(a[1..], b);
    }
  }

  lemma {:induction false} ConcatSingletons(s: string)
    ensures Concat(Singletons(s)) == s
  {
    if s != [] {
      assert Singletons(s)[1..] == Singletons(s[1..]);
      ConcatSingletons(s[1..]);
    }
  }

  /** The CTC rule for keeping element `i`: not blank (0) and not a repeat of
      the element just before it in the input. */
  predicate Keep(s: seq<int>, i: int)
    requires 0 <= i < |s|
  {
    s[i] != 0 && (i == 0 || s[i] != s[i - 1])
  }

  /** The positions among the first `n` that the CTC rule keeps, in order. */
  function KeptPositions(s: seq<int>, n: nat): (p: seq<nat>)
    requires n <= |s|
    ensures forall k :: 0 <= k < |p| ==> p[k] < n && Keep(s, p[k])
    ensures forall k, l :: 0 <= k < l < |p| ==> p[k] < p[l]
    ensures forall i :: 0 <= i < n && Keep(s, i) ==> i in p
  {
    if n == 0 then [] else KeptPositions(s, n - 1) + (if Keep(s, n - 1) then [n - 1] else [])
  }

  /** The CTC-collapsed form of the first `n` indices: the loop's
      `new_text_idx` after `n` steps. */
  function Collapse(s: seq<int>, n: nat): (r: seq<int>)
    requires n <= |s|
    ensures |r| <= n
  {
    if n == 0 then [] else Collapse(s, n - 1) + (if Keep(s, n - 1) then [s[n - 1]] else [])
  }

  /** The collapsed sequence is exactly the elements at the kept positions,
      in input order. Hence no blank survives, and a survivor never equals
      the input element right before it. */
  lemma {:induction false} CollapseKept(s: seq<int>, n: nat)
    requires n <= |s|
    ensures |Collapse(s, n)| == |KeptPositions(s, n)|
    ensures forall k :: 0 <= k < |Collapse(s, n)| ==> Collapse(s, n)[k] == s[KeptPositions(s, n)[k]]
    ensures forall k :: 0 <= k < |Collapse(s, n)| ==> Collapse(s, n)[k] != 0
    ensures forall k :: 0 <= k < |Collapse(s, n)| && KeptPositions(s, n)[k] > 0 ==>
      Collapse(s, n)[k] != s[KeptPositions(s, n)[k] - 1]
  {
    if n > 0 {
      CollapseKept(s, n - 1);
    }
  }

  /** `text[:text.find('[STOP]')]` when `[STOP]` occurs, else `text`. */
  function CutAtStop(text: string): (r: string)
    ensures |r| <= |text| && r == text[..|r|]
    ensures !Contains(r, StopToken)
    ensures !Contains(text, StopToken) ==> r == text
    ensures Contains(text, StopToken) ==> OccursAt(text, StopToken, |r|)
  {
    var f := Find(text, StopToken);
    if f != -1 then
      PrefixBeforeFind(text, StopToken);
      text[..f]
    else text
  }

  /** `decode(text_idx)` with the converter's table and `recg_loss`. A mode
      other than "CE" or "CTC" leaves `text` unbound. */
  function DecodeSpec(table: seq<string>, recgLoss: string, idx: seq<int>): (r: Result<string, PyError>)
    ensures r.Success? ==> (recgLoss == "CE" || recgLoss == "CTC") && !Contains(r.value, StopToken)
    ensures r.Failure? ==> r.error == IndexError || r.error == UnboundLocalError
  {
    if recgLoss != "CE" && recgLoss != "CTC" then Failure(UnboundLocalError)
    else
      var chosen := if recgLoss == "CE" then idx else Collapse(idx, |idx|);
      match IndexAll(table, chosen)
      case Failure(e) => Failure(e)
      case Success(chars) => Success(CutAtStop(Concat(chars)))
  }

  class LabelConverter {
    const recgLoss: string
    const seqLen: int
    const idx2char: seq<string>
    const char2idx: map<string, int>

    ghost predicate Valid() {
      ValidTable(idx2char) && char2idx == IndexMap(idx2char)
    }

    /** `LabelConverter(seq_len, lexicon, recg_loss)`: the table is the reserved
        tokens followed by the lexicon (Lexicon_Table_95 when none is given),
        and `char2idx` is filled by enumerating it. */
    constructor (seqLen: int, lexicon: Option<seq<string>>, recgLoss: string)
      ensures Valid()
      ensures this.seqLen == seqLen && this.recgLoss == recgLoss
      ensures idx2char == TokenTable(lexicon.GetOr(DefaultLexicon))
    {
      var table := TokenTable(if lexicon.Some? then lexicon.value else DefaultLexicon);
      var m: map<string, int> := map[];
      for i := 0 to |table|
        invariant m == IndexMap(table[..i])
      {
        assert Enumerate(table[..i + 1])[..i] == Enumerate(table[..i]);
        m := m[table[i] := i];
      }
      assert table[..|table|] == table;
      this.recgLoss := recgLoss;
      this.seqLen := seqLen;
      this.idx2char := table;
      this.char2idx := m;
    }

    /** `encode(text, ignore_tag)`: the padded and the raw index sequences. */
    method Encode(text: string, ignoreTag: bool) returns (r: Result<Encoding, PyError>)
      requires Valid()
      ensures r == EncodeSpec(idx2char, seqLen, text, ignoreTag)
    {
      var tokens := Tokens(text, ignoreTag);
      var lookup := LookupAll(char2idx, tokens);
      if lookup.Failure? {
        return Failure(lookup.error);
      }
      var textIdx := lookup.value;
      ReservedTokensIndexed(idx2char);
      var padded := PadOrTruncate(textIdx, seqLen, char2idx[PadToken]);
      r := Success(Encoding(padded, textIdx));
    }

    /** `decode(text_idx)`: the text the indices spell, up to the first `[STOP]`. */
    method Decode(textIdx: seq<int>) returns (r: Result<string, PyError>)
      requires Valid()
      ensures r == DecodeSpec(idx2char, recgLoss, textIdx)
    {
      var chosen: seq<int>;
      if recgLoss == "CE" {
        chosen := textIdx;
      } else if recgLoss == "CTC" {
        var kept: seq<int> := [];
        for i := 0 to |textIdx|
          invariant kept == Collapse(textIdx, i)
        {
          var t := textIdx[i];
          if t != 0 && (i == 0 || t != textIdx[i - 1]) {
            kept := kept + [t];
          }
        }
        chosen := kept;
      } else {
        return Failure(UnboundLocalError);
      }
      var chars := IndexAll(idx2char, chosen);
      if chars.Failure? {
        return Failure(chars.error);
      }
      r := Success(CutAtStop(Concat(chars.value)));
    }
  }
}
