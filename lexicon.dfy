/** The fixed vocabularies of the FUNSD end-to-end IE dataset: the four
    entity classes, the 95-character recognition lexicon and the token table
    `[PAD]`, `[STOP]`, lexicon... that the label converter indexes. */
module Lexicon {
  import opened PyStr
  import opened Dicts

  /** TEXT_CLASSES: FUNSD entity labels and their class indices. */
  const TextClasses: map<string, int> :=
    map["question" := 0, "answer" := 1, "header" := 2, "other" := 3]

  /** Lexicon_Table_95, in the order of the source list. */
  const Lexicon95: string :=
    "!\"#$%&'()*+,-./" +
    "0123456789:;<=>?@" +
    "ABCDEFGHIJKLMNOPQ" +
    "RSTUVWXYZ[\\]^_`abc" +
    "defghijklmnopqrst" +
    "uvwxyz{|}~ "

  const PadToken: string := "[PAD]"
  const StopToken: string := "[STOP]"

  /** The printable ASCII characters 33..126 followed by the space. */
  function PrintableAscii(): (r: string)
    ensures |r| == 95
  {
    seq(94, i requires 0 <= i < 94 => (33 + i) as char) + [' ']
  }

  /** The list above is exactly the printable ASCII range, then the space. */
  lemma Lexicon95IsPrintableAscii()
    ensures Lexicon95 == PrintableAscii()
  {
    assert "!\"#$%&'()*+,-./" == PrintableAscii()[0..15];
    assert "0123456789:;<=>?@" == PrintableAscii()[15..32];
    assert "ABCDEFGHIJKLMNOPQ" == PrintableAscii()[32..49];
    assert "RSTUVWXYZ[\\]^_`abc" == PrintableAscii()[49..67];
    assert "defghijklmnopqrst" == PrintableAscii()[67..84];
    assert "uvwxyz{|}~ " == PrintableAscii()[84..95];
  }

  /** A character is in the lexicon exactly when it is printable ASCII
      (space to tilde). */
  lemma InLexiconIffPrintable(c: char)
    ensures c in Lexicon95 <==> ' ' <= c <= '~'
  {
    Lexicon95IsPrintableAscii();
    var p := PrintableAscii();
    if ' ' < c <= '~' {
      assert p[c as int - 33] == c;
    } else if c == ' ' {
      assert p[94] == c;
    }
  }

  /** The 95 lexicon characters are pairwise distinct. */
  lemma Lexicon95Distinct()
    ensures |Lexicon95| == 95
    ensures forall i, j :: 0 <= i < j < |Lexicon95| ==> Lexicon95[i] != Lexicon95[j]
  {
    Lexicon95IsPrintableAscii();
  }

  /** Upper-casing keeps a lexicon character in the lexicon, since the
      lexicon holds both cases of every ASCII letter. */
  lemma UpperStaysInLexicon(c: char)
    requires c in Lexicon95
    ensures UpperChar(c) in Lexicon95
  {
    InLexiconIffPrintable(c);
    InLexiconIffPrintable(UpperChar(c));
  }

  /** `list(s)`: each character as a one-character string. */
  function Singletons(s: string): (r: seq<string>)
    ensures |r| == |s|
    ensures forall i :: 0 <= i < |s| ==> r[i] == [s[i]]
  {
    seq(|s|, i requires 0 <= i < |s| => [s[i]])
  }

  /** The default lexicon as the source keeps it: a list of one-character strings. */
  const DefaultLexicon: seq<string> := Singletons(Lexicon95)

  /** `idx2char`: the two reserved tokens followed by the lexicon. */
  function TokenTable(lexicon: seq<string>): (t: seq<string>)
    ensures |t| == |lexicon| + 2
    ensures t[0] == PadToken && t[1] == StopToken
    ensures t[2..] == lexicon
  {
    [PadToken, StopToken] + lexicon
  }

  /** `enumerate(t)` as (item, index) pairs. */
  function Enumerate(t: seq<string>): (ps: seq<(string, int)>)
    ensures |ps| == |t|
    ensures forall i :: 0 <= i < |t| ==> ps[i] == (t[i], i)
  {
    seq(|t|, i requires 0 <= i < |t| => (t[i], i))
  }

  /** `char2idx`: each entry of the table mapped to its index, a later
      duplicate overriding an earlier one. */
  function IndexMap(t: seq<string>): map<string, int> {
    LastWins(Enumerate(t))
  }

  /** `char2idx` and `idx2char` are inverse on the table's own entries:
      looking an entry up and indexing back gives the entry, whatever the
      table holds. */
  lemma IndexMapRoundTrip(t: seq<string>, k: string)
    requires k in IndexMap(t)
    ensures 0 <= IndexMap(t)[k] < |t| && t[IndexMap(t)[k]] == k
  {
    LastWinsFrom(Enumerate(t), k);
  }

  /** The keys of `char2idx` are exactly the table's entries. */
  lemma IndexMapKeys(t: seq<string>, k: string)
    ensures k in IndexMap(t) <==> k in t
  {
    var ps := Enumerate(t);
    if k in t {
      var i :| 0 <= i < |t| && t[i] == k;
      assert ps[i].0 == k;
    }
  }

  /** With distinct entries, `char2idx[idx2char[i]] == i` for every index. */
  lemma {:induction false} IndexMapOfDistinct(t: seq<string>, i: int)
    requires forall a, b :: 0 <= a < b < |t| ==> t[a] != t[b]
    requires 0 <= i < |t|
    ensures t[i] in IndexMap(t) && IndexMap(t)[t[i]] == i
  {
    var ps := Enumerate(t);
    assert IsLastFor(ps, i);
    LastWinsValue(ps, i);
  }

  /** The default table has 97 distinct entries: `[PAD]` is 0, `[STOP]` is 1
      and every index maps back to itself. */
  lemma DefaultTableFacts()
    ensures |TokenTable(DefaultLexicon)| == 97
    ensures forall a, b :: 0 <= a < b < 97 ==> TokenTable(DefaultLexicon)[a] != TokenTable(DefaultLexicon)[b]
    ensures |IndexMap(TokenTable(DefaultLexicon)).Keys| == 97
    ensures IndexMap(TokenTable(DefaultLexicon))[PadToken] == 0
    ensures IndexMap(TokenTable(DefaultLexicon))[StopToken] == 1
    ensures forall i :: 0 <= i < 97 ==> IndexMap(TokenTable(DefaultLexicon))[TokenTable(DefaultLexicon)[i]] == i
  {
    var t := TokenTable(DefaultLexicon);
    Lexicon95Distinct();
    forall a, b | 0 <= a < b < 97 ensures t[a] != t[b] {
      if a >= 2 {
        assert t[a] == [Lexicon95[a - 2]] && t[b] == [Lexicon95[b - 2]];
      } else if b >= 2 {
        assert |t[b]| == 1;
      }
    }
    forall i | 0 <= i < 97 ensures IndexMap(t)[t[i]] == i {
      IndexMapOfDistinct(t, i);
    }
    var m := IndexMap(t);
    assert m.Keys == set i | 0 <= i < 97 :: t[i];
    DistinctImageSize(t);
  }

  lemma DistinctImageSize(t: seq<string>)
    requires forall a, b :: 0 <= a < b < |t| ==> t[a] != t[b]
    ensures |set i | 0 <= i < |t| :: t[i]| == |t|
  {
    if t != [] {
      var front := t[..|t| - 1];
      DistinctImageSize(front);
      var s := set i | 0 <= i < |t| :: t[i];
      var sf := set i | 0 <= i < |front| :: front[i];
      assert s == sf + {t[|t| - 1]};
      assert t[|t| - 1] !in sf;
    }
  }

  /** `filter(lambda c: c in Lexicon_Table_95, s)`, joined back into a string. */
  function FilterLexicon(s: string): (r: string)
    ensures forall c :: c in r ==> c in Lexicon95
    ensures forall c :: c in s && c in Lexicon95 ==> c in r
    ensures |r| <= |s|
  {
    if s == [] then []
    else
      var rest := FilterLexicon(s[..|s| - 1]);
      assert forall c :: c in s ==> c in s[..|s| - 1] || c == s[|s| - 1];
      if s[|s| - 1] in Lexicon95 then rest + [s[|s| - 1]] else rest
  }

  /** The filter keeps characters in order and with their repetitions: it
      works character by character and distributes over concatenation. */
  lemma FilterLexiconOne(c: char)
    ensures FilterLexicon([c]) == if c in Lexicon95 then [c] else []
  {
    assert [c][..0] == [];
  }

  lemma {:induction false} FilterLexiconAppend(a: string, b: string)
    ensures FilterLexicon(a + b) == FilterLexicon(a) + FilterLexicon(b)
  {
    if b == [] {
      assert a + b == a;
    } else {
      var bf := b[..|b| - 1];
      FilterLexiconAppend(a, bf);
      assert (a + b)[..|a + b| - 1] == a + bf;
      assert (a + b)[|a + b| - 1] == b[|b| - 1];
    }
  }

  /** Filtering is the identity on a text already inside the lexicon. */
  lemma {:induction false} FilterLexiconKeeps(s: string)
    requires forall c :: c in s ==> c in Lexicon95
    ensures FilterLexicon(s) == s
  {
    if s != [] {
      var front := s[..|s| - 1];
      var c := s[|s| - 1];
      forall d | d in front ensures d in Lexicon95 {
        assert d in s;
      }
      FilterLexiconKeeps(front);
      assert c in s;
      assert FilterLexicon(s) == front + [c];
      assert s == front + [c];
    }
  }
}
