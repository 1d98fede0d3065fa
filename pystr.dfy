/** The Python string built-ins the modelled code relies on: `in`, `find`,
    `endswith`, `upper`, `replace`, `split`, `int(...)`, slicing with a
    negative start, and `os.path.basename` / `os.path.join` (POSIX). */
module PyStr {
  import opened Wrappers

  /** `pat` occurs in `s` starting at index `i`. */
  predicate OccursAt(s: string, pat: string, i: int) {
    0 <= i && i + |pat| <= |s| && s[i..i + |pat|] == pat
  }

  /** Python's `pat in s` for two strings. */
  predicate Contains(s: string, pat: string) {
    exists i | 0 <= i <= |s| - |pat| :: OccursAt(s, pat, i)
  }

  lemma OccursAtChar(s: string, c: char, i: int)
    ensures OccursAt(s, [c], i) <==> 0 <= i < |s| && s[i] == c
  {
    if 0 <= i < |s| {
      assert s[i..i + 1] == [s[i]];
    }
  }

  lemma ContainsChar(s: string, c: char)
    ensures Contains(s, [c]) <==> c in s
  {
    if c in s {
      var i :| 0 <= i < |s| && s[i] == c;
      OccursAtChar(s, c, i);
    }
    if Contains(s, [c]) {
      var i :| 0 <= i <= |s| - 1 && OccursAt(s, [c], i);
      OccursAtChar(s, c, i);
    }
  }

  /** `s.find(pat, from)`: the first index at or after `from` where `pat`
      occurs, or -1. */
  function FindFrom(s: string, pat: string, from: nat): (r: int)
    requires from <= |s|
    decreases |s| - from
    ensures r == -1 || (from <= r && OccursAt(s, pat, r))
    ensures r == -1 <==> forall i :: from <= i ==> !OccursAt(s, pat, i)
    ensures r != -1 ==> forall i :: from <= i < r ==> !OccursAt(s, pat, i)
  {
    if from + |pat| > |s| then -1
    else if s[from..from + |pat|] == pat then from
    else
      assert |pat| > 0;
      FindFrom(s, pat, from + 1)
  }

  /** `s.find(pat)`: the index of the first occurrence of `pat`, or -1. */
  function Find(s: string, pat: string): (r: int)
    ensures r == -1 <==> !Contains(s, pat)
    ensures r != -1 ==> OccursAt(s, pat, r) && forall i :: 0 <= i < r ==> !OccursAt(s, pat, i)
  {
    FindFrom(s, pat, 0)
  }

  /** `s.endswith(suffix)`. */
  predicate EndsWith(s: string, suffix: string) {
    |suffix| <= |s| && s[|s| - |suffix|..] == suffix
  }

  /** `s[start:]` for a possibly negative `start`. */
  function SliceFrom(s: string, start: int): (r: string)
    ensures 0 <= start <= |s| ==> r == s[start..]
    ensures start < 0 && |s| > 0 && -start <= |s| ==> r == s[|s| + start..]
  {
    if start >= 0 then (if start <= |s| then s[start..] else [])
    else if |s| + start >= 0 then s[|s| + start..]
    else s
  }

  /** `xs[:stop]` for a possibly negative `stop`. */
  function SliceTo<T>(xs: seq<T>, stop: int): (r: seq<T>)
    ensures 0 <= stop <= |xs| ==> r == xs[..stop]
    ensures stop < 0 ==> r == xs[..if |xs| + stop < 0 then 0 else |xs| + stop]
    ensures stop > |xs| ==> r == xs
  {
    if stop >= 0 then (if stop <= |xs| then xs[..stop] else xs)
    else if |xs| + stop >= 0 then xs[..|xs| + stop]
    else []
  }

  /** If `needle` starts with a character that does not recur in it, and
      `stem` does not contain it, its first occurrence in
      `stem + needle + rest` is right after `stem`. */
  lemma FindAfterStem(stem: string, needle: string, rest: string)
    requires needle != []
    requires forall k :: 0 < k < |needle| ==> needle[k] != needle[0]
    requires !Contains(stem, needle)
    ensures Find(stem + needle + rest, needle) == |stem|
  {
    var s := stem + needle + rest;
    assert s[|stem|..|stem| + |needle|] == needle;
    assert OccursAt(s, needle, |stem|);
    forall j | 0 <= j < |stem| ensures !OccursAt(s, needle, j) {
      NoOccurrenceInStem(stem, needle, rest, j);
    }
  }

  lemma NoOccurrenceInStem(stem: string, needle: string, rest: string, j: int)
    requires needle != []
    requires forall k :: 0 < k < |needle| ==> needle[k] != needle[0]
    requires !Contains(stem, needle)
    requires 0 <= j < |stem|
    ensures !OccursAt(stem + needle + rest, needle, j)
  {
    var s := stem + needle + rest;
    if j + |needle| <= |stem| {
      assert stem[j..j + |needle|] == s[j..j + |needle|];
      assert !OccursAt(stem, needle, j);
    } else {
      assert s[|stem|] == needle[0];
      assert j + |needle| <= |s| ==> s[j..j + |needle|][|stem| - j] == s[|stem|];
      assert needle[|stem| - j] != needle[0];
    }
  }

  /** An occurrence inside a prefix is an occurrence in the whole. */
  lemma OccursInPrefix(s: string, n: nat, pat: string, i: int)
    requires n <= |s| && OccursAt(s[..n], pat, i)
    ensures OccursAt(s, pat, i)
  {
    assert s[..n][i..i + |pat|] == s[i..i + |pat|];
  }

  /** Appending text after a string that already contains `pat` does not
      move its first occurrence. */
  lemma FindExtend(s: string, pat: string, rest: string)
    requires Contains(s, pat)
    ensures Find(s + rest, pat) == Find(s, pat)
  {
    var f := Find(s, pat);
    var t := s + rest;
    assert s[f..f + |pat|] == t[f..f + |pat|];
    assert OccursAt(t, pat, f);
    var g := Find(t, pat);
    if g < f {
      assert OccursAt(t, pat, g);
      assert s[g..g + |pat|] == t[g..g + |pat|];
      assert OccursAt(s, pat, g);
    }
  }

  /** What precedes the first occurrence of `pat` does not contain it. */
  lemma PrefixBeforeFind(s: string, pat: string)
    requires pat != [] && Find(s, pat) != -1
    ensures !Contains(s[..Find(s, pat)], pat)
  {
    var f := Find(s, pat);
    if Contains(s[..f], pat) {
      var i :| 0 <= i <= f - |pat| && OccursAt(s[..f], pat, i);
      OccursInPrefix(s, f, pat, i);
    }
  }

  /** The upper-case form of an ASCII letter; every other character is kept. */
  function UpperChar(c: char): char {
    if 'a' <= c <= 'z' then (c as int - 32) as char else c
  }

  /** `s.upper()`, restricted to the ASCII case mapping. */
  function Upper(s: string): (r: string)
    ensures |r| == |s|
    ensures forall i :: 0 <= i < |s| ==> r[i] == UpperChar(s[i])
  {
    seq(|s|, i requires 0 <= i < |s| => UpperChar(s[i]))
  }

  /** `s.replace(needle, repl)` for a non-empty needle: occurrences are
      replaced left to right without overlapping. */
  function ReplaceAll(s: string, needle: string, repl: string): string
    requires needle != []
    decreases |s|
  {
    if |s| < |needle| then s
    else if s[..|needle|] == needle then repl + ReplaceAll(s[|needle|..], needle, repl)
    else [s[0]] + ReplaceAll(s[1..], needle, repl)
  }

  lemma {:induction false} ContainsTail(s: string, pat: string)
    requires s != [] && !Contains(s, pat)
    ensures !Contains(s[1..], pat)
  {
    if Contains(s[1..], pat) {
      var i :| 0 <= i <= |s[1..]| - |pat| && OccursAt(s[1..], pat, i);
      assert s[1..][i..i + |pat|] == s[i + 1..i + 1 + |pat|];
      assert OccursAt(s, pat, i + 1);
    }
  }

  /** Replacing a needle that does not occur changes nothing. */
  lemma {:induction false} ReplaceAllAbsent(s: string, needle: string, repl: string)
    requires needle != [] && !Contains(s, needle)
    ensures ReplaceAll(s, needle, repl) == s
    decreases |s|
  {
    if |s| >= |needle| {
      assert !OccursAt(s, needle, 0);
      ContainsTail(s, needle);
      ReplaceAllAbsent(s[1..], needle, repl);
      assert s == [s[0]] + s[1..];
    }
  }

  lemma NoEarlyMatch(stem: string, needle: string)
    requires stem != [] && needle != []
    requires forall k :: 0 < k < |needle| ==> needle[k] != needle[0]
    requires !Contains(stem, needle)
    ensures (stem + needle)[..|needle|] != needle
  {
    var s := stem + needle;
    if |stem| >= |needle| {
      assert stem[0..|needle|] == s[..|needle|];
      assert !OccursAt(stem, needle, 0);
    } else {
      assert s[|stem|] == needle[0];
      assert s[..|needle|][|stem|] == s[|stem|];
      assert needle[|stem|] != needle[0];
    }
  }

  /** A needle whose first character does not recur in it, appended once to a
      text that does not contain it, is replaced exactly at the end. */
  lemma {:induction false} ReplaceAllAtEnd(stem: string, needle: string, repl: string)
    requires needle != []
    requires forall k :: 0 < k < |needle| ==> needle[k] != needle[0]
    requires !Contains(stem, needle)
    ensures ReplaceAll(stem + needle, needle, repl) == stem + repl
    decreases |stem|
  {
    var s := stem + needle;
    if stem == [] {
      assert s[..|needle|] == needle;
      assert s[|needle|..] == [];
    } else {
      NoEarlyMatch(stem, needle);
      ContainsTail(stem, needle);
      var t := stem[1..];
      assert s[1..] == t + needle;
      ReplaceAllAtEnd(t, needle, repl);
      assert ReplaceAll(s, needle, repl) == [s[0]] + ReplaceAll(s[1..], needle, repl);
      assert ReplaceAll(s[1..], needle, repl) == t + repl;
      assert s[0] == stem[0];
      assert stem == [stem[0]] + t;
      assert [stem[0]] + (t + repl) == stem + repl;
    }
  }

  /** Replacing cannot introduce a character that neither the text nor the
      replacement holds. */
  lemma {:induction false} ReplaceAllKeepsOut(s: string, needle: string, repl: string, c: char)
    requires needle != [] && c !in s && c !in repl
    ensures c !in ReplaceAll(s, needle, repl)
    decreases |s|
  {
    if |s| >= |needle| {
      if s[..|needle|] == needle {
        ReplaceAllKeepsOut(s[|needle|..], needle, repl, c);
      } else {
        ReplaceAllKeepsOut(s[1..], needle, repl, c);
      }
    }
  }

  /** `os.path.basename(p)`: what follows the last `/`. */
  function Basename(p: string): (r: string)
    ensures '/' !in r
  {
    if p == [] || p[|p| - 1] == '/' then []
    else Basename(p[..|p| - 1]) + [p[|p| - 1]]
  }

  /** The base name is the tail of the path after its last `/`, or the whole
      path when there is none. */
  lemma {:induction false} BasenameIsTail(p: string)
    ensures |Basename(p)| <= |p| && p == p[..|p| - |Basename(p)|] + Basename(p)
    ensures |Basename(p)| < |p| ==> p[|p| - |Basename(p)| - 1] == '/'
  {
    if p != [] && p[|p| - 1] != '/' {
      var front := p[..|p| - 1];
      BasenameIsTail(front);
      var b := Basename(front);
      assert Basename(p) == b + [p[|p| - 1]];
      assert p[..|p| - |Basename(p)|] == front[..|front| - |b|];
      assert p == front + [p[|p| - 1]];
    }
  }

  lemma {:induction false} BasenameOfJoined(dir: string, name: string)
    requires '/' !in name
    ensures Basename(dir + "/" + name) == name
  {
    var p := dir + "/" + name;
    if name != [] {
      var front := name[..|name| - 1];
      assert p[..|p| - 1] == dir + "/" + front;
      assert name[|name| - 1] in name;
      BasenameOfJoined(dir, front);
      assert name == front + [name[|name| - 1]];
    }
  }

  /** `os.path.join(a, b)` for two POSIX path components. */
  function PathJoin(a: string, b: string): (r: string)
    ensures EndsWith(r, b)
    ensures (b == [] || b[0] != '/') ==> |a| <= |r| && r[..|a|] == a
  {
    if |b| > 0 && b[0] == '/' then b
    else if a == [] || a[|a| - 1] == '/' then a + b
    else a + "/" + b
  }

  /** `s.split(sep)` for a one-character separator. */
  function Split(s: string, sep: char): (r: seq<string>)
    ensures |r| >= 1
    decreases |s|
  {
    var i := Find(s, [sep]);
    if i == -1 then [s] else [s[..i]] + Split(s[i + 1..], sep)
  }

  lemma SplitNoSep(s: string, sep: char)
    requires sep !in s
    ensures Split(s, sep) == [s]
  {
    ContainsChar(s, sep);
  }

  lemma SplitFirst(a: string, sep: char, b: string)
    requires sep !in a
    ensures Split(a + [sep] + b, sep) == [a] + Split(b, sep)
  {
    var s := a + [sep] + b;
    var i := Find(s, [sep]);
    OccursAtChar(s, sep, |a|);
    OccursAtChar(s, sep, i);
    assert i == |a|;
    assert s[..i] == a && s[i + 1..] == b;
  }

  /** The characters Python's `str.strip()` and `int()` treat as white space. */
  predicate IsSpace(c: char) {
    c as int in {9, 10, 11, 12, 13, 28, 29, 30, 31, 32, 0x85, 0xA0, 0x1680, 0x2028, 0x2029, 0x202F, 0x205F, 0x3000}
    || 0x2000 <= c as int <= 0x200A
  }

  predicate IsDigit(c: char) {
    '0' <= c <= '9'
  }

  function StripLeft(s: string): (r: string)
    ensures r == [] || !IsSpace(r[0])
    ensures |r| <= |s| && r == s[|s| - |r|..]
  {
    if s != [] && IsSpace(s[0]) then StripLeft(s[1..]) else s
  }

  function StripRight(s: string): (r: string)
    ensures r == [] || !IsSpace(r[|r| - 1])
    ensures |r| <= |s| && r == s[..|r|]
  {
    if s != [] && IsSpace(s[|s| - 1]) then StripRight(s[..|s| - 1]) else s
  }

  /** A base-10 numeral as `int()` accepts it after the sign: ASCII digits,
      with single underscores allowed between two digits. */
  predicate IsNumeral(b: string) {
    && |b| > 0
    && IsDigit(b[0])
    && IsDigit(b[|b| - 1])
    && forall i :: 0 <= i < |b| ==>
         IsDigit(b[i]) || (b[i] == '_' && 0 < i < |b| - 1 && IsDigit(b[i - 1]) && IsDigit(b[i + 1]))
  }

  /** The value of a numeral, read left to right, skipping underscores. */
  function NumeralValue(b: string): nat {
    if b == [] then 0
    else if IsDigit(b[|b| - 1]) then NumeralValue(b[..|b| - 1]) * 10 + (b[|b| - 1] as int - '0' as int)
    else NumeralValue(b[..|b| - 1])
  }

  /** `int(s)` on a string: surrounding white space is ignored, one optional
      sign, then a numeral; anything else raises `ValueError`. */
  function ParseInt(s: string): (r: Result<int, PyError>)
    ensures r.Failure? ==> r.error == ValueError
  {
    var t := StripRight(StripLeft(s));
    var neg := |t| > 0 && t[0] == '-';
    var body := if |t| > 0 && (t[0] == '-' || t[0] == '+') then t[1..] else t;
    var v: int := NumeralValue(body);
    if IsNumeral(body) then Success(if neg then -v else v)
    else Failure(ValueError)
  }

  function DigitChar(d: nat): (c: char)
    requires d < 10
    ensures IsDigit(c) && c as int - '0' as int == d
  {
    ('0' as int + d) as char
  }

  /** `str(n)` for a natural number: its decimal digits, no leading zero. */
  function Str(n: nat): (r: string)
    ensures |r| > 0
    ensures forall i :: 0 <= i < |r| ==> IsDigit(r[i])
  {
    if n < 10 then [DigitChar(n)] else Str(n / 10) + [DigitChar(n % 10)]
  }

  lemma {:induction false} NumeralValueOfStr(n: nat)
    ensures NumeralValue(Str(n)) == n
  {
    if n >= 10 {
      NumeralValueOfStr(n / 10);
      assert Str(n)[..|Str(n)| - 1] == Str(n / 10);
    }
  }

  /** The decimal text of a number is a numeral. */
  lemma StrIsNumeral(n: nat)
    ensures IsNumeral(Str(n))
  {
  }

  lemma StripDigits(s: string)
    requires s != [] && IsDigit(s[0]) && IsDigit(s[|s| - 1])
    ensures StripRight(StripLeft(s)) == s
  {
    DigitNotSpace(s[0]);
    DigitNotSpace(s[|s| - 1]);
    var l := StripLeft(s);
    assert l == s;
    assert StripRight(l) == l;
  }

  lemma DigitNotSpace(c: char)
    requires IsDigit(c)
    ensures !IsSpace(c)
  {
  }

  /** `int(str(n)) == n`: the decimal text of a number reads back as it. */
  lemma ParseIntOfStr(n: nat)
    ensures ParseInt(Str(n)) == Success(n)
  {
    var s := Str(n);
    StripDigits(s);
    StrIsNumeral(n);
    NumeralValueOfStr(n);
    assert s[0] != '-' && s[0] != '+';
  }

  /** `int(s)` raises `ValueError` on a text without any digit. */
  lemma ParseIntNeedsDigit(s: string)
    requires forall i :: 0 <= i < |s| ==> !IsDigit(s[i])
    ensures ParseInt(s) == Failure(ValueError)
  {
    var l := StripLeft(s);
    var t := StripRight(l);
    var body := if |t| > 0 && (t[0] == '-' || t[0] == '+') then t[1..] else t;
    if |body| > 0 {
      var k := if |t| > 0 && (t[0] == '-' || t[0] == '+') then 1 else 0;
      assert body[0] == t[k] == l[k];
      assert l[k] == s[|s| - |l| + k];
      assert !IsNumeral(body);
    }
  }
}
