/**
 * String primitives with Python's `str` semantics restricted to ASCII:
 * whitespace, strip, lower, find / `in`, split on a separator, join,
 * whitespace word splitting (`str.split()` with no argument) and the
 * decimal rendering of integers used by f-strings.
 */
module Text {

  /** The ASCII characters for which Python's `str.isspace` holds. */
  predicate IsSpace(c: char) {
    c == ' ' || c == '\t' || c == '\n' || c == '\r' || c == '\U{0B}' || c == '\U{0C}'
    || c == '\U{1C}' || c == '\U{1D}' || c == '\U{1E}' || c == '\U{1F}'
  }

  /** A string made only of whitespace (the empty string included). */
  predicate Blank(s: string) {
    forall i :: 0 <= i < |s| ==> IsSpace(s[i])
  }

  predicate StartsWith(s: string, prefix: string) {
    |prefix| <= |s| && s[..|prefix|] == prefix
  }

  /** A prefix of a prefix is a prefix. */
  lemma StartsWithTrans(s: string, p: string, q: string)
    requires StartsWith(s, p) && StartsWith(p, q)
    ensures StartsWith(s, q)
  {
    assert s[..|q|] == s[..|p|][..|q|];
  }

  lemma StartsWithAppend(a: string, b: string)
    ensures StartsWith(a + b, a)
  {
    assert (a + b)[..|a|] == a;
  }

  predicate EndsWith(s: string, suffix: string) {
    |suffix| <= |s| && s[|s| - |suffix|..] == suffix
  }

  /** `needle` occurs in `hay` starting at index `i`. */
  predicate OccursAt(hay: string, needle: string, i: int) {
    0 <= i && i + |needle| <= |hay| && hay[i..i + |needle|] == needle
  }

  // ---------------------------------------------------------------- strip

  /** Python `s.lstrip()`. */
  function LStrip(s: string): (r: string)
    ensures |r| <= |s|
    ensures Blank(s[..|s| - |r|])
    ensures r == [] || !IsSpace(r[0])
    decreases |s|
  {
    if |s| > 0 && IsSpace(s[0]) then LStrip(s[1..]) else s
  }

  /** Python `s.rstrip()`. */
  function RStrip(s: string): (r: string)
    ensures |r| <= |s| && r == s[..|r|]
    ensures Blank(s[|r|..])
    ensures r == [] || !IsSpace(r[|r| - 1])
    decreases |s|
  {
    if |s| > 0 && IsSpace(s[|s| - 1]) then RStrip(s[..|s| - 1]) else s
  }

  /** Python `s.strip()`: the slice of `s` between its leading and trailing whitespace. */
  function Strip(s: string): (r: string)
    ensures |r| <= |s|
    ensures r == [] || (!IsSpace(r[0]) && !IsSpace(r[|r| - 1]))
  {
    RStrip(LStrip(s))
  }

  /** `LStrip(s)` is the suffix of `s` left after its leading whitespace. */
  lemma {:induction false} LStripIsSuffix(s: string)
    ensures LStrip(s) == s[|s| - |LStrip(s)|..]
    decreases |s|
  {
    if |s| > 0 && IsSpace(s[0]) {
      LStripIsSuffix(s[1..]);
    }
  }

  /** Stripping only removes characters. */
  lemma {:induction false} StripChars(s: string)
    ensures forall c :: c in Strip(s) ==> c in s
  {
    var l := LStrip(s);
    LStripIsSuffix(s);
    var r := RStrip(l);
    forall c | c in r ensures c in s {
      var i :| 0 <= i < |r| && r[i] == c;
      assert l[i] == c;
      assert s[|s| - |l| + i] == c;
    }
  }

  lemma {:induction false} LStripOfNonBlankStart(s: string)
    requires |s| > 0 && !IsSpace(s[0])
    ensures LStrip(s) == s
  {
  }

  /** A string with no whitespace at either end is its own strip. */
  lemma {:induction false} StripOfTrimmed(s: string)
    requires |s| > 0 && !IsSpace(s[0]) && !IsSpace(s[|s| - 1])
    ensures Strip(s) == s
  {
    LStripOfNonBlankStart(s);
  }

  /** One space on each side of a trimmed string is stripped away. */
  lemma {:induction false} StripOfPadded(s: string, core: string)
    requires s == " " + core + " "
    requires |core| > 0 && !IsSpace(core[0]) && !IsSpace(core[|core| - 1])
    ensures Strip(s) == core
  {
    assert s[1..] == core + " ";
    LStripOfNonBlankStart(core + " ");
    assert LStrip(s) == core + " ";
    assert (core + " ")[..|core|] == core;
  }

  /** Stripping gives the empty string exactly for blank input. */
  lemma {:induction false} StripEmptyIffBlank(s: string)
    ensures Strip(s) == [] <==> Blank(s)
  {
    var l := LStrip(s);
    LStripIsSuffix(s);
    assert s == s[..|s| - |l|] + l;
    if Strip(s) == [] {
      assert l == [];
      assert s[..|s|] == s;
    } else {
      assert s[|s| - |l|] == l[0];
      assert !IsSpace(s[|s| - |l|]);
    }
  }

  lemma {:induction false} LStripBlankPrefix(a: string, b: string)
    requires Blank(a)
    ensures LStrip(a + b) == LStrip(b)
    decreases |a|
  {
    if |a| > 0 {
      assert (a + b)[1..] == a[1..] + b;
      LStripBlankPrefix(a[1..], b);
    } else {
      assert a + b == b;
    }
  }

  lemma {:induction false} LStripNonBlankPrefix(a: string, b: string)
    requires !Blank(a)
    ensures LStrip(a + b) == LStrip(a) + b
    decreases |a|
  {
    if IsSpace(a[0]) {
      assert (a + b)[1..] == a[1..] + b;
      LStripNonBlankPrefix(a[1..], b);
    }
  }

  lemma {:induction false} RStripBlankSuffix(a: string, b: string)
    requires Blank(b)
    ensures RStrip(a + b) == RStrip(a)
    decreases |b|
  {
    if |b| > 0 {
      assert (a + b)[..|a + b| - 1] == a + b[..|b| - 1];
      RStripBlankSuffix(a, b[..|b| - 1]);
    } else {
      assert a + b == a;
    }
  }

  lemma {:induction false} RStripNonBlankSuffix(a: string, b: string)
    requires !Blank(b)
    ensures RStrip(a + b) == a + RStrip(b)
    decreases |b|
  {
    if IsSpace(b[|b| - 1]) {
      assert (a + b)[..|a + b| - 1] == a + b[..|b| - 1];
      RStripNonBlankSuffix(a, b[..|b| - 1]);
    }
  }

  lemma {:induction false} LStripIdempotent(s: string)
    ensures LStrip(LStrip(s)) == LStrip(s)
  {
  }

  lemma {:induction false} RStripIdempotent(s: string)
    ensures RStrip(RStrip(s)) == RStrip(s)
  {
  }

  /** Stripping twice is stripping once. */
  lemma {:induction false} StripIdempotent(s: string)
    ensures Strip(Strip(s)) == Strip(s)
  {
    var r := Strip(s);
    if r != [] {
      LStripOfNonBlankStart(r);
      RStripIdempotent(LStrip(s));
    }
  }

  /** A non-blank string keeps its stripped form as a prefix of any extension. */
  lemma {:induction false} StripKeepsPrefix(a: string, b: string)
    requires !Blank(a)
    ensures StartsWith(Strip(a + b), Strip(a))
  {
    LStripNonBlankPrefix(a, b);
    var y := LStrip(a);
    assert LStrip(a + b) == y + b;
    if Blank(b) {
      RStripBlankSuffix(y, b);
    } else {
      RStripNonBlankSuffix(y, b);
      assert RStrip(y) == y[..|RStrip(y)|];
    }
  }

  // ---------------------------------------------------------------- lower

  /** Python `c.lower()` for ASCII letters. */
  function LowerChar(c: char): char {
    if 'A' <= c <= 'Z' then (c as int + 32) as char else c
  }

  /** Python `s.lower()` (ASCII only). */
  function Lower(s: string): (r: string)
    ensures |r| == |s|
    ensures forall i :: 0 <= i < |s| ==> r[i] == LowerChar(s[i])
  {
    seq(|s|, i requires 0 <= i < |s| => LowerChar(s[i]))
  }

  /** Python `xs[:k]` for `k >= 0`: the first `k` elements, or all of them. */
  function Take<T>(xs: seq<T>, k: nat): (r: seq<T>)
    ensures |r| == if k < |xs| then k else |xs|
    ensures r == xs[..|r|]
  {
    if k < |xs| then xs[..k] else xs
  }

  // ---------------------------------------------------------------- find / in

  /** Python `hay.find(needle, start)`: the first occurrence at or after `start`, or -1. */
  function IndexOf(hay: string, needle: string, start: nat): (r: int)
    ensures r == -1 || (start <= r && OccursAt(hay, needle, r))
    ensures r == -1 ==> forall i :: start <= i ==> !OccursAt(hay, needle, i)
    ensures r != -1 ==> forall i :: start <= i < r ==> !OccursAt(hay, needle, i)
    decreases |hay| - start
  {
    if start + |needle| > |hay| then -1
    else if hay[start..start + |needle|] == needle then start
    else IndexOf(hay, needle, start + 1)
  }

  /** `find` from `start` lands on the first occurrence at or after it. */
  lemma {:induction false} IndexOfFirst(hay: string, needle: string, start: nat, at: nat)
    requires start <= at && OccursAt(hay, needle, at)
    requires forall i :: start <= i < at ==> !OccursAt(hay, needle, i)
    ensures IndexOf(hay, needle, start) == at
    decreases at - start
  {
    if start < at {
      assert !OccursAt(hay, needle, start);
      IndexOfFirst(hay, needle, start + 1, at);
    }
  }

  /** Python `needle in hay`. */
  predicate Contains(hay: string, needle: string) {
    IndexOf(hay, needle, 0) != -1
  }

  lemma {:induction false} ContainsIff(hay: string, needle: string)
    ensures Contains(hay, needle) <==> exists i :: OccursAt(hay, needle, i)
  {
  }

  /** Python `any(c in s for c in chars)` over single characters. */
  predicate HasAnyChar(s: string, chars: seq<char>) {
    exists i, j | 0 <= i < |s| && 0 <= j < |chars| :: s[i] == chars[j]
  }

  /** Python `any(w in s for w in needles)`. */
  predicate ContainsAny(s: string, needles: seq<string>) {
    exists j | 0 <= j < |needles| :: Contains(s, needles[j])
  }

  // ---------------------------------------------------------------- join / split

  /** Python `sep.join(parts)`. */
  function Join(sep: string, parts: seq<string>): (r: string)
    ensures |parts| > 0 ==> StartsWith(r, parts[0])
    decreases |parts|
  {
    if |parts| == 0 then ""
    else if |parts| == 1 then parts[0]
    else parts[0] + sep + Join(sep, parts[1..])
  }

  lemma {:induction false} JoinAppend(sep: string, a: seq<string>, b: seq<string>)
    requires |a| > 0 && |b| > 0
    ensures Join(sep, a + b) == Join(sep, a) + sep + Join(sep, b)
    decreases |a|
  {
    if |a| == 1 {
      assert (a + b)[1..] == b;
    } else {
      assert (a + b)[1..] == a[1..] + b;
      JoinAppend(sep, a[1..], b);
    }
  }

  /** Split `s` on `sep` scanning left to right; `current` is the piece being built. */
  function SplitFrom(s: string, sep: string, current: string): (r: seq<string>)
    requires |sep| > 0
    ensures |r| >= 1
    ensures Join(sep, r) == current + s
    decreases |s|
  {
    if |s| == 0 then [current]
    else if |sep| <= |s| && s[..|sep|] == sep then
      var rest := SplitFrom(s[|sep|..], sep, "");
      assert s == sep + s[|sep|..];
      [current] + rest
    else
      var rest := SplitFrom(s[1..], sep, current + [s[0]]);
      assert current + s == current + [s[0]] + s[1..];
      rest
  }

  /** Python `s.split(sep)` for a non-empty separator. */
  function Split(s: string, sep: string): (r: seq<string>)
    requires |sep| > 0
    ensures |r| >= 1
    ensures Join(sep, r) == s
  {
    SplitFrom(s, sep, "")
  }

  /** Text without the (single-character) separator is one piece. */
  lemma {:induction false} SplitFromNoSeparator(s: string, sep: string, current: string)
    requires |sep| == 1 && sep[0] !in s
    ensures SplitFrom(s, sep, current) == [current + s]
    decreases |s|
  {
    if |s| > 0 {
      assert s[..1] != sep by {
        assert s[..1][0] == s[0];
      }
      SplitFromNoSeparator(s[1..], sep, current + [s[0]]);
      assert current + [s[0]] + s[1..] == current + s;
    } else {
      assert current + s == current;
    }
  }

  /** Text in which the separator never occurs is one piece. */
  lemma {:induction false} SplitFromNoOccurrence(s: string, sep: string, current: string)
    requires |sep| > 0
    requires forall i :: !OccursAt(s, sep, i)
    ensures SplitFrom(s, sep, current) == [current + s]
    decreases |s|
  {
    if |s| > 0 {
      assert !OccursAt(s, sep, 0);
      forall i ensures !OccursAt(s[1..], sep, i) {
        if OccursAt(s[1..], sep, i) {
          assert s[1..][i..i + |sep|] == s[i + 1..i + 1 + |sep|];
          assert OccursAt(s, sep, i + 1);
        }
      }
      SplitFromNoOccurrence(s[1..], sep, current + [s[0]]);
      assert current + [s[0]] + s[1..] == current + s;
    } else {
      assert current + s == current;
    }
  }

  /** Text up to the first (single-character) separator becomes the current piece. */
  lemma {:induction false} SplitFromBeforeSeparator(a: string, sep: string, b: string, current: string)
    requires |sep| == 1 && sep[0] !in a
    ensures SplitFrom(a + sep + b, sep, current) == [current + a] + SplitFrom(b, sep, "")
    decreases |a|
  {
    if |a| > 0 {
      assert a[0] != sep[0] && sep[0] !in a[1..] by {
        assert a == [a[0]] + a[1..];
      }
      SplitFromPlainChar(a, sep, b, current);
      SplitFromBeforeSeparator(a[1..], sep, b, current + [a[0]]);
      AppendAssoc(current, [a[0]], a[1..]);
      assert [a[0]] + a[1..] == a;
    } else {
      SplitFromAtSeparator(sep, b, current);
      AppendEmpty(a);
      AppendEmpty(current);
    }
  }

  /** A character other than the separator extends the current piece. */
  lemma SplitFromPlainChar(a: string, sep: string, b: string, current: string)
    requires |sep| == 1 && |a| > 0 && a[0] != sep[0]
    ensures SplitFrom(a + sep + b, sep, current) == SplitFrom(a[1..] + sep + b, sep, current + [a[0]])
  {
    var s := a + sep + b;
    assert s[0] == a[0] && s[1..] == a[1..] + sep + b;
  }

  /** The separator closes the current piece. */
  lemma SplitFromAtSeparator(sep: string, b: string, current: string)
    requires |sep| > 0
    ensures SplitFrom(sep + b, sep, current) == [current] + SplitFrom(b, sep, "")
  {
    var s := sep + b;
    assert s[..|sep|] == sep && s[|sep|..] == b;
  }

  /** No piece of a split on a single character contains that character. */
  lemma {:induction false} SplitPiecesLackSeparator(s: string, sep: string, current: string)
    requires |sep| == 1 && sep[0] !in current
    ensures forall i :: 0 <= i < |SplitFrom(s, sep, current)| ==> sep[0] !in SplitFrom(s, sep, current)[i]
    decreases |s|
  {
    if |s| == 0 {
    } else if |sep| <= |s| && s[..|sep|] == sep {
      SplitPiecesLackSeparator(s[|sep|..], sep, "");
    } else {
      assert s[0] != sep[0] by {
        assert s[..1][0] == s[0];
      }
      SplitPiecesLackSeparator(s[1..], sep, current + [s[0]]);
    }
  }

  /** Every element of a join is no longer than the join. */
  lemma {:induction false} JoinPartLength(sep: string, parts: seq<string>, i: int)
    requires 0 <= i < |parts|
    ensures |parts[i]| <= |Join(sep, parts)|
    decreases |parts|
  {
    if i > 0 {
      JoinPartLength(sep, parts[1..], i - 1);
    }
  }

  // ---------------------------------------------------------------- words

  /** The longest prefix of `s` without whitespace. */
  function TakeWord(s: string): (w: string)
    ensures |w| <= |s|
    ensures s != [] && !IsSpace(s[0]) ==> |w| > 0
    decreases |s|
  {
    if |s| == 0 || IsSpace(s[0]) then "" else [s[0]] + TakeWord(s[1..])
  }

  /** Python `s.split()`: the maximal runs of non-whitespace, in order. */
  function Words(s: string): (r: seq<string>)
    decreases |s|
  {
    var t := LStrip(s);
    if |t| == 0 then []
    else
      var w := TakeWord(t);
      [w] + Words(t[|w|..])
  }

  /** Concatenation of the words of each part, in order. */
  function ConcatWords(parts: seq<string>): seq<string>
    decreases |parts|
  {
    if |parts| == 0 then [] else Words(parts[0]) + ConcatWords(parts[1..])
  }

  lemma {:induction false} TakeWordBeforeSpace(t: string, x: string)
    requires |x| > 0 && IsSpace(x[0])
    ensures TakeWord(t + x) == TakeWord(t)
    decreases |t|
  {
    if |t| > 0 && !IsSpace(t[0]) {
      assert (t + x)[1..] == t[1..] + x;
      TakeWordBeforeSpace(t[1..], x);
    }
  }

  lemma {:induction false} WordsOfBlank(s: string)
    requires Blank(s)
    ensures Words(s) == []
  {
    StripEmptyIffBlank(s);
  }

  lemma {:induction false} WordsBlankPrefix(a: string, b: string)
    requires Blank(a)
    ensures Words(a + b) == Words(b)
  {
    LStripBlankPrefix(a, b);
  }

  /** A whitespace character separates the words on its two sides. */
  lemma {:induction false} WordsAroundSpace(a: string, c: char, b: string)
    requires IsSpace(c)
    ensures Words(a + [c] + b) == Words(a) + Words(b)
    decreases |a|
  {
    var t := LStrip(a);
    if |t| == 0 {
      WordsAroundSpaceBlank(a, c, b);
    } else {
      var w := TakeWord(t);
      var u := t[|w|..];
      FirstWordBeforeSpace(a, c, b);
      WordsUnfold(a, t);
      WordsAroundSpace(u, c, b);
      AppendAssoc([w], Words(u), Words(b));
    }
  }

  lemma WordsAroundSpaceBlank(a: string, c: char, b: string)
    requires IsSpace(c) && |LStrip(a)| == 0
    ensures Words(a + [c] + b) == Words(a) + Words(b)
  {
    assert Words(a + [c] + b) == Words(b) by {
      StripEmptyIffBlank(a);
      assert Blank(a + [c]);
      WordsBlankPrefix(a + [c], b);
    }
    WordsOfBlank(a);
  }

  /** The first word of a non-blank `a` is also the first word of `a + [c] + b`. */
  lemma FirstWordBeforeSpace(a: string, c: char, b: string)
    requires IsSpace(c) && |LStrip(a)| > 0
    ensures var t := LStrip(a);
      var w := TakeWord(t);
      Words(a + [c] + b) == [w] + Words(t[|w|..] + [c] + b)
  {
    var t := LStrip(a);
    var w := TakeWord(t);
    var x := [c] + b;
    assert a + [c] + b == a + x;
    assert !Blank(a) by { StripEmptyIffBlank(a); }
    assert LStrip(a + x) == t + x by { LStripNonBlankPrefix(a, x); }
    assert TakeWord(t + x) == w by { TakeWordBeforeSpace(t, x); }
    assert (t + x)[|w|..] == t[|w|..] + [c] + b;
    assert Words(a + x) == [w] + Words((t + x)[|w|..]) by { WordsUnfold(a + x, t + x); }
  }

  /** One step of the word scan: the first word of the stripped text, then the words after it. */
  lemma WordsUnfold(s: string, t: string)
    requires LStrip(s) == t && |t| > 0
    ensures Words(s) == [TakeWord(t)] + Words(t[|TakeWord(t)|..])
  {
  }

  lemma {:induction false} WordsBlankSuffix(a: string, b: string)
    requires Blank(b)
    ensures Words(a + b) == Words(a)
  {
    if |b| == 0 {
      assert a + b == a;
    } else {
      assert a + b == a + [b[0]] + b[1..];
      WordsAroundSpace(a, b[0], b[1..]);
      WordsOfBlank(b[1..]);
    }
  }

  /** Stripping never changes the words of a string. */
  lemma {:induction false} WordsStrip(s: string)
    ensures Words(Strip(s)) == Words(s)
  {
    var l := LStrip(s);
    LStripIsSuffix(s);
    var k := |s| - |l|;
    assert s == s[..k] + l;
    WordsBlankPrefix(s[..k], l);
    var r := RStrip(l);
    assert l == r + l[|r|..];
    WordsBlankSuffix(r, l[|r|..]);
  }

  /** A blank, non-empty separator contributes no words to a join. */
  lemma {:induction false} WordsJoin(sep: string, parts: seq<string>)
    requires |sep| > 0 && Blank(sep)
    ensures Words(Join(sep, parts)) == ConcatWords(parts)
    decreases |parts|
  {
    if |parts| == 0 {
    } else if |parts| == 1 {
      assert ConcatWords(parts[1..]) == [];
    } else {
      var rest := Join(sep, parts[1..]);
      assert parts[0] + sep + rest == parts[0] + [sep[0]] + (sep[1..] + rest);
      WordsAroundSpace(parts[0], sep[0], sep[1..] + rest);
      WordsBlankPrefix(sep[1..], rest);
      WordsJoin(sep, parts[1..]);
    }
  }

  /** Re-associates a concatenation; used to keep proofs about concatenations small. */
  lemma AppendEmpty<T>(a: seq<T>)
    ensures a + [] == a && [] + a == a
  {
  }

  lemma AppendAssoc<T>(a: seq<T>, b: seq<T>, c: seq<T>)
    ensures a + b + c == a + (b + c)
  {
  }

  lemma Reassociate<T>(r: seq<T>, q: seq<T>, a: seq<T>, b: seq<T>, c: seq<T>, bc: seq<T>)
    requires r == q + c && q == a + b && bc == b + c
    ensures r == a + bc
  {
  }

  lemma {:induction false} ConcatWordsAppend(a: seq<string>, b: seq<string>)
    ensures ConcatWords(a + b) == ConcatWords(a) + ConcatWords(b)
    decreases |a|
  {
    if |a| == 0 {
      assert a + b == b;
    } else {
      assert (a + b)[1..] == a[1..] + b;
      ConcatWordsAppend(a[1..], b);
    }
  }

  lemma {:induction false} WordsOfTwo(a: string, sep: string, b: string)
    requires |sep| > 0 && Blank(sep)
    ensures Words(a + sep + b) == Words(a) + Words(b)
  {
    assert a + sep + b == a + [sep[0]] + (sep[1..] + b);
    WordsAroundSpace(a, sep[0], sep[1..] + b);
    WordsBlankPrefix(sep[1..], b);
  }

  // ---------------------------------------------------------------- numbers

  function DigitChar(d: nat): char
    requires d < 10
  {
    ('0' as int + d) as char
  }

  /** Python `str(n)` for a natural number. */
  function NatToString(n: nat): (r: string)
    ensures |r| >= 1
    ensures n >= 10 ==> |r| >= 2
    ensures forall i :: 0 <= i < |r| ==> '0' <= r[i] <= '9'
  {
    if n < 10 then [DigitChar(n)] else NatToString(n / 10) + [DigitChar(n % 10)]
  }

  /** Python `str(i)` for any integer. */
  function IntToString(i: int): (r: string)
    ensures |r| >= 1
  {
    if i < 0 then "-" + NatToString(-i) else NatToString(i)
  }

  /** Different numbers render differently. */
  lemma {:induction false} NatToStringInjective(a: nat, b: nat)
    requires NatToString(a) == NatToString(b)
    ensures a == b
    decreases a
  {
    var s := NatToString(a);
    if a < 10 && b < 10 {
      assert s[0] == DigitChar(a) && s[0] == DigitChar(b);
    } else if a >= 10 && b >= 10 {
      var n := |s|;
      assert s[n - 1] == DigitChar(a % 10) && s[n - 1] == DigitChar(b % 10);
      assert NatToString(a / 10) == s[..n - 1] == NatToString(b / 10);
      NatToStringInjective(a / 10, b / 10);
    }
  }
}
