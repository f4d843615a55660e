/**
 * The dynamic values the Python code passes around: JSON documents returned
 * by the language model, document metadata and database records. A JSON
 * object keeps its insertion order (Python dicts are ordered); a record whose
 * order never matters is a plain `map`.
 */
module Values {
  import opened Text

  datatype Option<T> = None | Some(value: T)

  /** The outcome of a call that may raise: an external model call, a parse, a dict access. */
  datatype Attempt<T> = Raised | Done(value: T)

  /** What a language-model call gives back: an exception, or its response text. */
  type Reply = Attempt<string>

  /**
   * A JSON value as `json.loads` returns it, or a database `ObjectId`. A float
   * carries the text `repr` gives it, Python's shortest round-trip decimal
   * form, which is not computed here.
   */
  datatype Value =
    | Null
    | Bool(b: bool)
    | Int(i: int)
    | Float(f: real, text: string)
    | Str(s: string)
    | List(items: seq<Value>)
    | Dict(entries: seq<(string, Value)>)
    | ObjectId(hex: string)

  /** A record whose key order is irrelevant: metadata and database documents. */
  type Record = map<string, Value>

  /**
   * `json.loads`, abstract: `None` stands for a `JSONDecodeError`. Nothing is
   * assumed of the result; an object with repeated keys reads its first entry
   * (see `Lookup`), where Python would read the last.
   */
  type Parser = string -> Option<Value>

  // ---------------------------------------------------------------- ordered objects

  function Keys(entries: seq<(string, Value)>): (r: seq<string>)
    ensures |r| == |entries|
    ensures forall i :: 0 <= i < |r| ==> r[i] == entries[i].0
    decreases |entries|
  {
    if entries == [] then [] else [entries[0].0] + Keys(entries[1..])
  }

  /**
   * `d.get(key)`: the value stored under the first entry with that key. The
   * objects built here never repeat a key, and a parsed object is taken to
   * hold each key once: `json.loads` keeps the last of repeated keys, so a
   * `Parser` result with repeated keys would read differently here.
   */
  function Lookup(entries: seq<(string, Value)>, key: string): (r: Option<Value>)
    decreases |entries|
  {
    if entries == [] then None
    else if entries[0].0 == key then Some(entries[0].1)
    else Lookup(entries[1..], key)
  }

  /** A lookup finds a value exactly when the key occurs, and the value is stored under the key. */
  lemma {:induction false} LookupSpec(entries: seq<(string, Value)>, key: string)
    ensures Lookup(entries, key).None? <==> key !in Keys(entries)
    ensures Lookup(entries, key).Some? ==>
      exists i :: 0 <= i < |entries| && entries[i] == (key, Lookup(entries, key).value)
    decreases |entries|
  {
    if entries != [] && entries[0].0 != key {
      LookupSpec(entries[1..], key);
      assert Keys(entries) == [entries[0].0] + Keys(entries[1..]);
      if Lookup(entries, key).Some? {
        var i :| 0 <= i < |entries| - 1 && entries[1..][i] == (key, Lookup(entries, key).value);
        assert entries[i + 1] == entries[1..][i];
      }
    }
  }

  /** The entry at position `i` answers a lookup when no earlier entry has its key. */
  lemma {:induction false} LookupAt(entries: seq<(string, Value)>, i: int, key: string)
    requires 0 <= i < |entries| && entries[i].0 == key
    requires forall j :: 0 <= j < i ==> entries[j].0 != key
    ensures Lookup(entries, key) == Some(entries[i].1)
    decreases i
  {
    if i > 0 {
      LookupAt(entries[1..], i - 1, key);
    }
  }

  /** A lookup looks at the first entry, then at the rest. */
  lemma LookupCons(e: (string, Value), rest: seq<(string, Value)>, key: string)
    ensures Lookup([e] + rest, key) == if e.0 == key then Some(e.1) else Lookup(rest, key)
  {
    assert ([e] + rest)[1..] == rest;
  }

  /** `d.get(key, default)`. */
  function GetOr(entries: seq<(string, Value)>, key: string, default: Value): (r: Value)
    ensures key !in Keys(entries) ==> r == default
    ensures key in Keys(entries) ==> Lookup(entries, key) == Some(r)
  {
    LookupSpec(entries, key);
    match Lookup(entries, key)
    case None => default
    case Some(v) => v
  }

  /** `d[key] = value`: reading `key` back gives `value`. */
  function Put(entries: seq<(string, Value)>, key: string, value: Value): (r: seq<(string, Value)>)
    ensures Lookup(r, key) == Some(value)
    decreases |entries|
  {
    if entries == [] then [(key, value)]
    else if entries[0].0 == key then
      var r := [(key, value)] + entries[1..];
      assert r[1..] == entries[1..];
      r
    else
      var rest := Put(entries[1..], key, value);
      var r := [entries[0]] + rest;
      assert r[1..] == rest;
      r
  }

  /** Writing one key leaves the lookup of every other key as it was. */
  lemma {:induction false} PutKeepsOther(entries: seq<(string, Value)>, key: string, value: Value, other: string)
    ensures other != key ==> Lookup(Put(entries, key, value), other) == Lookup(entries, other)
    decreases |entries|
  {
    if entries != [] && other != key {
      if entries[0].0 == key {
        LookupCons((key, value), entries[1..], other);
      } else {
        PutKeepsOther(entries[1..], key, value, other);
        LookupCons(entries[0], Put(entries[1..], key, value), other);
      }
    }
  }

  /** An existing key keeps its position; a new key goes last. */
  lemma {:induction false} PutKeys(entries: seq<(string, Value)>, key: string, value: Value)
    ensures key in Keys(entries) ==> Keys(Put(entries, key, value)) == Keys(entries)
    ensures key !in Keys(entries) ==> Keys(Put(entries, key, value)) == Keys(entries) + [key]
    decreases |entries|
  {
    if entries != [] && entries[0].0 != key {
      PutKeys(entries[1..], key, value);
      assert Keys(entries) == [entries[0].0] + Keys(entries[1..]);
    }
  }

  /**
   * The loop over required fields: each field the object lacks is added with
   * `default(field)`; the fields already present keep their values.
   */
  function FillDefaults(entries: seq<(string, Value)>, fields: seq<string>, default: string -> Value): (r: seq<(string, Value)>)
    decreases |fields|
  {
    if fields == [] then entries
    else
      var f := fields[0];
      var next := if Lookup(entries, f).Some? then entries else Put(entries, f, default(f));
      FillDefaults(next, fields[1..], default)
  }

  /**
   * After filling, a key the object had keeps its value, a missing key among
   * the fields holds its default, and any other key is still missing.
   */
  lemma {:induction false} FillDefaultsSpec(entries: seq<(string, Value)>, fields: seq<string>, default: string -> Value, k: string)
    ensures var r := FillDefaults(entries, fields, default);
      && (Lookup(entries, k).Some? ==> Lookup(r, k) == Lookup(entries, k))
      && (Lookup(entries, k).None? && k in fields ==> Lookup(r, k) == Some(default(k)))
      && (Lookup(entries, k).None? && k !in fields ==> Lookup(r, k).None?)
    decreases |fields|
  {
    if fields != [] {
      var f := fields[0];
      var next := if Lookup(entries, f).Some? then entries else Put(entries, f, default(f));
      PutKeepsOther(entries, f, default(f), k);
      FillDefaultsSpec(next, fields[1..], default, k);
      assert fields == [f] + fields[1..];
    }
  }

  /** The object's entries in insertion order, as `list(d.values())`. */
  function ValuesOf(entries: seq<(string, Value)>): (r: seq<Value>)
    ensures |r| == |entries|
    ensures forall i :: 0 <= i < |r| ==> r[i] == entries[i].1
    decreases |entries|
  {
    if entries == [] then [] else [entries[0].1] + ValuesOf(entries[1..])
  }

  /** `v` is an object whose entry for `key` is `x`. */
  predicate HasEntry(v: Value, key: string, x: Value) {
    v.Dict? && Lookup(v.entries, key) == Some(x)
  }

  // ---------------------------------------------------------------- truthiness and rendering

  /** Python truthiness. */
  predicate Truthy(v: Value) {
    match v
    case Null => false
    case Bool(b) => b
    case Int(i) => i != 0
    case Float(f, _) => f != 0.0
    case Str(s) => s != ""
    case List(items) => items != []
    case Dict(entries) => entries != []
    case ObjectId(_) => true
  }

  /** `str(v)` as an f-string renders it. */
  function Render(v: Value): (r: string)
    ensures v.Str? ==> r == v.s
    decreases v, 1
  {
    match v
    case Null => "None"
    case Bool(b) => if b then "True" else "False"
    case Int(i) => IntToString(i)
    case Float(_, text) => text
    case Str(s) => s
    case List(items) => "[" + ReprItems(v, items) + "]"
    case Dict(entries) => "{" + ReprEntries(v, entries) + "}"
    case ObjectId(hex) => hex
  }

  /**
   * `repr(v)`: a string as a quoted literal, an ObjectId as the constructor
   * call `ObjectId('…')`, everything else as `str`.
   */
  function Repr(v: Value): (r: string)
    ensures v.Str? ==> ReadLiteral(r) == Some(v.s)
    ensures v.ObjectId? ==> r == "ObjectId(" + ReprString(v.hex) + ")"
    ensures !v.Str? && !v.ObjectId? ==> r == Render(v)
    decreases v, 2
  {
    match v
    case Str(s) =>
      ReprStringRoundTrip(s);
      ReprString(s)
    case ObjectId(hex) => "ObjectId(" + ReprString(hex) + ")"
    case _ => Render(v)
  }

  function ReprItems(parent: Value, items: seq<Value>): string
    requires forall i :: 0 <= i < |items| ==> items[i] < parent
    decreases parent, 0, |items|
  {
    if items == [] then ""
    else if |items| == 1 then Repr(items[0])
    else Repr(items[0]) + ", " + ReprItems(parent, items[1..])
  }

  function ReprEntries(parent: Value, entries: seq<(string, Value)>): string
    requires forall i :: 0 <= i < |entries| ==> entries[i].1 < parent
    decreases parent, 0, |entries|
  {
    if entries == [] then ""
    else
      var head := ReprString(entries[0].0) + ": " + Repr(entries[0].1);
      if |entries| == 1 then head else head + ", " + ReprEntries(parent, entries[1..])
  }

  // ---------------------------------------------------------------- string literals

  /**
   * The quote `repr` puts around a string: double quotes exactly when the
   * string holds a single quote and no double quote, single quotes otherwise.
   */
  function QuoteFor(s: string): (q: char)
    ensures q == '"' || q == '\''
  {
    if '\'' in s && '"' !in s then '"' else '\''
  }

  /** The code points below U+0100 that Python does not count as printable. */
  predicate Latin1Unprintable(c: char) {
    c as int < 0x20 || 0x7f <= c as int <= 0xa0 || c as int == 0xad
  }

  function HexDigit(d: nat): char
    requires d < 16
  {
    if d < 10 then ('0' as int + d) as char else ('a' as int + d - 10) as char
  }

  /** The value of a hexadecimal digit of either case. */
  function HexValue(c: char): Option<nat> {
    if '0' <= c <= '9' then Some(c as int - '0' as int)
    else if 'a' <= c <= 'f' then Some(c as int - 'a' as int + 10)
    else if 'A' <= c <= 'F' then Some(c as int - 'A' as int + 10)
    else None
  }

  /**
   * One character of a literal quoted with `q`: the quote and the backslash
   * behind a backslash, tab, newline and carriage return as `\t`, `\n`,
   * `\r`, the other unprintable Latin-1 characters as `\xhh` in lower-case
   * hexadecimal, every other character as itself.
   */
  function EscapeChar(c: char, q: char): string {
    if c == q || c == '\\' then ['\\', c]
    else if c == '\t' then "\\t"
    else if c == '\n' then "\\n"
    else if c == '\r' then "\\r"
    else if Latin1Unprintable(c) then ['\\', 'x', HexDigit(c as int / 16), HexDigit(c as int % 16)]
    else [c]
  }

  function EscapeAll(s: string, q: char): string
    decreases |s|
  {
    if s == [] then [] else EscapeChar(s[0], q) + EscapeAll(s[1..], q)
  }

  /** `repr(s)` for a string `s`: the escaped characters between the chosen quotes. */
  function ReprString(s: string): (r: string)
    ensures |r| >= 2 && r[0] == r[|r| - 1] == QuoteFor(s)
    ensures r[0] == '"' <==> '\'' in s && '"' !in s
  {
    var q := QuoteFor(s);
    [q] + EscapeAll(s, q) + [q]
  }

  function Prepend(c: char, rest: Option<string>): Option<string> {
    if rest.Some? then Some([c] + rest.value) else None
  }

  /**
   * Reading the body of a one-line Python string literal quoted with `q`:
   * the escapes `\\`, `\'`, `\"`, `\t`, `\n`, `\r` and `\xhh`; a
   * backslash before any other character stays as it is. An unescaped quote,
   * a raw line break, a trailing backslash or a short `\x` escape is not a
   * literal body (`None`).
   */
  function Unescape(t: string, q: char): (r: Option<string>)
    decreases |t|
  {
    if t == [] then Some([])
    else if t[0] == q || t[0] == '\n' || t[0] == '\r' then None
    else if t[0] != '\\' then Prepend(t[0], Unescape(t[1..], q))
    else if |t| < 2 then None
    else if t[1] == 't' then Prepend('\t', Unescape(t[2..], q))
    else if t[1] == 'n' then Prepend('\n', Unescape(t[2..], q))
    else if t[1] == 'r' then Prepend('\r', Unescape(t[2..], q))
    else if t[1] == '\\' || t[1] == '\'' || t[1] == '"' then Prepend(t[1], Unescape(t[2..], q))
    else if t[1] == 'x' then
      if |t| >= 4 && HexValue(t[2]).Some? && HexValue(t[3]).Some? then
        Prepend((16 * HexValue(t[2]).value + HexValue(t[3]).value) as char, Unescape(t[4..], q))
      else None
    else Prepend('\\', Unescape(t[1..], q))
  }

  /** `ast.literal_eval` on a one-line string literal in single or double quotes. */
  function ReadLiteral(r: string): Option<string> {
    if |r| >= 2 && (r[0] == '\'' || r[0] == '"') && r[|r| - 1] == r[0] then Unescape(r[1..|r| - 1], r[0])
    else None
  }

  lemma HexDigitValue(d: nat)
    requires d < 16
    ensures HexValue(HexDigit(d)) == Some(d)
  {
  }

  /** An escaped character reads back as that character, whatever follows it. */
  lemma EscapeCharRoundTrip(c: char, q: char, rest: string)
    requires q == '\'' || q == '"'
    ensures Unescape(EscapeChar(c, q) + rest, q) == Prepend(c, Unescape(rest, q))
  {
    var t := EscapeChar(c, q) + rest;
    if c == q || c == '\\' || c == '\t' || c == '\n' || c == '\r' {
      assert t[2..] == rest;
    } else if Latin1Unprintable(c) {
      var n := c as int;
      HexDigitValue(n / 16);
      HexDigitValue(n % 16);
      assert t[4..] == rest;
      assert (16 * (n / 16) + n % 16) as char == c;
    } else {
      assert t[1..] == rest;
    }
  }

  /** Escaping, then reading back, gives the string again. */
  lemma {:induction false} EscapeAllRoundTrip(s: string, q: char)
    requires q == '\'' || q == '"'
    ensures Unescape(EscapeAll(s, q), q) == Some(s)
    decreases |s|
  {
    if s != [] {
      EscapeAllRoundTrip(s[1..], q);
      EscapeCharRoundTrip(s[0], q, EscapeAll(s[1..], q));
      assert [s[0]] + s[1..] == s;
    }
  }

  /** Python's promise for `repr` of a string: reading the literal back gives the string. */
  lemma ReprStringRoundTrip(s: string)
    ensures ReadLiteral(ReprString(s)) == Some(s)
  {
    var q := QuoteFor(s);
    var r := ReprString(s);
    assert r[1..|r| - 1] == EscapeAll(s, q);
    EscapeAllRoundTrip(s, q);
  }

  /** A string with an apostrophe and no double quote is shown in double quotes, unescaped. */
  lemma ReprApostrophe()
    ensures ReprString("it's") == "\"it's\""
  {
    assert QuoteFor("it's") == '"';
    assert EscapeAll("s", '"') == "s";
    assert EscapeAll("'s", '"') == "'s";
    assert EscapeAll("t's", '"') == "t's";
  }

  /** With both quotes present, single quotes are used and the apostrophe is escaped. */
  lemma ReprBothQuotes()
    ensures ReprString("\"'") == "'\"\\''"
  {
    assert QuoteFor("\"'") == '\'';
    assert EscapeAll("'", '\'') == "\\'";
  }

  // ---------------------------------------------------------------- int()

  predicate IsDigit(c: char) {
    '0' <= c <= '9'
  }

  predicate AllDigits(s: string) {
    forall i :: 0 <= i < |s| ==> IsDigit(s[i])
  }

  function DigitsValue(s: string): (r: nat)
    requires AllDigits(s)
    decreases |s|
  {
    if s == [] then 0
    else
      assert IsDigit(s[|s| - 1]);
      DigitsValue(s[..|s| - 1]) * 10 + (s[|s| - 1] as int - '0' as int)
  }

  predicate DigitsOrUnderscores(s: string) {
    forall i :: 0 <= i < |s| ==> IsDigit(s[i]) || s[i] == '_'
  }

  /**
   * Digits, with single underscores allowed between two digits, as Python
   * integer literals and `int` accept them.
   */
  predicate Grouped(s: string) {
    && |s| > 0 && IsDigit(s[0]) && IsDigit(s[|s| - 1]) && DigitsOrUnderscores(s)
    && forall i :: 0 <= i < |s| - 1 && s[i] == '_' ==> IsDigit(s[i + 1])
  }

  /** `s` with its underscores removed. */
  function Ungrouped(s: string): (r: string)
    ensures DigitsOrUnderscores(s) ==> AllDigits(r)
    decreases |s|
  {
    if s == [] then []
    else
      assert DigitsOrUnderscores(s) ==> DigitsOrUnderscores(s[1..]) by {
        if DigitsOrUnderscores(s) {
          forall i | 0 <= i < |s| - 1 ensures IsDigit(s[1..][i]) || s[1..][i] == '_' {
            assert s[1..][i] == s[i + 1];
          }
        }
      }
      (if s[0] == '_' then [] else [s[0]]) + Ungrouped(s[1..])
  }

  /** `int` on an already stripped string: an optional sign, then grouped digits. */
  function ParseTrimmed(t: string): Option<int> {
    if |t| > 0 && (t[0] == '-' || t[0] == '+') then
      if Grouped(t[1..]) then
        var n := DigitsValue(Ungrouped(t[1..])) as int;
        Some(if t[0] == '-' then 0 - n else n)
      else None
    else if Grouped(t) then Some(DigitsValue(Ungrouped(t)))
    else None
  }

  /** Python `int(s)` on a string: surrounding whitespace, an optional sign, decimal digits. */
  function ParseInt(s: string): Option<int> {
    ParseTrimmed(Strip(s))
  }

  /** Python `int(f)` on a float: truncation toward zero. */
  function Truncate(f: real): (r: int)
    ensures f >= 0.0 ==> r as real <= f < r as real + 1.0
    ensures f < 0.0 ==> r as real - 1.0 < f <= r as real
  {
    if f >= 0.0 then f.Floor else 0 - (0.0 - f).Floor
  }

  /** Python `int(v)` on a parsed JSON value; `Raised` where Python raises. */
  function IntOf(v: Value): (r: Attempt<int>)
    ensures v.Int? ==> r == Done(v.i)
    ensures v.Bool? ==> r == Done(if v.b then 1 else 0)
    ensures v.Float? ==> r == Done(Truncate(v.f))
    ensures (v.Null? || v.List? || v.Dict? || v.ObjectId?) ==> r.Raised?
  {
    match v
    case Int(i) => Done(i)
    case Bool(b) => Done(if b then 1 else 0)
    case Float(f, _) => Done(Truncate(f))
    case Str(s) => (match ParseInt(s) case Some(n) => Done(n) case None => Raised)
    case _ => Raised
  }

  /** `int(7.5) == 7` and `int(-7.5) == -7`: truncation, not flooring. */
  lemma TruncateExamples()
    ensures Truncate(7.5) == 7 && Truncate(-7.5) == -7
  {
  }

  /** Underscores between digits are ignored: `int("1_000") == 1000`; a doubled or trailing one is rejected. */
  lemma ParseGroupedExamples()
    ensures ParseInt("1_000") == Some(1000)
    ensures ParseInt("1__0").None? && ParseInt("10_").None? && ParseInt("_1").None?
  {
    StripOfTrimmed("1_000");
    assert Grouped("1_000");
    assert Ungrouped("1_000") == "1000";
    assert DigitsValue("1000") == 1000 by {
      assert "1000"[..3] == "100" && "100"[..2] == "10" && "10"[..1] == "1" && "1"[..0] == "";
    }
    StripOfTrimmed("1__0");
    assert !Grouped("1__0") by { assert "1__0"[1] == '_' && !IsDigit("1__0"[2]); }
    StripOfTrimmed("10_");
    assert !IsDigit("_1"[0]);
    StripOfTrimmed("_1");
  }

  /** Plain digits are grouped, and removing underscores leaves them unchanged. */
  lemma {:induction false} DigitsGrouped(s: string)
    requires |s| > 0 && AllDigits(s)
    ensures Grouped(s) && Ungrouped(s) == s
    decreases |s|
  {
    if |s| > 1 {
      DigitsGrouped(s[1..]);
    }
  }

  lemma {:induction false} DigitsOfNat(n: nat)
    ensures AllDigits(NatToString(n))
    ensures DigitsValue(NatToString(n)) == n
    decreases n
  {
    var s := NatToString(n);
    if n >= 10 {
      DigitsOfNat(n / 10);
      assert s[..|s| - 1] == NatToString(n / 10);
    }
  }

  /** A minus sign followed by digits parses to the negated digits' value. */
  lemma {:induction false} ParseMinusDigits(s: string, d: string)
    requires s == "-" + d && |d| > 0 && AllDigits(d)
    ensures ParseInt(s) == Some(0 - DigitsValue(d))
  {
    assert Strip(s) == s by {
      assert s[|s| - 1] == d[|d| - 1];
      assert IsDigit(d[|d| - 1]);
      StripOfTrimmed(s);
    }
    NegativeDigits(d);
  }

  /** Digits alone parse to their value. */
  lemma ParseDigits(s: string)
    requires |s| > 0 && AllDigits(s)
    ensures ParseInt(s) == Some(DigitsValue(s))
  {
    assert IsDigit(s[0]) && IsDigit(s[|s| - 1]);
    StripOfTrimmed(s);
    DigitsGrouped(s);
  }

  /** A minus sign followed by digits, already stripped, parses to the negated value. */
  lemma {:induction false} NegativeDigits(d: string)
    requires |d| > 0 && AllDigits(d)
    ensures ParseTrimmed("-" + d) == Some(0 - DigitsValue(d))
  {
    DigitsGrouped(d);
    assert ("-" + d)[1..] == d;
  }

  /** `int(str(i)) == i`: rendering an integer and parsing it back is the identity. */
  lemma ParseRendered(i: int)
    ensures ParseInt(IntToString(i)) == Some(i)
  {
    DigitsOfNat(if i < 0 then -i else i);
    if i < 0 {
      ParseMinusDigits(IntToString(i), NatToString(-i));
    } else {
      ParseDigits(IntToString(i));
    }
  }
}
