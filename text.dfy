/**
 * Character and string helpers shared by the parsers and writers: ASCII digits,
 * decimal rendering of integers, padding, Kotlin's `trim`/`isBlank`, `split`,
 * `joinToString`, `substringBeforeLast`/`substringAfterLast` and `replace`.
 */
module Text {

  // ---------------------------------------------------------------- digits

  predicate IsDigit(c: char) { '0' <= c <= '9' }

  predicate AllDigits(s: string) { forall i :: 0 <= i < |s| ==> IsDigit(s[i]) }

  lemma DigitsHaveNo(s: string, c: char)
    requires AllDigits(s) && !IsDigit(c)
    ensures c !in s
  {
  }

  function DigitValue(c: char): nat
    requires IsDigit(c)
  {
    c as int - '0' as int
  }

  function DigitChar(d: nat): (c: char)
    requires d < 10
    ensures IsDigit(c) && DigitValue(c) == d
  {
    ('0' as int + d) as char
  }

  /** The value of a string of ASCII digits read as a decimal numeral. */
  function DigitsValue(s: string): nat
    requires AllDigits(s)
  {
    if s == [] then 0 else 10 * DigitsValue(s[..|s| - 1]) + DigitValue(s[|s| - 1])
  }

  function Pow10(k: nat): (p: nat)
    ensures p >= 1
  {
    if k == 0 then 1 else 10 * Pow10(k - 1)
  }

  /** A numeral of `k` digits is below `10^k`. */
  lemma {:induction false} DigitsValueBound(s: string)
    requires AllDigits(s)
    ensures DigitsValue(s) < Pow10(|s|)
  {
    if s != [] {
      DigitsValueBound(s[..|s| - 1]);
    }
  }

  /** Kotlin's `Int.toString()` for a non-negative value: shortest decimal numeral. */
  function NatToString(n: nat): (s: string)
    ensures 1 <= |s| && AllDigits(s)
  {
    if n < 10 then [DigitChar(n)] else NatToString(n / 10) + [DigitChar(n % 10)]
  }

  /** Kotlin's `Int.toString()`: a minus sign before the magnitude of a negative value. */
  function IntToString(x: int): string
  {
    if x < 0 then "-" + NatToString(-x) else NatToString(x)
  }

  lemma IntToStringSign(x: int)
    ensures |IntToString(x)| >= 1
    ensures IntToString(x)[0] == '-' <==> x < 0
  {
    if x >= 0 { assert IsDigit(NatToString(x)[0]); }
  }

  /** A printed integer ends with a digit. */
  lemma IntToStringEndsWithDigit(x: int)
    ensures var s := IntToString(x); s != [] && IsDigit(s[|s| - 1])
  {
    var digits := if x < 0 then NatToString(-x) else NatToString(x);
    assert IntToString(x)[|IntToString(x)| - 1] == digits[|digits| - 1];
  }

  lemma IntToStringHasNo(x: int, c: char)
    requires !IsDigit(c) && c != '-'
    ensures c !in IntToString(x)
  {
    if x < 0 { DigitsHaveNo(NatToString(-x), c); } else { DigitsHaveNo(NatToString(x), c); }
  }

  lemma {:induction false} NatToStringValue(n: nat)
    ensures DigitsValue(NatToString(n)) == n
  {
    if n >= 10 {
      var s := NatToString(n);
      assert s[..|s| - 1] == NatToString(n / 10);
      NatToStringValue(n / 10);
    }
  }

  lemma {:induction false} NatToStringLength(n: nat, w: nat)
    requires 1 <= w && n < Pow10(w)
    ensures |NatToString(n)| <= w
  {
    if n >= 10 {
      NatToStringLength(n / 10, w - 1);
    }
  }

  // ---------------------------------------------------------------- padding

  function Repeat(c: char, n: nat): (s: string)
    ensures |s| == n
  {
    if n == 0 then [] else [c] + Repeat(c, n - 1)
  }

  lemma {:induction false} RepeatAt(c: char, n: nat)
    ensures forall i :: 0 <= i < n ==> Repeat(c, n)[i] == c
  {
    if n > 0 {
      RepeatAt(c, n - 1);
      assert forall i :: 1 <= i < n ==> Repeat(c, n)[i] == Repeat(c, n - 1)[i - 1];
    }
  }

  /** Kotlin's `padStart(width, c)`: prefix `c` until the string is `width` long; never truncates. */
  function PadStart(s: string, width: nat, c: char): (r: string)
    ensures |r| == if |s| >= width then |s| else width
  {
    if |s| >= width then s else Repeat(c, width - |s|) + s
  }

  /** A non-negative number zero-padded to at least `width` digits (`toString().padStart(width, '0')`). */
  function PadNat(n: nat, width: nat): (s: string)
    ensures |s| >= width
  {
    PadStart(NatToString(n), width, '0')
  }

  lemma PadNatHasNo(n: nat, width: nat, c: char)
    requires !IsDigit(c)
    ensures c !in PadNat(n, width)
  {
    PadNatValue(n, width);
    DigitsHaveNo(PadNat(n, width), c);
  }

  lemma {:induction false} LeadingZerosValue(z: nat, s: string)
    requires AllDigits(s)
    ensures AllDigits(Repeat('0', z) + s)
    ensures DigitsValue(Repeat('0', z) + s) == DigitsValue(s)
    decreases |s|, z
  {
    var t := Repeat('0', z) + s;
    RepeatAt('0', z);
    assert AllDigits(t) by {
      forall i | 0 <= i < |t| ensures IsDigit(t[i]) {
        if i < z { assert t[i] == '0'; } else { assert t[i] == s[i - z]; }
      }
    }
    if s == [] {
      if z > 0 {
        RepeatAt('0', z - 1);
        assert t[..|t| - 1] == Repeat('0', z - 1) + [];
        LeadingZerosValue(z - 1, []);
      }
    } else {
      assert t[..|t| - 1] == Repeat('0', z) + s[..|s| - 1];
      LeadingZerosValue(z, s[..|s| - 1]);
    }
  }

  /** Zero padding keeps the value and, below `10^width`, gives exactly `width` digits. */
  lemma PadNatValue(n: nat, width: nat)
    ensures AllDigits(PadNat(n, width)) && DigitsValue(PadNat(n, width)) == n
    ensures 1 <= width && n < Pow10(width) ==> |PadNat(n, width)| == width
  {
    var s := NatToString(n);
    NatToStringValue(n);
    LeadingZerosValue(|PadNat(n, width)| - |s|, s);
    if 1 <= width && n < Pow10(width) {
      NatToStringLength(n, width);
    }
  }

  // ---------------------------------------------------------------- whitespace, prefixes

  /**
   * Kotlin's `Char.isWhitespace()`: Java's `Character.isWhitespace` or `Character.isSpaceChar`.
   */
  predicate IsWhitespace(c: char)
  {
    || ('\t' <= c <= '\r')
    || ('\U{1C}' <= c <= ' ')
    || c == '\U{A0}' || c == '\U{1680}'
    || ('\U{2000}' <= c <= '\U{200A}')
    || c == '\U{2028}' || c == '\U{2029}' || c == '\U{202F}' || c == '\U{205F}' || c == '\U{3000}'
  }

  /** Kotlin's `isBlank()`: empty or whitespace only. */
  predicate IsBlank(s: string) { forall i :: 0 <= i < |s| ==> IsWhitespace(s[i]) }

  function TrimStart(s: string): (r: string)
    ensures |r| <= |s| && r == s[|s| - |r|..]
    ensures r == [] || !IsWhitespace(r[0])
  {
    if s != [] && IsWhitespace(s[0]) then TrimStart(s[1..]) else s
  }

  function TrimEnd(s: string): (r: string)
    ensures |r| <= |s| && r == s[..|r|]
    ensures r == [] || !IsWhitespace(r[|r| - 1])
  {
    if s != [] && IsWhitespace(s[|s| - 1]) then TrimEnd(s[..|s| - 1]) else s
  }

  /** Kotlin's `trim()`: drop leading and trailing whitespace. */
  function Trim(s: string): string { TrimEnd(TrimStart(s)) }

  /** A string that neither starts nor ends with whitespace is its own trim. */
  lemma TrimNoop(s: string)
    requires s != [] && !IsWhitespace(s[0]) && !IsWhitespace(s[|s| - 1])
    ensures Trim(s) == s
  {
    assert TrimStart(s) == s;
  }

  predicate StartsWith(s: string, prefix: string) { |prefix| <= |s| && s[..|prefix|] == prefix }

  predicate EndsWith(s: string, suffix: string) { |suffix| <= |s| && s[|s| - |suffix|..] == suffix }

  /** Kotlin's `replace(a, b)` for single characters: every occurrence is replaced. */
  function ReplaceChar(s: string, a: char, b: char): (r: string)
    ensures |r| == |s|
  {
    if s == [] then [] else [if s[0] == a then b else s[0]] + ReplaceChar(s[1..], a, b)
  }

  /** Position by position, `a` becomes `b` and every other character stays. */
  lemma {:induction false} ReplaceCharAt(s: string, a: char, b: char)
    ensures forall i :: 0 <= i < |s| ==> ReplaceChar(s, a, b)[i] == if s[i] == a then b else s[i]
  {
    if s != [] {
      ReplaceCharAt(s[1..], a, b);
    }
  }

  // ---------------------------------------------------------------- last index

  /** Index of the last occurrence of `c`; -1 when `c` does not occur. */
  function LastIndexOf(s: string, c: char): (i: int)
    ensures -1 <= i < |s|
    ensures i == -1 <==> c !in s
    ensures 0 <= i ==> s[i] == c && c !in s[i + 1..]
  {
    if s == [] then -1
    else if s[|s| - 1] == c then |s| - 1
    else
      var init := s[..|s| - 1];
      var j := LastIndexOf(init, c);
      assert s == init + [s[|s| - 1]];
      assert j >= 0 ==> s[j + 1..] == init[j + 1..] + [s[|s| - 1]];
      j
  }

  /** Kotlin's `substringBeforeLast(c)`: the whole string when `c` does not occur. */
  function SubstringBeforeLast(s: string, c: char): string
  {
    var i := LastIndexOf(s, c);
    if i < 0 then s else s[..i]
  }

  /** Kotlin's `substringAfterLast(c, "")`: the empty string when `c` does not occur. */
  function SubstringAfterLast(s: string, c: char): string
  {
    var i := LastIndexOf(s, c);
    if i < 0 then "" else s[i + 1..]
  }

  /** Splitting before and after the last `c` gives back the whole string. */
  lemma SplitAtLast(base: string, c: char, ext: string)
    requires c !in ext
    ensures SubstringBeforeLast(base + [c] + ext, c) == base
    ensures SubstringAfterLast(base + [c] + ext, c) == ext
  {
    var s := base + [c] + ext;
    assert s[|base|] == c;
    assert s[|base| + 1..] == ext;
  }

  // ---------------------------------------------------------------- split and join

  /**
   * Kotlin's `split(sep)` for one separator character: every separator ends a field,
   * empty fields (also trailing ones) are kept, so there is one more field than separators.
   */
  function Split(s: string, sep: char): (parts: seq<string>)
    ensures |parts| >= 1
  {
    if s == [] then [""]
    else
      var rest := Split(s[..|s| - 1], sep);
      if s[|s| - 1] == sep then rest + [""]
      else rest[..|rest| - 1] + [rest[|rest| - 1] + [s[|s| - 1]]]
  }

  /** Fields joined by one separator character (Kotlin's `joinToString(sep)` and string templates). */
  function Join(fields: seq<string>, sep: char): string
  {
    if |fields| == 0 then ""
    else if |fields| == 1 then fields[0]
    else Join(fields[..|fields| - 1], sep) + [sep] + fields[|fields| - 1]
  }

  predicate NoSeparator(fields: seq<string>, sep: char)
  {
    forall i :: 0 <= i < |fields| ==> sep !in fields[i]
  }

  lemma {:induction false} SplitWithoutSeparator(b: string, sep: char)
    requires sep !in b
    ensures Split(b, sep) == [b]
  {
    if b != [] {
      assert b[..|b| - 1] + [b[|b| - 1]] == b;
      SplitWithoutSeparator(b[..|b| - 1], sep);
    }
  }

  lemma {:induction false} SplitAppend(s: string, sep: char, b: string)
    requires sep !in b
    ensures Split(s + [sep] + b, sep) == Split(s, sep) + [b]
  {
    var t := s + [sep] + b;
    if b == [] {
      assert t[..|t| - 1] == s;
    } else {
      assert t[..|t| - 1] == s + [sep] + b[..|b| - 1];
      SplitAppend(s, sep, b[..|b| - 1]);
      assert b[..|b| - 1] + [b[|b| - 1]] == b;
    }
  }

  /** Splitting a join gives the fields back when no field holds the separator. */
  lemma {:induction false} SplitJoin(fields: seq<string>, sep: char)
    requires |fields| >= 1 && NoSeparator(fields, sep)
    ensures Split(Join(fields, sep), sep) == fields
  {
    if |fields| == 1 {
      SplitWithoutSeparator(fields[0], sep);
    } else {
      var init := fields[..|fields| - 1];
      SplitJoin(init, sep);
      SplitAppend(Join(init, sep), sep, fields[|fields| - 1]);
      assert init + [fields[|fields| - 1]] == fields;
    }
  }

  /** `SplitJoin` for a first field followed by more fields. */
  lemma SplitJoinFront(first: string, rest: seq<string>, sep: char)
    requires sep !in first && forall j :: 0 <= j < |rest| ==> sep !in rest[j]
    ensures Split(Join([first] + rest, sep), sep) == [first] + rest
  {
    var fields := [first] + rest;
    assert forall j :: 1 <= j < |fields| ==> fields[j] == rest[j - 1];
    SplitJoin(fields, sep);
  }

  /** A join starts with the first character of its first field ... */
  lemma {:induction false} JoinFirst(fields: seq<string>, sep: char)
    requires |fields| >= 1 && fields[0] != []
    ensures Join(fields, sep) != [] && Join(fields, sep)[0] == fields[0][0]
  {
    if |fields| > 1 {
      var init := fields[..|fields| - 1];
      JoinFirst(init, sep);
    }
  }

  /** ... and ends with the last character of its last field. */
  lemma JoinLast(fields: seq<string>, sep: char)
    requires |fields| >= 1 && fields[|fields| - 1] != []
    ensures var s := Join(fields, sep); s != [] && s[|s| - 1] == fields[|fields| - 1][|fields[|fields| - 1]| - 1]
  {
  }

  /** Appending one field to a join: the shape the writers build rows with. */
  lemma JoinSnoc(fields: seq<string>, f: string, sep: char)
    requires |fields| >= 1
    ensures Join(fields + [f], sep) == Join(fields, sep) + [sep] + f
  {
    assert (fields + [f])[..|fields|] == fields;
  }
}
