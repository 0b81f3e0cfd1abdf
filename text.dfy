/**
  The string primitives the importer and the filter rely on: an ASCII model of
  `toLowerCase`/`toUpperCase`, ECMAScript `trim`, `includes`/`startsWith`, the
  decimal form of an integer (`toString`) and of a rating filter (`Number`), and
  a lexicographic order on code points standing in for the UTF-16 code-unit
  order that `Array.prototype.sort` uses on strings (the two agree outside
  the supplementary planes).
*/
module Text {
  import opened Wrappers

  // ---------------------------------------------------------------------------
  // Case mapping (ASCII only)

  function LowerChar(c: char): char
  {
    if 'A' <= c <= 'Z' then (c as int + 32) as char else c
  }

  function UpperChar(c: char): char
  {
    if 'a' <= c <= 'z' then (c as int - 32) as char else c
  }

  function Lower(s: string): string
  {
    seq(|s|, i requires 0 <= i < |s| => LowerChar(s[i]))
  }

  /** No ASCII capital letter occurs in `s`. */
  predicate NoUpper(s: string)
  {
    forall j :: 0 <= j < |s| ==> !('A' <= s[j] <= 'Z')
  }

  /** Lower-casing leaves no capital letter and keeps the length and every
      space where it was. */
  lemma LowerNormal(s: string)
    ensures |Lower(s)| == |s| && NoUpper(Lower(s))
    ensures forall j :: 0 <= j < |s| ==> (IsSpace(Lower(s)[j]) <==> IsSpace(s[j]))
  {
  }

  function Upper(s: string): string
  {
    seq(|s|, i requires 0 <= i < |s| => UpperChar(s[i]))
  }

  // ---------------------------------------------------------------------------
  // Whitespace and trim

  /** WhiteSpace and LineTerminator code points of ECMAScript, which `trim` removes. */
  predicate IsSpace(c: char)
  {
    || c == '\t' || c == '\n' || c == '\U{0B}' || c == '\U{0C}' || c == '\r'
    || c == ' ' || c == '\U{A0}' || c == '\U{1680}'
    || ('\U{2000}' <= c <= '\U{200A}')
    || c == '\U{2028}' || c == '\U{2029}' || c == '\U{202F}' || c == '\U{205F}'
    || c == '\U{3000}' || c == '\U{FEFF}'
  }

  /** Drops leading whitespace: the result is a suffix of `s` and only spaces were dropped. */
  function TrimStart(s: string): (r: string)
    ensures |r| <= |s| && r == s[|s| - |r|..]
    ensures forall i :: 0 <= i < |s| - |r| ==> IsSpace(s[i])
    ensures r == [] || !IsSpace(r[0])
    decreases |s|
  {
    if |s| > 0 && IsSpace(s[0]) then TrimStart(s[1..]) else s
  }

  /** Drops trailing whitespace: the result is a prefix of `s` and only spaces were dropped. */
  function TrimEnd(s: string): (r: string)
    ensures |r| <= |s| && r == s[..|r|]
    ensures forall i :: |r| <= i < |s| ==> IsSpace(s[i])
    ensures r == [] || !IsSpace(r[|r| - 1])
    decreases |s|
  {
    if |s| > 0 && IsSpace(s[|s| - 1]) then TrimEnd(s[..|s| - 1]) else s
  }

  /** `r` is the slice `s[a..b]` of `s` for some `a <= b` with only spaces
      before `a` and after `b`. */
  predicate IsTrimmedSlice(r: string, s: string)
  {
    exists a, b :: (0 <= a <= b <= |s| && r == s[a..b]
                    && (forall i :: 0 <= i < a ==> IsSpace(s[i]))
                    && (forall i :: b <= i < |s| ==> IsSpace(s[i])))
  }

  /** `String.prototype.trim`: the text with the spaces at both ends cut off.
      It is a slice of `s` with only spaces before and after it, and no
      space is left at either end. */
  function Trim(s: string): (r: string)
    ensures IsTrimmedSlice(r, s)
    ensures r == [] || (!IsSpace(r[0]) && !IsSpace(r[|r| - 1]))
  {
    var t := TrimStart(s);
    var r := TrimEnd(t);
    assert r != [] ==> r[0] == t[0];
    SliceBetweenSpaces(s, t, r);
    r
  }

  /** The trimmed text is empty exactly when the text held nothing but
      spaces. */
  lemma TrimEmptyIff(s: string)
    ensures Trim(s) == [] <==> forall i :: 0 <= i < |s| ==> IsSpace(s[i])
  {
    EmptySliceIff(Trim(s), s);
  }

  /** A trimmed slice with no space at either end is empty exactly when
      everything around it, and so all of `s`, is white space. */
  lemma EmptySliceIff(r: string, s: string)
    requires IsTrimmedSlice(r, s)
    requires r == [] || (!IsSpace(r[0]) && !IsSpace(r[|r| - 1]))
    ensures r == [] <==> forall i :: 0 <= i < |s| ==> IsSpace(s[i])
  {
    var a, b :| 0 <= a <= b <= |s| && r == s[a..b]
      && (forall i :: 0 <= i < a ==> IsSpace(s[i]))
      && (forall i :: b <= i < |s| ==> IsSpace(s[i]));
    if r != [] {
      assert r[0] == s[a];
    } else {
      assert a == b;
    }
  }

  /** Cutting spaces off the front of `s` (giving `t`) and then off the back
      of `t` (giving `r`) leaves a slice of `s` with only spaces around it. */
  lemma SliceBetweenSpaces(s: string, t: string, r: string)
    requires |t| <= |s| && t == s[|s| - |t|..] && forall i :: 0 <= i < |s| - |t| ==> IsSpace(s[i])
    requires |r| <= |t| && r == t[..|r|] && forall i :: |r| <= i < |t| ==> IsSpace(t[i])
    ensures IsTrimmedSlice(r, s)
  {
    var a, b := |s| - |t|, |s| - |t| + |r|;
    assert r == s[a..b];
    forall i | b <= i < |s| ensures IsSpace(s[i]) {
      assert s[i] == t[i - a];
    }
  }

  /** Trimming text that has no space at either end leaves it as it is. */
  lemma TrimUntrimmable(s: string)
    requires s == [] || (!IsSpace(s[0]) && !IsSpace(s[|s| - 1]))
    ensures Trim(s) == s
  {
    assert TrimStart(s) == s;
    assert TrimEnd(s) == s;
  }

  /** `trim` is idempotent. */
  lemma TrimIdempotent(s: string)
    ensures Trim(Trim(s)) == Trim(s)
  {
    TrimUntrimmable(Trim(s));
  }

  // ---------------------------------------------------------------------------
  // Substrings

  /** `s.startsWith(t)`. */
  predicate StartsWith(s: string, t: string)
  {
    t <= s
  }

  /** `s.includes(t)`: `t` occurs at some offset of `s`. */
  predicate Contains(s: string, t: string)
  {
    exists i :: 0 <= i <= |s| - |t| && t <= s[i..]
  }

  /** Every string contains itself. */
  lemma ContainsItself(s: string)
    ensures Contains(s, s)
  {
    assert s <= s[0..];
  }

  /** A prefix is a substring found at offset 0. */
  lemma PrefixIsContained(s: string, t: string)
    requires StartsWith(s, t)
    ensures Contains(s, t)
  {
    assert s[0..] == s;
  }

  // ---------------------------------------------------------------------------
  // Decimal numbers

  predicate IsDigit(c: char)
  {
    '0' <= c <= '9'
  }

  function DigitChar(d: nat): char
    requires d < 10
  {
    ('0' as int + d) as char
  }

  /** `n.toString()` for a natural number: decimal digits, most significant first. */
  function NatToString(n: nat): (r: string)
    ensures |r| >= 1
    ensures forall i :: 0 <= i < |r| ==> IsDigit(r[i])
  {
    if n < 10 then [DigitChar(n)] else NatToString(n / 10) + [DigitChar(n % 10)]
  }

  /** `n.toString()` for an integer: a minus sign before the digits of a negative number. */
  function IntToString(n: int): string
  {
    if n < 0 then "-" + NatToString(-n) else NatToString(n)
  }

  /** Every integer has a non-empty decimal form. */
  lemma IntToStringNonEmpty(n: int)
    ensures IntToString(n) != ""
  {
  }

  /** Lower-casing leaves the decimal form of an integer as it is: it holds no letter. */
  lemma LowerIntToString(n: int)
    ensures Lower(IntToString(n)) == IntToString(n)
  {
    var s := IntToString(n);
    forall i | 0 <= i < |s| ensures LowerChar(s[i]) == s[i] {
      if n < 0 && i > 0 {
        assert s[i] == NatToString(-n)[i - 1];
      }
    }
  }

  function DigitsValue(s: string): nat
    requires forall i :: 0 <= i < |s| ==> IsDigit(s[i])
  {
    if s == [] then 0
    else
      assert IsDigit(s[|s| - 1]);
      DigitsValue(s[..|s| - 1]) * 10 + (s[|s| - 1] as int - '0' as int)
  }

  /** The value of a non-empty string of decimal digits; anything else is not
      a number (`Number` would give `NaN`, which equals nothing). */
  function ParseNat(s: string): Option<nat>
  {
    if |s| > 0 && forall i :: 0 <= i < |s| ==> IsDigit(s[i]) then Some(DigitsValue(s)) else None
  }

  /** Printing a number and reading it back gives the number. */
  lemma {:induction false} ParseNatToString(n: nat)
    ensures ParseNat(NatToString(n)) == Some(n)
  {
    var s := NatToString(n);
    if n < 10 {
      assert s == [DigitChar(n)];
      assert s[..0] == [];
      assert DigitsValue(s) == n;
    } else {
      ParseNatToString(n / 10);
      assert s[..|s| - 1] == NatToString(n / 10);
      assert s[|s| - 1] as int - '0' as int == n % 10;
    }
  }

  // ---------------------------------------------------------------------------
  // String order

  /** Lexicographic order on code points. The default sort compares UTF-16
      code units instead; the two orders differ only for characters outside
      the Basic Multilingual Plane. */
  predicate StrLess(a: string, b: string)
    decreases |a|
  {
    if a == [] then b != []
    else if b == [] then false
    else if a[0] != b[0] then a[0] < b[0]
    else StrLess(a[1..], b[1..])
  }

  lemma {:induction false} StrLessIrreflexive(a: string)
    ensures !StrLess(a, a)
    decreases |a|
  {
    if a != [] {
      StrLessIrreflexive(a[1..]);
    }
  }

  lemma {:induction false} StrLessTransitive(a: string, b: string, c: string)
    requires StrLess(a, b) && StrLess(b, c)
    ensures StrLess(a, c)
    decreases |a|
  {
    if a != [] && a[0] == b[0] && b[0] == c[0] {
      StrLessTransitive(a[1..], b[1..], c[1..]);
    }
  }

  lemma {:induction false} StrLessTotal(a: string, b: string)
    requires a != b
    ensures StrLess(a, b) || StrLess(b, a)
    decreases |a|
  {
    if a != [] && b != [] && a[0] == b[0] {
      assert a == [a[0]] + a[1..] && b == [b[0]] + b[1..];
      StrLessTotal(a[1..], b[1..]);
    }
  }
}
