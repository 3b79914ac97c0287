/** The string operations the application relies on, as JavaScript defines them
    for the ASCII range: case mapping, substring search, split and join, decimal
    and hexadecimal rendering, parseInt and padStart, and code-unit ordering. */
module Text {
  import opened Wrappers

  // ---------------------------------------------------------------------------
  // Case mapping (toLowerCase / toUpperCase restricted to ASCII letters)

  function LowerChar(c: char): char {
    if 'A' <= c <= 'Z' then (c as int + 32) as char else c
  }

  function UpperChar(c: char): char {
    if 'a' <= c <= 'z' then (c as int - 32) as char else c
  }

  function Lower(s: string): (r: string)
    ensures |r| == |s|
    ensures forall i :: 0 <= i < |s| ==> r[i] == LowerChar(s[i])
  {
    seq(|s|, i requires 0 <= i < |s| => LowerChar(s[i]))
  }

  function Upper(s: string): (r: string)
    ensures |r| == |s|
    ensures forall i :: 0 <= i < |s| ==> r[i] == UpperChar(s[i])
  {
    seq(|s|, i requires 0 <= i < |s| => UpperChar(s[i]))
  }

  /** Lower-casing is idempotent, so comparing lower-cased strings is stable. */
  lemma LowerIdempotent(s: string)
    ensures Lower(Lower(s)) == Lower(s)
  {
    forall i | 0 <= i < |s| ensures Lower(Lower(s))[i] == Lower(s)[i] {
      var c := s[i];
      if 'A' <= c <= 'Z' {
        assert 'a' <= LowerChar(c) <= 'z';
      }
    }
  }

  // ---------------------------------------------------------------------------
  // Substring search (String.prototype.includes)

  predicate OccursAt(hay: string, needle: string, i: int) {
    0 <= i && i + |needle| <= |hay| && hay[i..i + |needle|] == needle
  }

  function Contains(hay: string, needle: string): (b: bool)
    ensures b <==> exists i :: OccursAt(hay, needle, i)
    decreases |hay|
  {
    if |needle| > |hay| then
      assert forall i :: !OccursAt(hay, needle, i);
      false
    else if hay[..|needle|] == needle then
      assert OccursAt(hay, needle, 0);
      true
    else
      var rest := Contains(hay[1..], needle);
      assert forall i :: OccursAt(hay[1..], needle, i) <==> OccursAt(hay, needle, i + 1) by {
        forall i ensures OccursAt(hay[1..], needle, i) <==> OccursAt(hay, needle, i + 1) {
          if 0 <= i && i + |needle| <= |hay[1..]| {
            assert hay[1..][i..i + |needle|] == hay[i + 1..i + 1 + |needle|];
          }
        }
      }
      assert rest ==> exists i :: OccursAt(hay, needle, i) by {
        if rest {
          var i :| OccursAt(hay[1..], needle, i);
          assert OccursAt(hay, needle, i + 1);
        }
      }
      assert (exists i :: OccursAt(hay, needle, i)) ==> rest by {
        if exists i :: OccursAt(hay, needle, i) {
          var i :| OccursAt(hay, needle, i);
          assert i != 0;
          assert OccursAt(hay[1..], needle, i - 1);
        }
      }
      rest
  }

  // ---------------------------------------------------------------------------
  // Split and join on a one-character separator (String.prototype.split,
  // Array.prototype.join)

  function Occurrences(s: string, c: char): (n: nat)
    ensures n <= |s|
  {
    if s == [] then 0 else (if s[0] == c then 1 else 0) + Occurrences(s[1..], c)
  }

  /** split(sep): every separator ends one part, empty parts included, so
      "" gives [""] and "a  b" gives ["a", "", "b"]. */
  function Split(s: string, sep: char): (parts: seq<string>)
    ensures |parts| == Occurrences(s, sep) + 1
    ensures forall k :: 0 <= k < |parts| ==> sep !in parts[k]
  {
    if s == [] then [""]
    else
      var rest := Split(s[1..], sep);
      if s[0] == sep then [""] + rest
      else [[s[0]] + rest[0]] + rest[1..]
  }

  function Join(parts: seq<string>, sep: char): string {
    if |parts| == 0 then ""
    else if |parts| == 1 then parts[0]
    else parts[0] + [sep] + Join(parts[1..], sep)
  }

  /** Joining the parts of a split with the same separator gives back the string. */
  lemma {:induction false} JoinSplit(s: string, sep: char)
    ensures Join(Split(s, sep), sep) == s
  {
    if s != [] {
      JoinSplit(s[1..], sep);
      var rest := Split(s[1..], sep);
      if s[0] == sep {
        assert Split(s, sep) == [""] + rest;
        assert ([""] + rest)[1..] == rest;
      } else {
        var parts := Split(s, sep);
        assert parts == [[s[0]] + rest[0]] + rest[1..];
        if |rest| == 1 {
          assert Join(rest, sep) == rest[0];
        } else {
          assert Join(rest, sep) == rest[0] + [sep] + Join(rest[1..], sep);
          assert parts[1..] == rest[1..];
        }
      }
    }
  }

  // ---------------------------------------------------------------------------
  // Digits: rendering in a radix (Number.prototype.toString(radix)) and reading back

  const DigitChars: string := "0123456789abcdef"

  function DigitValue(c: char): Option<nat> {
    if '0' <= c <= '9' then Some(c as int - '0' as int)
    else if 'a' <= c <= 'z' then Some(c as int - 'a' as int + 10)
    else if 'A' <= c <= 'Z' then Some(c as int - 'A' as int + 10)
    else None
  }

  predicate IsDigit(c: char, radix: nat) {
    DigitValue(c).Some? && DigitValue(c).value < radix
  }

  lemma DigitCharValue(d: nat)
    requires d < 16
    ensures DigitValue(DigitChars[d]) == Some(d)
  {
  }

  /** The digits of `n` in `radix`, most significant first, without leading
      zeros; 0 is "0". Hexadecimal digits are lower case. */
  function Digits(n: nat, radix: nat): (r: string)
    requires 2 <= radix <= 16
    ensures |r| >= 1
    ensures forall k :: 0 <= k < |r| ==> IsDigit(r[k], radix)
  {
    DigitCharValue(n % radix);
    if n < radix then [DigitChars[n]]
    else Digits(n / radix, radix) + [DigitChars[n % radix]]
  }

  /** The number that a string of radix digits denotes. */
  function DigitsValue(s: string, radix: nat): nat
    requires forall k :: 0 <= k < |s| ==> IsDigit(s[k], radix)
  {
    if s == [] then 0
    else
      assert IsDigit(s[|s| - 1], radix);
      var high := DigitsValue(s[..|s| - 1], radix);
      NatProduct(high, radix);
      high * radix + DigitValue(s[|s| - 1]).value
  }

  lemma NatProduct(a: nat, b: nat)
    ensures a * b >= 0
  {
  }

  lemma DivMod(n: nat, radix: nat)
    requires 2 <= radix
    ensures n == (n / radix) * radix + n % radix
    ensures n >= radix ==> n / radix < n
  {
    var q := n / radix;
    assert n == q * radix + n % radix;
    if n >= radix {
      assert q >= 1;
      assert q * radix >= q * 2;
    }
  }

  lemma {:induction false} DigitsRoundTrip(n: nat, radix: nat)
    requires 2 <= radix <= 16
    ensures DigitsValue(Digits(n, radix), radix) == n
    decreases n
  {
    var r := Digits(n, radix);
    DigitCharValue(n % radix);
    if n < radix {
      assert r == [DigitChars[n]];
      assert r[..0] == [];
      assert DigitsValue(r, radix) == DigitsValue([], radix) * radix + n;
    } else {
      var q, d := n / radix, n % radix;
      DivMod(n, radix);
      var front := Digits(q, radix);
      assert r == front + [DigitChars[d]];
      assert r[..|r| - 1] == front;
      assert r[|r| - 1] == DigitChars[d];
      DigitsRoundTrip(q, radix);
      assert DigitsValue(r, radix) == DigitsValue(front, radix) * radix + d;
      assert q * radix + d == n;
    }
  }

  function Pow(b: nat, k: nat): (p: nat)
    ensures b >= 1 ==> p >= 1
  {
    if k == 0 then 1 else b * Pow(b, k - 1)
  }

  /** A number below radix^k has at most k digits. */
  lemma {:induction false} DigitsLength(n: nat, radix: nat, k: nat)
    requires 2 <= radix <= 16 && k >= 1 && n < Pow(radix, k)
    ensures |Digits(n, radix)| <= k
    decreases k
  {
    if n >= radix {
      assert Pow(radix, 1) == radix;
      assert k >= 2;
      var q := n / radix;
      var p := Pow(radix, k - 1);
      assert Pow(radix, k) == radix * p;
      assert q * radix <= n;
      assert q * radix < p * radix;
      assert q < p;
      DigitsLength(q, radix, k - 1);
    }
  }

  /** A number of at least radix^(k-1) has at least k digits. */
  lemma {:induction false} DigitsLengthAtLeast(n: nat, radix: nat, k: nat)
    requires 2 <= radix <= 16 && k >= 1 && n >= Pow(radix, k - 1)
    ensures |Digits(n, radix)| >= k
    decreases k
  {
    if k >= 2 {
      var p := Pow(radix, k - 2);
      assert Pow(radix, k - 1) == radix * p;
      QuotientAtLeast(n, radix, p);
      DigitsLengthAtLeast(n / radix, radix, k - 1);
    }
  }

  lemma QuotientAtLeast(n: nat, radix: nat, p: nat)
    requires 2 <= radix && p >= 1 && n >= radix * p
    ensures n >= radix && n / radix >= p
  {
    var q := n / radix;
    DivMod(n, radix);
    assert q * radix > (p - 1) * radix;
    FactorOrder(q, p - 1, radix);
  }

  lemma FactorOrder(a: int, b: int, c: int)
    requires c > 0 && a * c > b * c
    ensures a > b
  {
    assert (a - b) * c == a * c - b * c;
  }

  /** Number.prototype.toString() for integers: decimal, with '-' for negatives. */
  function IntToString(n: int): (r: string)
    ensures |r| >= 1
    ensures n >= 0 ==> (forall k :: 0 <= k < |r| ==> IsDigit(r[k], 10)) && DigitsValue(r, 10) == n
    ensures n < 0 ==> r[0] == '-' && (forall k :: 1 <= k < |r| ==> IsDigit(r[k], 10))
    ensures n < 0 ==> DigitsValue(r[1..], 10) == -n
  {
    if n < 0 then
      DigitsRoundTrip(-n, 10);
      var r := "-" + Digits(-n, 10);
      assert r[1..] == Digits(-n, 10);
      r
    else
      DigitsRoundTrip(n, 10);
      Digits(n, 10)
  }

  /** Number.prototype.toString(16) for non-negative integers: hexadecimal
      digits that read back as `n`. */
  function ToHex(n: nat): (r: string)
    ensures |r| >= 1 && forall k :: 0 <= k < |r| ==> IsDigit(r[k], 16)
    ensures DigitsValue(r, 16) == n
  {
    DigitsRoundTrip(n, 16);
    Digits(n, 16)
  }

  // ---------------------------------------------------------------------------
  // parseInt(s) with no radix argument

  /** The characters parseInt skips in front (StrWhiteSpaceChar of ECMAScript):
      tab, vertical tab, form feed, no-break space, byte order mark, the
      space separators of Unicode category Zs, and the four line terminators. */
  predicate IsWhiteSpace(c: char) {
    c == '\t' || c == '\U{000B}' || c == '\U{000C}' || c == '\U{FEFF}'
    || c == '\n' || c == '\r' || c == '\U{2028}' || c == '\U{2029}'
    || c == ' ' || c == '\U{00A0}' || c == '\U{1680}' || '\U{2000}' <= c <= '\U{200A}'
    || c == '\U{202F}' || c == '\U{205F}' || c == '\U{3000}'
  }

  /** The text after the leading white space: a suffix of `s` that does not
      start with white space, everything before it being white space. */
  function TrimStart(s: string): (r: string)
    ensures |r| <= |s| && r == s[|s| - |r|..]
    ensures forall k :: 0 <= k < |s| - |r| ==> IsWhiteSpace(s[k])
    ensures r == [] || !IsWhiteSpace(r[0])
  {
    if s != [] && IsWhiteSpace(s[0]) then
      var r := TrimStart(s[1..]);
      assert s[1..][|s| - 1 - |r|..] == s[|s| - |r|..];
      r
    else s
  }

  /** The longest prefix of `s` made of radix digits. */
  function LeadingDigits(s: string, radix: nat): (r: string)
    ensures |r| <= |s| && r == s[..|r|]
    ensures forall k :: 0 <= k < |r| ==> IsDigit(r[k], radix)
    ensures |r| < |s| ==> !IsDigit(s[|r|], radix)
  {
    if s != [] && IsDigit(s[0], radix) then [s[0]] + LeadingDigits(s[1..], radix) else []
  }

  /** The unsigned part of parseInt: radix 16 after "0x" or "0X", radix 10
      otherwise, then as many digits as there are; no digit at all is NaN (None). */
  predicate HexPrefix(u: string) {
    |u| >= 2 && u[0] == '0' && (u[1] == 'x' || u[1] == 'X')
  }

  function ParseUnsigned(u: string): (r: Option<nat>)
    ensures u == [] ==> r.None?
    ensures u != [] && !IsDigit(u[0], 10) ==> r.None?
    ensures u != [] && IsDigit(u[0], 10) && !HexPrefix(u) ==> r.Some?
    ensures HexPrefix(u) ==> (r.Some? <==> |u| > 2 && IsDigit(u[2], 16))
  {
    var hex := HexPrefix(u);
    var radix := if hex then 16 else 10;
    var ds := LeadingDigits(if hex then u[2..] else u, radix);
    if ds == [] then None else Some(DigitsValue(ds, radix))
  }

  /** parseInt: skip leading white space, read an optional sign, then the
      unsigned part.  A text that starts (after the white space) with anything
      but a sign or a digit is NaN; a digit there always gives a number. */
  function ParseInt(s: string): (r: Option<int>)
    ensures var t := TrimStart(s); t == [] ==> r.None?
    ensures var t := TrimStart(s); t != [] && IsDigit(t[0], 10) && !HexPrefix(t) ==> r.Some? && r.value >= 0
    ensures var t := TrimStart(s); HexPrefix(t) ==> (r.Some? <==> |t| > 2 && IsDigit(t[2], 16))
    ensures var t := TrimStart(s); t != [] && t[0] == '-' && r.Some? ==> r.value <= 0
    ensures var t := TrimStart(s); t != [] && !IsDigit(t[0], 10) && t[0] != '-' && t[0] != '+' ==> r.None?
  {
    var t := TrimStart(s);
    var negative := t != [] && t[0] == '-';
    var u := if t != [] && (t[0] == '-' || t[0] == '+') then t[1..] else t;
    match ParseUnsigned(u)
    case None => None
    case Some(v) => Some(if negative then 0 - v else v)
  }

  /** parseInt(s, 10): as parseInt, but always in radix 10, so "0x1" reads as 0. */
  function ParseDecimal(s: string): (r: Option<int>)
    ensures var t := TrimStart(s); t == [] ==> r.None?
    ensures var t := TrimStart(s); t != [] && IsDigit(t[0], 10) ==> r.Some? && r.value >= 0
    ensures var t := TrimStart(s); t != [] && t[0] == '-' && r.Some? ==> r.value <= 0
    ensures var t := TrimStart(s); t != [] && !IsDigit(t[0], 10) && t[0] != '-' && t[0] != '+' ==> r.None?
  {
    var t := TrimStart(s);
    var negative := t != [] && t[0] == '-';
    var u := if t != [] && (t[0] == '-' || t[0] == '+') then t[1..] else t;
    match UnsignedDecimal(u)
    case None => None
    case Some(v) => Some(if negative then 0 - v else v)
  }

  function UnsignedDecimal(u: string): Option<nat> {
    var ds := LeadingDigits(u, 10);
    if ds == [] then None else Some(DigitsValue(ds, 10))
  }

  /** parseInt(s, 10) reads back the decimal rendering of a natural number. */
  lemma ParseDecimalDigits(m: nat)
    ensures ParseDecimal(Digits(m, 10)) == Some(m)
  {
    DecimalDigits(Digits(m, 10));
    DigitsRoundTrip(m, 10);
  }

  lemma DecimalDigits(ds: string)
    requires ds != [] && forall k :: 0 <= k < |ds| ==> IsDigit(ds[k], 10)
    ensures ParseDecimal(ds) == Some(DigitsValue(ds, 10))
  {
    DigitIsNoSign(ds[0]);
    assert TrimStart(ds) == ds;
    LeadingDigitsOfDigits(ds, 10);
    assert UnsignedDecimal(ds) == Some(DigitsValue(ds, 10));
  }

  lemma DigitIsNoSign(c: char)
    requires IsDigit(c, 10)
    ensures c != '-' && c != '+' && !IsWhiteSpace(c)
  {
  }

  lemma LeadingDigitsOfDigits(s: string, radix: nat)
    requires forall k :: 0 <= k < |s| ==> IsDigit(s[k], radix)
    ensures LeadingDigits(s, radix) == s
  {
    if s != [] {
      assert IsDigit(s[0], radix);
      LeadingDigitsOfDigits(s[1..], radix);
    }
  }

  /** A plain string of decimal digits is read in radix 10 as its value. */
  lemma ParseUnsignedDigits(m: nat)
    ensures ParseUnsigned(Digits(m, 10)) == Some(m)
  {
    DecimalUnsigned(Digits(m, 10));
    DigitsRoundTrip(m, 10);
  }

  /** A non-empty string of decimal digits is read in radix 10 as its value. */
  lemma DecimalUnsigned(ds: string)
    requires ds != [] && forall k :: 0 <= k < |ds| ==> IsDigit(ds[k], 10)
    ensures ParseUnsigned(ds) == Some(DigitsValue(ds, 10))
  {
    assert IsDigit(ds[0], 10);
    var hex := HexPrefix(ds);
    assert !hex by {
      if |ds| >= 2 {
        assert IsDigit(ds[1], 10);
      }
    }
    LeadingDigitsOfDigits(ds, 10);
  }

  lemma ParseIntDigits(m: nat)
    ensures ParseInt(Digits(m, 10)) == Some(m)
  {
    var ds := Digits(m, 10);
    ParseUnsignedDigits(m);
    SignFreeParse(ds);
  }

  /** Without white space or sign in front, parseInt is its unsigned part. */
  lemma SignFreeParse(s: string)
    requires s != [] && IsDigit(s[0], 10)
    ensures ParseInt(s) == match ParseUnsigned(s) case None => None case Some(v) => Some(v)
  {
    DigitIsNoSign(s[0]);
    var t := TrimStart(s);
    assert t == s;
    assert !(t[0] == '-' || t[0] == '+');
  }

  lemma ParseIntNegativeDigits(m: nat)
    requires m > 0
    ensures ParseInt("-" + Digits(m, 10)) == Some(0 - m)
  {
    var ds := Digits(m, 10);
    var s := "-" + ds;
    assert TrimStart(s) == s;
    assert s[0] == '-';
    assert s[1..] == ds;
    ParseUnsignedDigits(m);
  }

  /** parseInt reads back every integer that toString renders. */
  lemma ParseIntToString(n: int)
    ensures ParseInt(IntToString(n)) == Some(n)
  {
    var m: nat := if n < 0 then -n else n;
    var ds := Digits(m, 10);
    var s := IntToString(n);
    if n < 0 {
      assert s == "-" + ds;
      ParseIntNegativeDigits(m);
    } else {
      assert s == ds;
      ParseIntDigits(m);
    }
  }

  // ---------------------------------------------------------------------------
  // padStart with a one-character filler

  function Repeat(c: char, n: nat): (r: string)
    ensures |r| == n && forall k :: 0 <= k < n ==> r[k] == c
  {
    if n == 0 then [] else [c] + Repeat(c, n - 1)
  }

  function PadStart(s: string, width: nat, fill: char): (r: string)
    ensures |s| >= width ==> r == s
    ensures |s| < width ==> |r| == width && r[width - |s|..] == s
    ensures |s| < width ==> forall k :: 0 <= k < width - |s| ==> r[k] == fill
  {
    if |s| >= width then s else Repeat(fill, width - |s|) + s
  }

  // ---------------------------------------------------------------------------
  // Code-unit (lexicographic) ordering of strings

  predicate StrLe(a: string, b: string) {
    if a == [] then true
    else if b == [] then false
    else if a[0] != b[0] then a[0] < b[0]
    else StrLe(a[1..], b[1..])
  }

  lemma {:induction false} StrLeTotal(a: string, b: string)
    ensures StrLe(a, b) || StrLe(b, a)
  {
    if a != [] && b != [] && a[0] == b[0] {
      StrLeTotal(a[1..], b[1..]);
    }
  }

  lemma {:induction false} StrLeTransitive(a: string, b: string, c: string)
    requires StrLe(a, b) && StrLe(b, c)
    ensures StrLe(a, c)
  {
    if a != [] && b != [] && c != [] && a[0] == b[0] && b[0] == c[0] {
      StrLeTransitive(a[1..], b[1..], c[1..]);
    }
  }

  lemma {:induction false} StrLeAntisymmetric(a: string, b: string)
    requires StrLe(a, b) && StrLe(b, a)
    ensures a == b
  {
    if a != [] && b != [] {
      StrLeAntisymmetric(a[1..], b[1..]);
    }
  }
}
