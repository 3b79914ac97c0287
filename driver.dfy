/** How a value of an insert or an update reaches a column: node-postgres
    sends every non-null parameter as text (`val.toString()`), and Postgres
    reads that text with the input function of the column's type (text is
    stored as it is, int4 and boolean are parsed). */
module Driver {
  import opened Wrappers
  import opened Text
  import opened Schema

  // ---------------------------------------------------------------------------
  // The parameter text

  /** The text node-postgres sends for a non-null value: a string as it is, a
      boolean as "true" or "false", an integer in decimal.  Dates, arrays and
      objects are not rendered here (None). */
  function ParamText(v: Value): (r: Option<string>)
    ensures v.Str? ==> r == Some(v.s)
    ensures v.Bool? ==> r == Some(if v.b then "true" else "false")
    ensures v.Num? ==> r.Some? && ParseInt(r.value) == Some(v.n)
    ensures v.Null? || v.DateObj? || v.Other? ==> r.None?
  {
    match v
    case Str(s) => Some(s)
    case Bool(b) => Some(if b then "true" else "false")
    case Num(n) =>
      ParseIntToString(n);
      Some(IntToString(n))
    case _ => None
  }

  // ---------------------------------------------------------------------------
  // Postgres input functions

  /** isspace in the C locale. */
  predicate IsCSpace(c: char) {
    c == ' ' || c == '\t' || c == '\n' || c == '\r' || c == '\U{000B}' || c == '\U{000C}'
  }

  /** The text without its leading and trailing C white space. */
  function TrimCSpace(s: string): (r: string)
    ensures r == [] || (!IsCSpace(r[0]) && !IsCSpace(r[|r| - 1]))
    ensures forall c :: c in r ==> c in s
    decreases |s|
  {
    if s == [] then []
    else if IsCSpace(s[0]) then TrimCSpace(s[1..])
    else if IsCSpace(s[|s| - 1]) then TrimCSpace(s[..|s| - 1])
    else s
  }

  const Int4Min: int := -0x8000_0000
  const Int4Max: int := 0x7fff_ffff

  predicate AllDigits(u: string) {
    forall k :: 0 <= k < |u| ==> IsDigit(u[k], 10)
  }

  /** int4in: optional white space, an optional sign, one or more decimal
      digits and optional white space, giving a value of 32 bits; anything
      else is refused. */
  function Int4In(s: string): (r: Option<int>)
    ensures r.Some? ==> Int4Min <= r.value <= Int4Max
    ensures TrimCSpace(s) == [] ==> r.None?
  {
    var t := TrimCSpace(s);
    var negative := t != [] && t[0] == '-';
    var u := if t != [] && (t[0] == '-' || t[0] == '+') then t[1..] else t;
    if u == [] || !AllDigits(u) then None
    else
      var v := if negative then 0 - DigitsValue(u, 10) else DigitsValue(u, 10);
      if Int4Min <= v <= Int4Max then Some(v) else None
  }

  /** `t` is a non-empty prefix of `word`, ignoring the case of ASCII letters. */
  predicate AbbreviatesWord(t: string, word: string) {
    t != [] && |t| <= |word| && Lower(t) == word[..|t|]
  }

  /** boolin: after trimming white space, a non-empty prefix of "true" or
      "yes", or "on" or "1", is true; a non-empty prefix of "false" or "no",
      or "of", "off" or "0", is false; case is ignored. */
  function BoolIn(s: string): (r: Option<bool>)
    ensures r == Some(true) <==>
      var t := TrimCSpace(s);
      AbbreviatesWord(t, "true") || AbbreviatesWord(t, "yes") || Lower(t) == "on" || t == "1"
    ensures r == Some(false) <==>
      var t := TrimCSpace(s);
      AbbreviatesWord(t, "false") || AbbreviatesWord(t, "no") || Lower(t) == "of" || Lower(t) == "off" || t == "0"
  {
    var t := TrimCSpace(s);
    var yes := AbbreviatesWord(t, "true") || AbbreviatesWord(t, "yes") || Lower(t) == "on" || t == "1";
    var no := AbbreviatesWord(t, "false") || AbbreviatesWord(t, "no") || Lower(t) == "of" || Lower(t) == "off" || t == "0";
    assert !(yes && no) by {
      if t != [] {
        assert Lower(t)[0] == LowerChar(t[0]);
      }
    }
    if yes then Some(true) else if no then Some(false) else None
  }

  // ---------------------------------------------------------------------------
  // What a column stores for a value

  /** An integer column: the parameter text read as an int4.  A number is
      stored when it fits in 32 bits, a decimal string is converted, and a
      boolean ("true", "false") is refused. */
  function IntColumn(v: Value): (r: Option<int>)
    ensures r.Some? ==> Int4Min <= r.value <= Int4Max
    ensures v.Num? ==> (r.Some? <==> Int4Min <= v.n <= Int4Max) && (r.Some? ==> r.value == v.n)
    ensures v.Str? ==> r == Int4In(v.s)
    ensures v.Bool? ==> r.None?
  {
    match v
    case Num(n) =>
      Int4OfDecimal(n);
      Int4In(ParamText(v).value)
    case Bool(_) =>
      BoolTextIsNotInt();
      Int4In(ParamText(v).value)
    case Str(text) => Int4In(text)
    case _ => None
  }

  /** A boolean column: the parameter text read as a boolean.  A boolean is
      stored as it is, the numbers 1 and 0 become true and false, a string is
      read by boolin, and any other number is refused. */
  function BoolColumn(v: Value): (r: Option<bool>)
    ensures v.Bool? ==> r == Some(v.b)
    ensures v.Num? ==> (r.Some? <==> v.n == 0 || v.n == 1) && (r.Some? ==> (r.value <==> v.n == 1))
    ensures v.Str? ==> r == BoolIn(v.s)
  {
    match v
    case Num(n) =>
      NumberAsBool(n);
      BoolIn(ParamText(v).value)
    case Bool(_) =>
      BoolTextIsBool();
      BoolIn(ParamText(v).value)
    case Str(text) => BoolIn(text)
    case _ => None
  }

  /** A text that starts and ends with something other than white space is its own trim. */
  lemma TrimUntouched(s: string)
    requires s != [] && !IsCSpace(s[0]) && !IsCSpace(s[|s| - 1])
    ensures TrimCSpace(s) == s
  {
  }

  lemma DecimalIsTrimmed(n: int)
    ensures TrimCSpace(IntToString(n)) == IntToString(n)
    ensures IntToString(n)[0] == '-' || IsDigit(IntToString(n)[0], 10)
  {
    var m: nat := if n < 0 then -n else n;
    var ds := Digits(m, 10);
    var s := IntToString(n);
    assert s[|s| - 1] == ds[|ds| - 1];
    assert IsDigit(ds[|ds| - 1], 10);
    if n >= 0 {
      assert IsDigit(ds[0], 10);
    }
    TrimUntouched(s);
  }

  /** int4in reads back the decimal rendering of every 32-bit integer, and
      refuses it for every other integer. */
  lemma Int4OfDecimal(n: int)
    ensures Int4In(IntToString(n)) == if Int4Min <= n <= Int4Max then Some(n) else None
  {
    DecimalIsTrimmed(n);
    var m: nat := if n < 0 then -n else n;
    var ds := Digits(m, 10);
    DigitsRoundTrip(m, 10);
    var s := IntToString(n);
    if n < 0 {
      assert s[0] == '-' && s[1..] == ds;
    } else {
      assert s == ds;
      assert IsDigit(ds[0], 10);
    }
  }

  lemma BoolTextIsNotInt()
    ensures Int4In("true") == None && Int4In("false") == None
  {
    TrimUntouched("true");
    TrimUntouched("false");
    assert !IsDigit('t', 10) && !IsDigit('f', 10);
  }

  lemma BoolTextIsBool()
    ensures BoolIn("true") == Some(true) && BoolIn("false") == Some(false)
  {
    TrimUntouched("true");
    TrimUntouched("false");
    assert Lower("true") == "true";
    assert Lower("false") == "false";
    assert Lower("true") != "on" && Lower("false") != "of" && Lower("false") != "off";
  }

  /** boolin reads the decimal rendering of 1 as true, of 0 as false, and
      refuses that of any other integer. */
  lemma NumberAsBool(n: int)
    ensures BoolIn(IntToString(n)) == if n == 1 then Some(true) else if n == 0 then Some(false) else None
  {
    DecimalIsTrimmed(n);
    var t := IntToString(n);
    NotAbbreviation(t, "true");
    NotAbbreviation(t, "yes");
    NotAbbreviation(t, "on");
    NotAbbreviation(t, "false");
    NotAbbreviation(t, "no");
    NotAbbreviation(t, "of");
    NotAbbreviation(t, "off");
    OneAndZero(n);
  }

  /** A text that starts with a sign or a digit abbreviates no word that starts
      with a letter. */
  lemma NotAbbreviation(t: string, w: string)
    requires t != [] && (t[0] == '-' || IsDigit(t[0], 10))
    requires w != [] && 'a' <= w[0] <= 'z'
    ensures !AbbreviatesWord(t, w) && Lower(t) != w
  {
    assert Lower(t)[0] == LowerChar(t[0]) == t[0];
  }

  lemma OneAndZero(n: int)
    ensures IntToString(n) == "1" <==> n == 1
    ensures IntToString(n) == "0" <==> n == 0
  {
    SingleDigit(0);
    SingleDigit(1);
    if IntToString(n) == "1" || IntToString(n) == "0" {
      ParseIntToString(n);
      ParseIntToString(0);
      ParseIntToString(1);
    }
  }

  lemma SingleDigit(d: nat)
    requires d < 10
    ensures IntToString(d) == [DigitChars[d]]
  {
  }

  /** Strings the integer column converts, and numbers it refuses. */
  lemma IntCoercions()
    ensures IntColumn(Str("5")) == Some(5)
    ensures IntColumn(Str(" -12 ")) == Some(-12)
    ensures IntColumn(Str("5x")) == None
    ensures IntColumn(Num(0x8000_0000)) == None
  {
    TrimUntouched("5");
    assert TrimCSpace(" -12 ") == "-12";
    TrimUntouched("5x");
    assert DigitsValue("5", 10) == 5;
    assert DigitsValue("12", 10) == 12 by {
      assert "12"[..1] == "1";
    }
  }

  /** Strings the boolean column reads as booleans, and one it refuses. */
  lemma BoolCoercions()
    ensures BoolColumn(Str("t")) == Some(true)
    ensures BoolColumn(Str("No")) == Some(false)
    ensures BoolColumn(Str("o")) == None
  {
    TrimUntouched("t");
    assert Lower("t") == "t";
    TrimUntouched("No");
    assert Lower("No") == "no";
    TrimUntouched("o");
    assert Lower("o") == "o";
  }
}
