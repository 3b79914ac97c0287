/** Category colours: the "#rrggbb" rule of the category form and the colours
    generated for a category that comes without one. */
module Colours {
  import opened Text

  /** "#" followed by exactly six hexadecimal digits, in either case. */
  predicate IsHexColour(s: string) {
    |s| == 7 && s[0] == '#' && forall k :: 1 <= k < 7 ==> IsDigit(s[k], 16)
  }

  /** Math.floor(Math.random() * 16777215) lies in [0, ColourRange). */
  const ColourRange: nat := 16777215

  /** "#" + n.toString(16).padStart(6, '0'): the hex digits of n, padded with
      zeros on the left to six. */
  function RandomColour(n: nat): (c: string)
    requires n < ColourRange
    ensures IsHexColour(c)
    ensures |ToHex(n)| <= 6
    ensures c[7 - |ToHex(n)|..] == ToHex(n)
    ensures forall k :: 1 <= k < 7 - |ToHex(n)| ==> c[k] == '0'
  {
    assert Pow(16, 6) == 16777216;
    DigitsLength(n, 16, 6);
    "#" + PadStart(ToHex(n), 6, '0')
  }

  /** "#" + n.toString(16), without the padding. */
  function RandomColourAsWritten(n: nat): (c: string)
    ensures |c| >= 2 && c[0] == '#'
    ensures forall k :: 1 <= k < |c| ==> IsDigit(c[k], 16)
    ensures DigitsValue(c[1..], 16) == n
  {
    var c := "#" + ToHex(n);
    assert c[1..] == ToHex(n);
    c
  }

  /** Without the padding the colour satisfies the colour rule only for
      n >= 0x100000, that is for one generated value in sixteen. */
  lemma RandomColourAsWrittenValid(n: nat)
    requires n < ColourRange
    ensures IsHexColour(RandomColourAsWritten(n)) <==> n >= 0x100000
  {
    assert Pow(16, 5) == 0x100000;
    assert Pow(16, 6) == 16777216;
    DigitsLength(n, 16, 6);
    if n >= 0x100000 {
      DigitsLengthAtLeast(n, 16, 6);
      var c := RandomColourAsWritten(n);
      assert forall k :: 1 <= k < 7 ==> c[k] == ToHex(n)[k - 1];
    } else {
      DigitsLength(n, 16, 5);
    }
  }

  /** 255 gives "#ff", which the colour rule refuses. */
  lemma RandomColourAsWrittenShort()
    ensures RandomColourAsWritten(255) == "#ff"
    ensures !IsHexColour(RandomColourAsWritten(255))
  {
    assert Digits(255, 16) == Digits(15, 16) + [DigitChars[15]];
  }
}
