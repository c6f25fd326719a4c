/** UTF-8 as Go decodes it. A string stands for its bytes, one char a byte. */
module Utf8 {
  const RUNE_ERROR := 0xFFFD

  predicate Within(c: char, lo: int, hi: int) {
    lo <= c as int <= hi
  }

  /** The bytes that may follow the first byte c of a longer encoding (Unicode Standard, table 3-7). */
  predicate Second(c: char, d: char) {
    var b := c as int;
    Within(d, if b == 0xE0 then 0xA0 else if b == 0xF0 then 0x90 else 0x80,
              if b == 0xED then 0x9F else if b == 0xF4 then 0x8F else 0xBF)
  }

  predicate Trailing(c: char) {
    Within(c, 0x80, 0xBF)
  }

  /** The length of the encoding at the front of s; 0 if there is none. */
  function RuneLength(s: string): (n: nat)
    requires s != ""
    ensures n <= |s| && n <= 4
  {
    if Within(s[0], 0, 0x7F) then 1
    else if |s| >= 2 && Within(s[0], 0xC2, 0xDF) && Trailing(s[1]) then 2
    else if |s| >= 3 && Within(s[0], 0xE0, 0xEF) && Second(s[0], s[1]) && Trailing(s[2]) then 3
    else if |s| >= 4 && Within(s[0], 0xF0, 0xF4) && Second(s[0], s[1]) && Trailing(s[2]) && Trailing(s[3]) then 4
    else 0
  }

  /** utf8.DecodeRuneInString: the first rune and its width, or the error rune of width 1. */
  function DecodeRune(s: string): (r: (nat, nat))
    requires s != ""
    ensures 1 <= r.1 <= |s|
  {
    match RuneLength(s)
    case 0 => (RUNE_ERROR, 1)
    case 1 => (s[0] as int, 1)
    case 2 => ((s[0] as int - 0xC0) * 0x40 + (s[1] as int - 0x80), 2)
    case 3 => ((s[0] as int - 0xE0) * 0x1000 + (s[1] as int - 0x80) * 0x40 + (s[2] as int - 0x80), 3)
    case _ => ((s[0] as int - 0xF0) * 0x4_0000 + (s[1] as int - 0x80) * 0x1000
               + (s[2] as int - 0x80) * 0x40 + (s[3] as int - 0x80), 4)
  }

  /** The encoding of a code point (Unicode Standard, table 3-6). */
  function EncodeRune(r: nat): string
    requires r < 0x11_0000
  {
    if r < 0x80 then [r as char]
    else if r < 0x800 then [(0xC0 + r / 0x40) as char, (0x80 + r % 0x40) as char]
    else if r < 0x1_0000 then
      [(0xE0 + r / 0x1000) as char, (0x80 + r / 0x40 % 0x40) as char, (0x80 + r % 0x40) as char]
    else
      [(0xF0 + r / 0x4_0000) as char, (0x80 + r / 0x1000 % 0x40) as char,
       (0x80 + r / 0x40 % 0x40) as char, (0x80 + r % 0x40) as char]
  }

  /** No byte of a longer encoding is an ASCII byte. */
  lemma {:induction false} LongRunesAreNotAscii(s: string, i: nat)
    requires s != "" && i < DecodeRune(s).1
    requires DecodeRune(s).0 >= 0x80 || s[0] as int >= 0x80
    ensures s[i] as int >= 0x80
  {
  }

  /** A rune is an ASCII character exactly if the byte is. */
  lemma {:induction false} AsciiRune(s: string)
    requires s != ""
    ensures DecodeRune(s).0 < 0x80 <==> s[0] as int < 0x80
    ensures s[0] as int < 0x80 ==> DecodeRune(s) == (s[0] as int, 1)
  {
  }

  /** A scalar value: a code point that is not a surrogate. */
  type Rune = r: nat | r < 0xD800 || 0xE000 <= r < 0x11_0000

  lemma {:induction false} TwoDigits(r: nat)
    ensures r / 0x40 * 0x40 + r % 0x40 == r
  {
  }

  lemma {:induction false} ThreeDigits(r: nat)
    ensures r / 0x1000 * 0x1000 + r / 0x40 % 0x40 * 0x40 + r % 0x40 == r
  {
    assert r / 0x40 / 0x40 == r / 0x1000;
  }

  lemma {:induction false} FourDigits(r: nat)
    ensures r / 0x4_0000 * 0x4_0000 + r / 0x1000 % 0x40 * 0x1000 + r / 0x40 % 0x40 * 0x40 + r % 0x40 == r
  {
    ThreeDigits(r);
    assert r / 0x1000 / 0x40 == r / 0x4_0000;
  }

  /** The encoding of every scalar value is recognised and decoded, whatever follows. */
  lemma {:induction false} EncodedIsDecoded(r: Rune, t: string)
    ensures RuneLength(EncodeRune(r) + t) == |EncodeRune(r)|
    ensures DecodeRune(EncodeRune(r) + t) == (r, |EncodeRune(r)|)
  {
    var e := EncodeRune(r);
    var s := e + t;
    assert forall i :: 0 <= i < |e| ==> s[i] == e[i];
    if r < 0x80 {
    } else if r < 0x800 {
      TwoDigits(r);
    } else if r < 0x1_0000 {
      ThreeDigits(r);
    } else {
      FourDigits(r);
    }
  }

  lemma {:induction false} LowDigit(h: nat, l: nat)
    requires l < 0x40
    ensures (h * 0x40 + l) / 0x40 == h && (h * 0x40 + l) % 0x40 == l
  {
  }

  lemma {:induction false} DigitsOf3(a: nat, b: nat, c: nat)
    requires b < 0x40 && c < 0x40
    ensures
      var r := a * 0x1000 + b * 0x40 + c;
      r / 0x1000 == a && r / 0x40 % 0x40 == b && r % 0x40 == c
  {
    LowDigit(a * 0x40 + b, c);
    LowDigit(a, b);
    assert (a * 0x1000 + b * 0x40 + c) / 0x40 / 0x40 == (a * 0x1000 + b * 0x40 + c) / 0x1000;
  }

  lemma {:induction false} DigitsOf4(a: nat, b: nat, c: nat, d: nat)
    requires b < 0x40 && c < 0x40 && d < 0x40
    ensures
      var r := a * 0x4_0000 + b * 0x1000 + c * 0x40 + d;
      r / 0x4_0000 == a && r / 0x1000 % 0x40 == b && r / 0x40 % 0x40 == c && r % 0x40 == d
  {
    DigitsOf3(a * 0x40 + b, c, d);
    LowDigit(a, b);
    var r := a * 0x4_0000 + b * 0x1000 + c * 0x40 + d;
    assert r / 0x1000 / 0x40 == r / 0x4_0000;
  }

  /** Nothing else is: what is recognised is the encoding of the scalar value it decodes to. */
  lemma {:induction false} DecodedIsEncoded(s: string)
    requires s != "" && RuneLength(s) > 0
    ensures var r := DecodeRune(s).0; r < 0xD800 || 0xE000 <= r < 0x11_0000
    ensures s[..RuneLength(s)] == EncodeRune(DecodeRune(s).0)
  {
    var n := RuneLength(s);
    if n == 2 {
      LowDigit(s[0] as int - 0xC0, s[1] as int - 0x80);
    } else if n == 3 {
      DigitsOf3(s[0] as int - 0xE0, s[1] as int - 0x80, s[2] as int - 0x80);
    } else if n == 4 {
      DigitsOf4(s[0] as int - 0xF0, s[1] as int - 0x80, s[2] as int - 0x80, s[3] as int - 0x80);
    }
  }

  /** A rune is recognised exactly if some encoding stands at the front. */
  lemma {:induction false} RecognisedExactly(s: string)
    requires s != ""
    ensures RuneLength(s) > 0 <==> exists r: Rune :: EncodeRune(r) <= s
  {
    hide EncodeRune, RuneLength, DecodeRune;
    if RuneLength(s) > 0 {
      DecodedIsEncoded(s);
      assert EncodeRune(DecodeRune(s).0) <= s;
    }
    if r: Rune :| EncodeRune(r) <= s {
      var n := |EncodeRune(r)|;
      EncodedIsDecoded(r, s[n..]);
      assert EncodeRune(r) + s[n..] == s;
      EncodedNotEmpty(r);
    }
  }

  lemma {:induction false} EncodedNotEmpty(r: Rune)
    ensures EncodeRune(r) != ""
  {
  }
}
