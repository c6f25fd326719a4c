/** The JSON string quoter, and string literals as section 7 of RFC 8259 defines them. */
module QuoteJson {
  import opened GoTypes
  import opened Utf8

  const HEX: string := "0123456789abcdef"

  /** U+FFFD, encoded. */
  const REPLACEMENT: string := [0xEF as char, 0xBF as char, 0xBD as char]

  function Width(s: string): nat
    requires s != ""
  {
    DecodeRune(s).1
  }

  /** Whether s is UTF-8 throughout. */
  predicate ValidUtf8(s: string) {
    s != "" ==> RuneLength(s) > 0 && ValidUtf8(s[Width(s)..])
  }

  /** s with every byte that begins no valid encoding replaced by U+FFFD. */
  function Sanitized(s: string): string {
    if s == "" then ""
    else (if RuneLength(s) == 0 then REPLACEMENT else s[..Width(s)]) + Sanitized(s[Width(s)..])
  }

  // Literals.

  function HexDigit(c: char): (r: int)
    ensures -1 <= r < 16
  {
    if '0' <= c <= '9' then c as int - '0' as int
    else if 'a' <= c <= 'f' then c as int - 'a' as int + 10
    else if 'A' <= c <= 'F' then c as int - 'A' as int + 10
    else -1
  }

  /** The code unit written as \uXXXX at the front of t. */
  function UnicodeEscape(t: string): (r: Option<nat>)
    ensures r.Some? ==> |t| >= 6 && r.value < 0x1_0000
  {
    if |t| >= 6 && t[0] == '\\' && t[1] == 'u' && (forall i :: 2 <= i < 6 ==> HexDigit(t[i]) >= 0) then
      Some(((HexDigit(t[2]) * 16 + HexDigit(t[3])) * 16 + HexDigit(t[4])) * 16 + HexDigit(t[5]))
    else None
  }

  function ShortEscape(c: char): Option<char> {
    if c in {'"', '\\', '/'} then Some(c)
    else if c == 'b' then Some(8 as char)
    else if c == 'f' then Some(12 as char)
    else if c == 'n' then Some('\n')
    else if c == 'r' then Some('\r')
    else if c == 't' then Some('\t')
    else None
  }

  function Prepend(a: string, r: Option<string>): Option<string> {
    match r
    case None => None
    case Some(b) => Some(a + b)
  }

  /** The string that a literal denotes, from behind its opening quote; None if it is not a literal. */
  function DecodeBody(t: string): Option<string>
    decreases |t|
  {
    if t == "" then None
    else if t[0] == '"' then if |t| == 1 then Some("") else None
    else if t[0] == '\\' then
      if |t| >= 2 && ShortEscape(t[1]).Some? then Prepend([ShortEscape(t[1]).value], DecodeBody(t[2..]))
      else
        match UnicodeEscape(t)
        case None => None
        case Some(u) =>
          if u < 0xD800 || u >= 0xE000 then Prepend(EncodeRune(u), DecodeBody(t[6..]))
          else
            match UnicodeEscape(t[6..])
            case None => None
            case Some(v) =>
              if u < 0xDC00 && 0xDC00 <= v < 0xE000 then
                Prepend(EncodeRune(0x1_0000 + (u - 0xD800) * 0x400 + (v - 0xDC00)), DecodeBody(t[12..]))
              else None
    else if t[0] as int < 0x20 || RuneLength(t) == 0 then None
    else Prepend(t[..Width(t)], DecodeBody(t[Width(t)..]))
  }

  function DecodeLiteral(q: string): Option<string> {
    if q != "" && q[0] == '"' then DecodeBody(q[1..]) else None
  }

  // Quoting.

  /** What the first rune of s is written as. */
  function Piece(s: string): string
    requires s != ""
  {
    var c := s[0];
    if 0x20 <= c as int <= 0x7f && c != '\\' && c != '"' then [c]
    else if c == '\\' || c == '"' then ['\\', c]
    else if c == '\n' then "\\n"
    else if c == '\r' then "\\r"
    else if c == '\t' then "\\t"
    else if c as int < 0x20 then "\\u00" + [HEX[c as int / 16], HEX[c as int % 16]]
    else if RuneLength(s) == 0 then "\\ufffd"
    else if DecodeRune(s).0 in {0x2028, 0x2029} then "\\u202" + [HEX[DecodeRune(s).0 % 16]]
    else s[..Width(s)]
  }

  function Body(s: string): string {
    if s == "" then "" else Piece(s) + Body(s[Width(s)..])
  }

  /** The runes before j are copied or escaped, the last ones of them still pending in s[i..j]. */
  method QuoteJSON(s: string) returns (r: string)
    ensures r == "\"" + Body(s) + "\""
  {
    hide Body, Piece, DecodeRune, RuneLength;
    var i, j := 0, 0;
    var b := "\"";
    assert s[0..] == s;
    while j < |s|
      invariant 0 <= i <= j <= |s|
      invariant b + s[i..j] + Body(s[j..]) == "\"" + Body(s)
    {
      var c := s[j];
      BodyStep(s[j..]);
      if 0x20 <= c as int <= 0x7f && c != '\\' && c != '"' {
        RawPiece(s[j..]);
        Advance(s, i, j, b, 1);
        j := j + 1;
        continue;
      }
      if c in {'\\', '"', '\n', '\r', '\t'} {
        var escape := if c == '\n' then 'n' else if c == '\r' then 'r' else if c == '\t' then 't' else c;
        EscapedPiece(s[j..], escape);
        Flush(s, i, j, b, ['\\', escape], 1);
        b := b + s[i..j];
        b := b + ['\\', escape];
        j := j + 1;
        i := j;
        continue;
      }
      if c as int < 0x20 {
        ControlPiece(s[j..]);
        Flush(s, i, j, b, "\\u00" + [HEX[c as int / 16], HEX[c as int % 16]], 1);
        b := b + s[i..j];
        b := b + ("\\u00" + [HEX[c as int / 16], HEX[c as int % 16]]);
        j := j + 1;
        i := j;
        continue;
      }
      var (rune, size) := DecodeRune(s[j..]);
      LongPiece(s[j..]);
      if rune == RUNE_ERROR && size == 1 {
        Flush(s, i, j, b, "\\ufffd", size);
        b := b + s[i..j];
        b := b + "\\ufffd";
        j := j + size;
        i := j;
        continue;
      }
      if rune == 0x2028 || rune == 0x2029 {
        Flush(s, i, j, b, "\\u202" + [HEX[rune % 16]], size);
        b := b + s[i..j];
        b := b + ("\\u202" + [HEX[rune % 16]]);
        j := j + size;
        i := j;
        continue;
      }
      Advance(s, i, j, b, size);
      j := j + size;
    }
    BodyStep(s[j..]);
    b := b + s[i..];
    b := b + "\"";
    assert s[i..j] == s[i..];
    r := b;
  }

  lemma {:induction false} BodyStep(s: string)
    ensures s == "" ==> Body(s) == ""
    ensures s != "" ==> Body(s) == Piece(s) + Body(s[Width(s)..])
  {
    hide Piece;
  }

  lemma {:induction false} RawPiece(s: string)
    requires s != "" && 0x20 <= s[0] as int <= 0x7f && s[0] != '\\' && s[0] != '"'
    ensures Piece(s) == s[..1] && Width(s) == 1
  {
  }

  lemma {:induction false} EscapedPiece(s: string, escape: char)
    requires s != "" && s[0] in {'\\', '"', '\n', '\r', '\t'}
    requires escape == if s[0] == '\n' then 'n' else if s[0] == '\r' then 'r' else if s[0] == '\t' then 't' else s[0]
    ensures Piece(s) == ['\\', escape] && Width(s) == 1
  {
  }

  lemma {:induction false} ControlPiece(s: string)
    requires s != "" && s[0] as int < 0x20 && s[0] !in {'\n', '\r', '\t'}
    ensures Piece(s) == "\\u00" + [HEX[s[0] as int / 16], HEX[s[0] as int % 16]] && Width(s) == 1
  {
  }

  lemma {:induction false} LongPiece(s: string)
    requires s != "" && s[0] as int > 0x7f
    ensures
      var (rune, size) := DecodeRune(s);
      Piece(s) == if rune == RUNE_ERROR && size == 1 then "\\ufffd"
                  else if rune == 0x2028 || rune == 0x2029 then "\\u202" + [HEX[rune % 16]]
                  else s[..size]
  {
  }

  /** A rune that is copied stays pending. */
  lemma {:induction false} Advance(s: string, i: nat, j: nat, b: string, n: nat)
    requires i <= j <= j + n <= |s|
    ensures b + s[i..j] + (s[j..][..n] + Body(s[j..][n..])) == b + s[i..j + n] + Body(s[j + n..])
  {
    hide Body;
    assert s[i..j] + s[j..][..n] == s[i..j + n] && s[j..][n..] == s[j + n..];
  }

  /** The pending runes and then an escape; nothing is pending behind it. */
  lemma {:induction false} Flush(s: string, i: nat, j: nat, b: string, piece: string, n: nat)
    requires i <= j <= j + n <= |s|
    ensures b + s[i..j] + (piece + Body(s[j..][n..])) == b + s[i..j] + piece + s[j + n..j + n] + Body(s[j + n..])
  {
    hide Body;
    assert s[j..][n..] == s[j + n..];
  }

  // Decoding what was quoted.

  lemma {:induction false} UnicodeStep(t: string, escape: string, u: nat, rest: string)
    requires t == escape + rest && |escape| == 6
    requires UnicodeEscape(escape) == Some(u) && (u < 0xD800 || u >= 0xE000)
    ensures DecodeBody(t) == Prepend(EncodeRune(u), DecodeBody(rest))
  {
    hide EncodeRune, HexDigit;
    assert forall i :: 0 <= i < 6 ==> t[i] == escape[i];
    assert UnicodeEscape(t) == Some(u) && t[6..] == rest;
  }

  lemma {:induction false} ShortStep(t: string, escape: char, c: char, rest: string)
    requires t == ['\\', escape] + rest && ShortEscape(escape) == Some(c)
    ensures DecodeBody(t) == Prepend([c], DecodeBody(rest))
  {
    hide UnicodeEscape, EncodeRune;
    assert t[2..] == rest;
  }

  lemma {:induction false} RuneStep(t: string, rune: string, rest: string)
    requires t == rune + rest && rune != "" && RuneLength(rune) == |rune|
    requires rune[0] as int >= 0x20 && rune[0] !in {'\\', '"'}
    ensures DecodeBody(t) == Prepend(rune, DecodeBody(rest))
  {
    hide UnicodeEscape, EncodeRune;
    assert forall i :: 0 <= i < |rune| ==> t[i] == rune[i];
    assert RuneLength(t) == |rune|;
    assert t[..|rune|] == rune && t[|rune|..] == rest;
  }

  /** One piece decodes to one rune, whatever follows. */
  lemma {:induction false} PieceDecodes(s: string, u: string)
    requires s != ""
    ensures DecodeBody(Piece(s) + u)
         == Prepend(if RuneLength(s) == 0 then REPLACEMENT else s[..Width(s)], DecodeBody(u))
  {
    hide DecodeBody, Prepend;
    var c := s[0];
    var t := Piece(s) + u;
    if c in {'\\', '"', '\n', '\r', '\t'} {
      var escape := if c == '\n' then 'n' else if c == '\r' then 'r' else if c == '\t' then 't' else c;
      EscapedPiece(s, escape);
      ShortStep(t, escape, c, u);
      assert s[..1] == [c];
    } else if c as int < 0x20 {
      ControlPiece(s);
      HexPair(c);
      UnicodeStep(t, Piece(s), c as int, u);
      assert s[..1] == [c] == EncodeRune(c as int);
    } else if c as int <= 0x7f {
      RawPiece(s);
      RuneStep(t, s[..1], u);
    } else {
      LongPiece(s);
      if RuneLength(s) == 0 {
        assert UnicodeEscape("\\ufffd") == Some(RUNE_ERROR);
        UnicodeStep(t, "\\ufffd", RUNE_ERROR, u);
      } else if DecodeRune(s).0 in {0x2028, 0x2029} {
        SeparatorBytes(s);
        UnicodeStep(t, Piece(s), DecodeRune(s).0, u);
      } else {
        RuneStep(t, s[..Width(s)], u);
      }
    }
  }

  lemma {:induction false} HexPair(c: char)
    requires c as int < 0x20
    ensures UnicodeEscape("\\u00" + [HEX[c as int / 16], HEX[c as int % 16]]) == Some(c as int)
  {
    var h, l := c as int / 16, c as int % 16;
    assert HexDigit(HEX[h]) == h && HexDigit(HEX[l]) == l;
  }

  lemma {:induction false} SeparatorBytes(s: string)
    requires s != "" && DecodeRune(s).0 in {0x2028, 0x2029}
    ensures Width(s) == RuneLength(s) == 3 && s[..3] == EncodeRune(DecodeRune(s).0)
    ensures UnicodeEscape("\\u202" + [HEX[DecodeRune(s).0 % 16]]) == Some(DecodeRune(s).0)
  {
  }

  lemma {:induction false} BodyDecodes(s: string)
    ensures DecodeBody(Body(s) + "\"") == Some(Sanitized(s))
  {
    hide DecodeBody, Piece;
    BodyStep(s);
    if s == "" {
      assert "" + "\"" == "\"";
      ClosingQuote();
    } else {
      var rest := s[Width(s)..];
      BodyDecodes(rest);
      PieceDecodes(s, Body(rest) + "\"");
      assert Piece(s) + Body(rest) + "\"" == Piece(s) + (Body(rest) + "\"");
    }
  }

  lemma {:induction false} ClosingQuote()
    ensures DecodeBody("\"") == Some("")
  {
  }

  lemma {:induction false} SanitizedIsLonger(s: string)
    ensures |Sanitized(s)| >= |s|
    ensures |Sanitized(s)| == |s| <==> ValidUtf8(s)
    ensures ValidUtf8(s) ==> Sanitized(s) == s
  {
    if s != "" {
      SanitizedIsLonger(s[Width(s)..]);
    }
  }

  // The decoder, checked against section 7 of RFC 8259 rule by rule.

  /** Only the end may follow the closing quote, there has to be one, and control characters are not allowed. */
  lemma {:induction false} LiteralEnds(c: char, rest: string)
    ensures DecodeBody("") == None
    ensures DecodeBody("\"" + rest) == if rest == "" then Some("") else None
    ensures c as int < 0x20 ==> DecodeBody([c] + rest) == None
  {
    hide UnicodeEscape, ShortEscape, EncodeRune;
  }

  /** The two-character escapes are these eight, and their meaning is this. */
  lemma {:induction false} ShortEscapes(c: char)
    ensures
      ShortEscape(c) ==
      match c
      case '"' => Some(0x22 as char)
      case '\\' => Some(0x5C as char)
      case '/' => Some(0x2F as char)
      case 'b' => Some(0x08 as char)
      case 'f' => Some(0x0C as char)
      case 'n' => Some(0x0A as char)
      case 'r' => Some(0x0D as char)
      case 't' => Some(0x09 as char)
      case _ => None
  {
  }

  /** Digits have the values 0 to 9, and the first six letters of either case 10 to 15. */
  lemma {:induction false} HexDigits(n: nat)
    requires n < 16
    ensures n < 10 ==> HexDigit((0x30 + n) as char) == n
    ensures n >= 10 ==> HexDigit((0x41 + n - 10) as char) == n && HexDigit((0x61 + n - 10) as char) == n
  {
  }

  lemma {:induction false} NoOtherHexDigit(c: char)
    requires !(0x30 <= c as int <= 0x39) && !(0x41 <= c as int <= 0x46) && !(0x61 <= c as int <= 0x66)
    ensures HexDigit(c) == -1
  {
  }

  /** Four hexadecimal digits behind \u, highest first. */
  lemma {:induction false} UnicodeEscapeExactly(a: char, b: char, c: char, d: char)
    ensures
      UnicodeEscape(['\\', 'u', a, b, c, d]) ==
      if HexDigit(a) >= 0 && HexDigit(b) >= 0 && HexDigit(c) >= 0 && HexDigit(d) >= 0 then
        Some(0x1000 * HexDigit(a) + 0x100 * HexDigit(b) + 0x10 * HexDigit(c) + HexDigit(d))
      else None
  {
    hide HexDigit;
  }

  /** A surrogate counts only as the first half of a pair, and then the pair is one rune. */
  lemma {:induction false} Surrogates(t: string, u: nat, v: nat, rest: string)
    requires |t| == 12 && t[0] == '\\' && t[1] == 'u'
    requires UnicodeEscape(t) == Some(u) && 0xD800 <= u < 0xE000
    requires UnicodeEscape(t[6..]) == Some(v)
    ensures
      DecodeBody(t + rest) ==
      if u < 0xDC00 && 0xDC00 <= v < 0xE000 then
        Prepend(EncodeRune(0x1_0000 + (u - 0xD800) * 0x400 + (v - 0xDC00)), DecodeBody(rest))
      else None
  {
    hide HexDigit, EncodeRune;
    assert (t + rest)[6..] == t[6..] + rest && (t + rest)[12..] == rest;
    EscapeInFront(t, rest);
    EscapeInFront(t[6..], rest);
  }

  lemma {:induction false} EscapeInFront(t: string, rest: string)
    requires |t| >= 6
    ensures UnicodeEscape(t + rest) == UnicodeEscape(t)
  {
    hide HexDigit;
    assert forall i :: 0 <= i < 6 ==> (t + rest)[i] == t[i];
  }

  /** What is neither a rune of a text nor an escape is no part of a literal. */
  lemma {:induction false} NothingElse(t: string)
    requires t != "" && t[0] != '"'
    ensures t[0] == '\\' && (|t| == 1 || ShortEscape(t[1]).None?) && UnicodeEscape(t).None? ==> DecodeBody(t) == None
    ensures t[0] != '\\' && (forall r: Rune :: !(EncodeRune(r) <= t)) ==> DecodeBody(t) == None
  {
    RecognisedExactly(t);
    hide UnicodeEscape, ShortEscape, EncodeRune, RuneLength, HexDigit;
  }

  // Valid UTF-8, without looking at how it is decoded.

  function EncodeAll(rs: seq<Rune>): string {
    if rs == [] then "" else EncodeRune(rs[0]) + EncodeAll(rs[1..])
  }

  /** A concatenation of encoded scalar values. */
  ghost predicate Utf8Text(s: string) {
    exists rs: seq<Rune> :: EncodeAll(rs) == s
  }

  lemma {:induction false} EncodedIsValid(rs: seq<Rune>)
    ensures ValidUtf8(EncodeAll(rs))
  {
    hide DecodeRune, RuneLength, EncodeRune;
    if rs != [] {
      var e, rest := EncodeRune(rs[0]), EncodeAll(rs[1..]);
      EncodedIsValid(rs[1..]);
      EncodedIsDecoded(rs[0], rest);
      EncodedNotEmpty(rs[0]);
      assert (e + rest)[|e|..] == rest;
    }
  }

  lemma {:induction false} ValidIsEncoded(s: string)
    requires ValidUtf8(s)
    ensures Utf8Text(s)
    decreases |s|
  {
    hide DecodeRune, RuneLength, EncodeRune;
    if s == "" {
      assert EncodeAll([]) == s;
    } else {
      WidthIsLength(s);
      DecodedIsEncoded(s);
      var n := Width(s);
      ValidIsEncoded(s[n..]);
      var rs: seq<Rune> :| EncodeAll(rs) == s[n..];
      var all: seq<Rune> := [DecodeRune(s).0] + rs;
      assert all[1..] == rs;
      assert s == s[..n] + s[n..];
      assert EncodeAll(all) == s;
    }
  }

  lemma {:induction false} WidthIsLength(s: string)
    requires s != ""
    ensures RuneLength(s) > 0 ==> Width(s) == RuneLength(s)
    ensures RuneLength(s) == 0 ==> Width(s) == 1
  {
  }

  /** The scanner accepts exactly the concatenations of encoded scalar values. */
  lemma {:induction false} ValidExactly(s: string)
    ensures ValidUtf8(s) <==> Utf8Text(s)
  {
    hide ValidUtf8;
    if ValidUtf8(s) {
      ValidIsEncoded(s);
    }
    if rs: seq<Rune> :| EncodeAll(rs) == s {
      EncodedIsValid(rs);
    }
  }

  /** An encoded scalar value stays; a byte that begins none becomes U+FFFD. */
  lemma {:induction false} SanitizedRunes(s: string, r: Rune, c: char)
    ensures Sanitized(EncodeRune(r) + s) == EncodeRune(r) + Sanitized(s)
    ensures (forall q: Rune :: !(EncodeRune(q) <= [c] + s)) ==>
              Sanitized([c] + s) == "\U{ef}\U{bf}\U{bd}" + Sanitized(s)
  {
    hide DecodeRune, RuneLength, EncodeRune;
    var e := EncodeRune(r);
    EncodedIsDecoded(r, s);
    EncodedNotEmpty(r);
    assert (e + s)[|e|..] == s && (e + s)[..|e|] == e;
    WidthIsLength([c] + s);
    assert ([c] + s)[1..] == s;
    RecognisedExactly([c] + s);
  }

  /** How each scalar value is written: copied unless JSON or JavaScript needs an escape. */
  lemma {:induction false} RuneQuoted(r: Rune, s: string)
    ensures Body(EncodeRune(r) + s) == Piece(EncodeRune(r) + s) + Body(s)
    ensures
      var piece := Piece(EncodeRune(r) + s);
      match r
      case 0x22 => piece == "\\\""
      case 0x5C => piece == "\\\\"
      case 0x0A => piece == "\\n"
      case 0x0D => piece == "\\r"
      case 0x09 => piece == "\\t"
      case 0x2028 => piece == "\\u2028"
      case 0x2029 => piece == "\\u2029"
      case _ =>
        if r < 0x20 then UnicodeEscape(piece) == Some(r) && |piece| == 6 && forall d <- piece :: !('A' <= d <= 'Z')
        else piece == EncodeRune(r)
  {
    RuneInFront(r, s);
    EncodedFront(r);
    hide *;
    if r < 0x20 {
      ControlQuoted(r, s);
    } else if r < 0x80 {
      AsciiQuoted(r, s);
    } else {
      LongQuoted(r, s);
    }
  }

  lemma {:induction false} RuneInFront(r: Rune, s: string)
    ensures var t := EncodeRune(r) + s; Width(t) == |EncodeRune(r)| && Body(t) == Piece(t) + Body(s)
  {
    hide EncodeRune, DecodeRune, RuneLength, Piece;
    EncodedIsDecoded(r, s);
    EncodedNotEmpty(r);
    var e := EncodeRune(r);
    assert (e + s)[|e|..] == s;
  }

  lemma {:induction false} ControlQuoted(r: Rune, s: string)
    requires r < 0x20
    ensures
      var piece := Piece([r as char] + s);
      match r
      case 0x0A => piece == "\\n"
      case 0x0D => piece == "\\r"
      case 0x09 => piece == "\\t"
      case _ => UnicodeEscape(piece) == Some(r) && |piece| == 6 && forall d <- piece :: !('A' <= d <= 'Z')
  {
    hide Piece, UnicodeEscape;
    var t := [r as char] + s;
    if r in {0x0A, 0x0D, 0x09} {
      EscapedPiece(t, if r == 0x0A then 'n' else if r == 0x0D then 'r' else 't');
    } else {
      ControlPiece(t);
      HexPair(t[0]);
      HexIsLower(r / 16, r % 16);
    }
  }

  lemma {:induction false} AsciiQuoted(r: Rune, s: string)
    requires 0x20 <= r < 0x80
    ensures
      Piece([r as char] + s) == if r == 0x22 then "\\\"" else if r == 0x5C then "\\\\" else [r as char]
  {
    hide Piece;
    var t := [r as char] + s;
    if r in {0x22, 0x5C} {
      EscapedPiece(t, t[0]);
    } else {
      RawPiece(t);
    }
  }

  lemma {:induction false} LongQuoted(r: Rune, s: string)
    requires r >= 0x80
    ensures
      Piece(EncodeRune(r) + s) == if r == 0x2028 then "\\u2028" else if r == 0x2029 then "\\u2029" else EncodeRune(r)
  {
    var t := EncodeRune(r) + s;
    EncodedIsDecoded(r, s);
    EncodedFront(r);
    hide DecodeRune, RuneLength, EncodeRune, Piece;
    assert t[0] == EncodeRune(r)[0] && t[..|EncodeRune(r)|] == EncodeRune(r);
    LongPiece(t);
    LongNotOne(r);
    assert HEX[8] == '8' && HEX[9] == '9';
  }

  lemma {:induction false} LongNotOne(r: Rune)
    requires r >= 0x80
    ensures |EncodeRune(r)| > 1
  {
  }

  lemma {:induction false} EncodedFront(r: Rune)
    ensures var e := EncodeRune(r); e != "" && (if r < 0x80 then e == [r as char] else e[0] as int >= 0x80)
  {
  }

  lemma {:induction false} HexIsLower(h: nat, l: nat)
    requires h < 16 && l < 16
    ensures !('A' <= HEX[h] <= 'Z') && !('A' <= HEX[l] <= 'Z')
  {
  }

  /** A byte that begins no encoded scalar value is escaped as U+FFFD. */
  lemma {:induction false} InvalidQuoted(c: char, s: string)
    requires forall r: Rune :: !(EncodeRune(r) <= [c] + s)
    ensures Body([c] + s) == "\\ufffd" + Body(s)
  {
    hide EncodeRune;
    WidthIsLength([c] + s);
    assert ([c] + s)[1..] == s;
    RecognisedExactly([c] + s);
  }

  /** Every quoted string is a literal; invalid bytes in it have become U+FFFD. */
  lemma {:induction false} QuoteDecodes(s: string)
    ensures DecodeLiteral("\"" + Body(s) + "\"") == Some(Sanitized(s))
  {
    assert ("\"" + Body(s) + "\"")[1..] == Body(s) + "\"";
    BodyDecodes(s);
  }

  /** Quoting loses nothing exactly on the concatenations of encoded scalar values. */
  lemma {:induction false} QuoteRoundTrip(s: string)
    ensures DecodeLiteral("\"" + Body(s) + "\"") == Some(s) <==> Utf8Text(s)
  {
    hide ValidUtf8, Sanitized, Body, DecodeLiteral;
    QuoteDecodes(s);
    SanitizedIsLonger(s);
    ValidExactly(s);
  }
}
