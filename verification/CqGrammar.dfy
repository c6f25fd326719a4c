/** What the scanner accepts, as a grammar. */
module CqGrammar {
  import opened Escape
  import opened CqCode
  import opened CqRoundTrip

  // Where a tag opens.

  /** A tag opens at i exactly where "[CQ:" stands with at least one more character behind it. */
  predicate Opens(raw: string, i: nat) {
    i + 4 < |raw| && raw[i..i + 4] == "[CQ:"
  }

  /** The first opening is at i, or there is none and i is the end. */
  ghost predicate FirstAt(raw: string, i: nat) {
    && (i == |raw| || Opens(raw, i))
    && forall k: nat :: k < i ==> !Opens(raw, k)
  }

  /** Everything before the first opening is one text, and everything behind it begins with a tag. */
  lemma {:induction false} ParseExactly(raw: string, i: nat)
    requires raw != "" && FirstAt(raw, i)
    ensures i == |raw| || i + 4 < |raw|
    ensures
      var before := if i == 0 then [] else [Element("text", [Pair("text", UnescapeText(raw[..i]))])];
      Parse(raw) ==
      if i == |raw| then before
      else
        match ParseTag(raw[i + 4..])
        case NoTag => before
        case Tag(e, rest) => before + [e] + Parse(rest)
  {
    hide *;
    FirstOpening(raw, i);
    TextBeforeFirst(raw, i);
    ParseStep(raw);
  }

  lemma {:induction false} TextBeforeFirst(raw: string, i: nat)
    requires TextSpan(raw) == i <= |raw|
    ensures TextBefore(raw) == if i == 0 then [] else [Element("text", [Pair("text", UnescapeText(raw[..i]))])]
  {
    hide UnescapeText, TextSpan;
  }

  lemma {:induction false} FirstOpening(raw: string, i: nat)
    requires FirstAt(raw, i)
    ensures TextSpan(raw) == i <= |raw| && (i < |raw| ==> i + 4 < |raw|)
  {
    forall k | 0 <= k < i ensures !TagAt(raw, k) {
      assert !Opens(raw, k);
    }
    TextSpanFrom(raw, i);
    if i < |raw| {
      assert raw[i..][0..4] == raw[i..i + 4];
      assert raw[i..i + 4][0] == '[';
      assert TagAt(raw[i..], 0);
    }
  }

  /** Without an opening the string is one text, and it is left alone if it has no entities. */
  lemma {:induction false} PlainString(raw: string)
    requires raw != "" && forall k: nat :: !Opens(raw, k)
    requires FreeOf(raw, "&#91;") && FreeOf(raw, "&#93;") && FreeOf(raw, "&amp;")
    ensures Parse(raw) == [Element("text", [Pair("text", raw)])]
  {
    assert FirstAt(raw, |raw|);
    hide *;
    NothingToUnescape(raw);
    FirstOpening(raw, |raw|);
    TextBeforeFirst(raw, |raw|);
    ParseStep(raw);
    assert raw[..|raw|] == raw;
  }

  // What a tag is.

  /** Pairs as they stand in the string, values still escaped. */
  function RawData(ps: seq<Pair>): string {
    if ps == [] then "" else "," + ps[0].k + "=" + ps[0].v + RawData(ps[1..])
  }

  /** No '=' in a key, no delimiter in a value. */
  ghost predicate RawPairs(ps: seq<Pair>) {
    forall i :: 0 <= i < |ps| ==> '=' !in ps[i].k && ',' !in ps[i].v && ']' !in ps[i].v
  }

  function Unescaped(ps: seq<Pair>): seq<Pair> {
    seq(|ps|, i requires 0 <= i < |ps| => Pair(ps[i].k, UnescapeValue(ps[i].v)))
  }

  lemma {:induction false} RawDataStep(ps: seq<Pair>, rest: string)
    requires ps != []
    ensures RawData(ps) + "]" + rest == "," + ps[0].k + "=" + ps[0].v + (RawData(ps[1..]) + "]" + rest)
  {
    var k, v, more := ps[0].k, ps[0].v, RawData(ps[1..]);
    assert RawData(ps) == "," + k + "=" + v + more;
    hide RawData;
    assert "," + k + "=" + v + more + "]" + rest == "," + k + "=" + v + (more + "]" + rest);
  }

  lemma {:induction false} RawDataFront(ps: seq<Pair>, rest: string)
    ensures var more := RawData(ps) + "]" + rest; more != "" && more[0] in DELIMITERS
  {
  }

  lemma {:induction false} UnescapedStep(ps: seq<Pair>)
    requires ps != []
    ensures Unescaped(ps) == [Pair(ps[0].k, UnescapeValue(ps[0].v))] + Unescaped(ps[1..])
  {
  }

  /** Every such string is read. */
  lemma {:induction false} RawDataRead(ps: seq<Pair>, elem: Element, rest: string)
    requires RawPairs(ps)
    ensures ParseData(RawData(ps) + "]" + rest, elem) == Tag(elem.(data := elem.data + Unescaped(ps)), rest)
    decreases ps
  {
    hide ParseData, UnescapeValue, RawData;
    if ps == [] {
      RawDataEnd(ps, elem, rest);
    } else {
      var p := Pair(ps[0].k, UnescapeValue(ps[0].v));
      RawDataStep(ps, rest);
      RawDataFront(ps[1..], rest);
      PairRead(RawData(ps) + "]" + rest, elem, p, ps[0].v, RawData(ps[1..]) + "]" + rest);
      RawDataRead(ps[1..], elem.(data := elem.data + [p]), rest);
      UnescapedStep(ps);
      assert elem.data + [p] + Unescaped(ps[1..]) == elem.data + ([p] + Unescaped(ps[1..]));
    }
  }

  lemma {:induction false} RawDataEnd(ps: seq<Pair>, elem: Element, rest: string)
    requires ps == []
    ensures ParseData(RawData(ps) + "]" + rest, elem) == Tag(elem.(data := elem.data + Unescaped(ps)), rest)
  {
    var raw := RawData(ps) + "]" + rest;
    assert raw == "]" + rest && raw[1..] == rest;
    assert elem.data + Unescaped(ps) == elem.data;
  }

  /** Nothing else is. */
  lemma {:induction false} ReadRawData(raw: string, elem: Element) returns (ps: seq<Pair>)
    requires raw != "" && raw[0] in DELIMITERS && ParseData(raw, elem).Tag?
    ensures
      var t := ParseData(raw, elem);
      RawPairs(ps) && raw == RawData(ps) + "]" + t.rest && t.elem == elem.(data := elem.data + Unescaped(ps))
    decreases |raw|
  {
    hide UnescapeValue, ParseData, RawData, RawPairs;
    if raw[0] == ']' {
      ps := [];
      NoMorePairs(raw, elem);
    } else {
      var k, v, tail := FirstPair(raw, elem);
      var p := Pair(k, UnescapeValue(v));
      var more := ReadRawData(tail, elem.(data := elem.data + [p]));
      ps := [Pair(k, v)] + more;
      OneMorePair(raw, k, v, tail, more, ParseData(raw, elem).rest);
      hide *;
      assert elem.data + [p] + Unescaped(more) == elem.data + ([p] + Unescaped(more));
    }
  }

  lemma {:induction false} NoMorePairs(raw: string, elem: Element)
    requires raw != "" && raw[0] == ']'
    ensures
      var t := ParseData(raw, elem);
      t.Tag? && RawPairs([]) && raw == RawData([]) + "]" + t.rest && t.elem == elem.(data := elem.data + Unescaped([]))
  {
    assert elem.data + Unescaped([]) == elem.data;
    assert RawData([]) == "" && raw == "]" + raw[1..];
  }

  lemma {:induction false} OneMorePair(raw: string, k: string, v: string, tail: string, more: seq<Pair>, rest: string)
    requires raw == "," + k + "=" + v + tail && tail == RawData(more) + "]" + rest
    requires '=' !in k && ',' !in v && ']' !in v && RawPairs(more)
    ensures
      var ps := [Pair(k, v)] + more;
      && RawPairs(ps) && raw == RawData(ps) + "]" + rest
      && Unescaped(ps) == [Pair(k, UnescapeValue(v))] + Unescaped(more)
  {
    hide RawData, UnescapeValue;
    var ps := [Pair(k, v)] + more;
    assert ps[1..] == more;
    RawDataStep(ps, rest);
    UnescapedStep(ps);
  }

  lemma {:induction false} FirstPair(raw: string, elem: Element) returns (k: string, v: string, tail: string)
    requires raw != "" && raw[0] == ',' && ParseData(raw, elem).Tag?
    ensures '=' !in k && ',' !in v && ']' !in v && raw == "," + k + "=" + v + tail && |tail| < |raw|
    ensures tail != "" && tail[0] in DELIMITERS
    ensures ParseData(raw, elem) == ParseData(tail, elem.(data := elem.data + [Pair(k, UnescapeValue(v))]))
  {
    hide UnescapeValue, Span;
    var i := Span(raw[1..], {'='});
    SpanIsClean(raw[1..], {'='}, '=');
    k := raw[1..][..i];
    var behind := raw[1..][i + 1..];
    var j := Span(behind, DELIMITERS);
    SpanIsClean(behind, DELIMITERS, ',');
    SpanIsClean(behind, DELIMITERS, ']');
    v, tail := behind[..j], behind[j..];
    hide ParseData;
    Rejoined(raw, i, j);
  }

  lemma {:induction false} Rejoined(raw: string, i: nat, j: nat)
    requires raw != "" && raw[0] == ',' && i < |raw[1..]| && raw[1..][i] == '=' && j <= |raw[1..][i + 1..]|
    ensures
      var behind := raw[1..][i + 1..];
      raw == "," + raw[1..][..i] + "=" + behind[..j] + behind[j..]
  {
    var behind := raw[1..][i + 1..];
    assert raw == "," + raw[1..];
    assert raw[1..] == raw[1..][..i] + "=" + behind;
    assert behind == behind[..j] + behind[j..];
  }

  /** The string of a tag, with a type and pairs as they stand in it. */
  ghost predicate TagString(raw: string, e: Element, rest: string, ps: seq<Pair>) {
    && RawPairs(ps) && ',' !in e.typ && ']' !in e.typ
    && raw == e.typ + (RawData(ps) + "]" + rest) && e.data == Unescaped(ps)
  }

  /** A tag is a type without delimiters, pairs of keys and values, and "]"; its values are unescaped. */
  lemma {:induction false} TagExactly(raw: string, e: Element, rest: string)
    ensures ParseTag(raw) == Tag(e, rest) <==> exists ps :: TagString(raw, e, rest, ps)
  {
    hide ParseData, RawData, Unescaped, Span, UnescapeValue;
    if ps :| TagString(raw, e, rest, ps) {
      RawDataFront(ps, rest);
      TypeRead(e.typ, RawData(ps) + "]" + rest);
      RawDataRead(ps, Element(e.typ, []), rest);
      assert [] + Unescaped(ps) == Unescaped(ps);
    }
    if ParseTag(raw) == Tag(e, rest) {
      var i := Span(raw, DELIMITERS);
      SpanIsClean(raw, DELIMITERS, ',');
      SpanIsClean(raw, DELIMITERS, ']');
      var ps := ReadRawData(raw[i..], Element(raw[..i], []));
      assert [] + Unescaped(ps) == Unescaped(ps);
      assert raw == raw[..i] + raw[i..];
      assert TagString(raw, e, rest, ps);
    }
  }
}
