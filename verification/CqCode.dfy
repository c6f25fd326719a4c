/** Message elements, printed as CQ codes and parsed back. */
module CqCode {
  import opened Escape

  datatype Pair = Pair(k: string, v: string)
  datatype Element = Element(typ: string, data: seq<Pair>)
  datatype Tagged = NoTag | Tag(elem: Element, rest: string)

  function Text(v: string): Element {
    Element("text", [Pair("text", v)])
  }

  // Printing.

  /** Printing a text element reads its first datum, which has to be there. */
  predicate Printable(e: Element) {
    e.typ == "text" ==> e.data != []
  }

  function PrintData(data: seq<Pair>): string {
    if data == [] then "" else "," + data[0].k + "=" + EscapeValue(data[0].v) + PrintData(data[1..])
  }

  function Print(e: Element): string
    requires Printable(e)
  {
    if e.typ == "text" then EscapedText(e.data[0].v) else "[CQ:" + e.typ + PrintData(e.data) + "]"
  }

  predicate AllPrintable(es: seq<Element>) {
    forall i :: 0 <= i < |es| ==> Printable(es[i])
  }

  function PrintAll(es: seq<Element>): string
    requires AllPrintable(es)
  {
    if es == [] then "" else Print(es[0]) + PrintAll(es[1..])
  }

  class Builder {
    var s: string

    constructor ()
      ensures s == ""
    {
      s := "";
    }

    method WriteString(t: string)
      modifies this
      ensures s == old(s) + t
    {
      s := s + t;
    }
  }

  method WriteCQCodeTo(e: Element, sb: Builder)
    requires Printable(e)
    modifies sb
    ensures sb.s == old(sb.s) + Print(e)
  {
    if e.typ == "text" {
      var t := EscapeText(e.data[0].v);
      sb.WriteString(t);
      return;
    }
    hide EscapeValue;
    sb.WriteString("[CQ:");
    sb.WriteString(e.typ);
    assert e.data[0..] == e.data;
    ghost var all := sb.s + PrintData(e.data);
    for i := 0 to |e.data|
      invariant sb.s + PrintData(e.data[i..]) == all
    {
      WritePair(e.data[i], sb, e.data[i..]);
      assert e.data[i..][1..] == e.data[i + 1..];
    }
    assert e.data[|e.data|..] == [] && sb.s == all;
    sb.WriteString("]");
    assert old(sb.s) + ("[CQ:" + e.typ + PrintData(e.data) + "]") == all + "]";
  }

  method WritePair(p: Pair, sb: Builder, ghost data: seq<Pair>)
    requires data != [] && data[0] == p
    modifies sb
    ensures sb.s + PrintData(data[1..]) == old(sb.s) + PrintData(data)
  {
    hide EscapeValue;
    ghost var start, rest := sb.s, PrintData(data[1..]);
    var v := EscapeValue(p.v);
    assert PrintData(data) == "," + p.k + "=" + v + rest;
    hide *;
    sb.WriteString(",");
    sb.WriteString(p.k);
    sb.WriteString("=");
    sb.WriteString(v);
    assert start + ("," + p.k + "=" + v + rest) == start + "," + p.k + "=" + v + rest;
  }

  // Parsing.

  /** A tag opens at i: "[CQ:" with at least one more character behind it. */
  predicate TagAt(raw: string, i: nat)
    requires i < |raw|
  {
    raw[i] == '[' && i + 4 < |raw| && raw[i..i + 4] == "[CQ:"
  }

  /** How many characters come before the next tag. */
  function TextSpan(raw: string): (n: nat)
    ensures n <= |raw|
    ensures n < |raw| ==> n + 4 < |raw|
  {
    if raw == "" || TagAt(raw, 0) then 0 else 1 + TextSpan(raw[1..])
  }

  /** How many characters come before the first of `stops`. */
  function Span(raw: string, stops: set<char>): (n: nat)
    ensures n <= |raw|
    ensures n < |raw| ==> raw[n] in stops
  {
    if raw == "" || raw[0] in stops then 0 else 1 + Span(raw[1..], stops)
  }

  const DELIMITERS: set<char> := {',', ']'}

  /** The data of a tag, from its first ',' or its ']', put behind the pairs in elem. */
  function ParseData(raw: string, elem: Element): (r: Tagged)
    requires raw != "" && raw[0] in DELIMITERS
    ensures r.Tag? ==> |r.rest| < |raw|
    decreases |raw|
  {
    if raw[0] == ']' then Tag(elem, raw[1..])
    else
      var i := Span(raw[1..], {'='});
      if i + 1 > |raw[1..]| then NoTag
      else
        var key, tail := raw[1..][..i], raw[1..][i + 1..];
        var j := Span(tail, DELIMITERS);
        if j + 1 > |tail| then NoTag
        else ParseData(tail[j..], elem.(data := elem.data + [Pair(key, UnescapeValue(tail[..j]))]))
  }

  /** A tag behind its "[CQ:". */
  function ParseTag(raw: string): (r: Tagged)
    ensures r.Tag? ==> |r.rest| < |raw|
  {
    var i := Span(raw, DELIMITERS);
    if i + 1 > |raw| then NoTag else ParseData(raw[i..], Element(raw[..i], []))
  }

  function TextBefore(raw: string): seq<Element> {
    var i := TextSpan(raw);
    if i > 0 then [Text(UnescapeText(raw[..i]))] else []
  }

  /** What ParseString returns. An unfinished tag ends the parse. */
  function Parse(raw: string): seq<Element>
    decreases |raw|
  {
    if raw == "" then []
    else
      var i := TextSpan(raw);
      if i == |raw| then TextBefore(raw)
      else
        match ParseTag(raw[i + 4..])
        case NoTag => TextBefore(raw)
        case Tag(e, rest) => TextBefore(raw) + [e] + Parse(rest)
  }

  lemma {:induction false} TextSpanFrom(raw: string, i: nat)
    requires i <= |raw| && forall k :: 0 <= k < i ==> !TagAt(raw, k)
    ensures TextSpan(raw) == i + TextSpan(raw[i..])
  {
    if i > 0 {
      forall k | 0 <= k < i - 1 ensures !TagAt(raw[1..], k) {
        assert !TagAt(raw, k + 1);
        assert k + 4 < |raw[1..]| ==> raw[1..][k..k + 4] == raw[k + 1..k + 5];
      }
      TextSpanFrom(raw[1..], i - 1);
      assert raw[1..][i - 1..] == raw[i..];
      assert !TagAt(raw, 0);
    }
  }

  lemma {:induction false} SpanFrom(raw: string, i: nat, stops: set<char>)
    requires i <= |raw| && forall k :: 0 <= k < i ==> raw[k] !in stops
    ensures Span(raw, stops) == i + Span(raw[i..], stops)
  {
    if i > 0 {
      SpanFrom(raw[1..], i - 1, stops);
      assert raw[1..][i - 1..] == raw[i..];
    }
  }

  /** Moves to the first of `stops`, or to the end. */
  method Scan(raw: string, stops: set<char>) returns (i: nat)
    ensures i == Span(raw, stops)
  {
    i := 0;
    while i < |raw| && raw[i] !in stops
      invariant i <= |raw| && forall k :: 0 <= k < i ==> raw[k] !in stops
    {
      i := i + 1;
    }
    SpanFrom(raw, i, stops);
  }

  /** How the parse of the whole goes on behind its first text and tag. */
  lemma {:induction false} ParseUnfolds(raw: string, before: seq<Element>)
    requires raw != ""
    ensures
      var i := TextSpan(raw);
      var done := before + TextBefore(raw);
      && (i == |raw| ==> before + Parse(raw) == done)
      && (i < |raw| ==>
            match ParseTag(raw[i + 4..])
            case NoTag => before + Parse(raw) == done
            case Tag(e, rest) => before + Parse(raw) == done + [e] + Parse(rest))
  {
    hide *;
    var i := TextSpan(raw);
    ParseStep(raw);
    if i < |raw| && ParseTag(raw[i + 4..]).Tag? {
      var t := ParseTag(raw[i + 4..]);
      var a, b, c := TextBefore(raw), [t.elem], Parse(t.rest);
      assert before + (a + b + c) == before + a + b + c;
    }
  }

  lemma {:induction false} ParseStep(raw: string)
    requires raw != ""
    ensures
      var i := TextSpan(raw);
      Parse(raw) ==
      if i == |raw| then TextBefore(raw)
      else
        match ParseTag(raw[i + 4..])
        case NoTag => TextBefore(raw)
        case Tag(e, rest) => TextBefore(raw) + [e] + Parse(rest)
  {
    hide TextBefore, ParseTag, TextSpan;
  }

  /** The part of ParseString behind "[CQ:": one tag, or None where ParseString returns. */
  method ParseOneTag(input: string) returns (r: Tagged)
    ensures r == ParseTag(input)
  {
    hide Span, UnescapeValue;
    var raw := input;
    var i := Scan(raw, DELIMITERS);
    if i + 1 > |raw| {
      return NoTag;
    }
    var elem := Element(raw[..i], []);
    raw := raw[i..];
    while true
      invariant raw != "" && raw[0] in DELIMITERS
      invariant ParseData(raw, elem) == ParseTag(input)
      decreases |raw|
    {
      hide ParseTag;
      if raw[0] == ']' {
        return Tag(elem, raw[1..]);
      }
      raw := raw[1..];
      i := Scan(raw, {'='});
      if i + 1 > |raw| {
        return NoTag;
      }
      var key := raw[..i];
      raw := raw[i + 1..];
      i := Scan(raw, DELIMITERS);
      if i + 1 > |raw| {
        return NoTag;
      }
      elem := elem.(data := elem.data + [Pair(key, UnescapeValue(raw[..i]))]);
      raw := raw[i..];
    }
  }

  method ParseString(input: string) returns (r: seq<Element>)
    ensures r == Parse(input)
  {
    hide Parse, ParseTag, TagAt, TextSpan, UnescapeText;
    r := [];
    var raw := input;
    while raw != ""
      invariant r + Parse(raw) == Parse(input)
      decreases |raw|
    {
      var i := 0;
      while i < |raw| && !TagAt(raw, i)
        invariant i <= |raw| && forall k :: 0 <= k < i ==> !TagAt(raw, k)
      {
        i := i + 1;
      }
      TextSpanStops(raw, i);
      ParseUnfolds(raw, r);
      ghost var done := r + TextBefore(raw);
      if i > 0 {
        r := r + [Text(UnescapeText(raw[..i]))];
      }
      assert r == done;
      if i + 4 > |raw| {
        return;
      }
      var tag := ParseOneTag(raw[i + 4..]);
      if tag.NoTag? {
        return;
      }
      r := r + [tag.elem];
      raw := tag.rest;
    }
    ParseEmpty();
    assert r + [] == r;
  }

  lemma {:induction false} ParseEmpty()
    ensures Parse("") == []
  {
  }

  lemma {:induction false} TextSpanStops(raw: string, i: nat)
    requires i <= |raw| && forall k :: 0 <= k < i ==> !TagAt(raw, k)
    requires i < |raw| ==> TagAt(raw, i)
    ensures TextSpan(raw) == i && (i < |raw| ==> i + 4 < |raw|)
  {
    TextSpanFrom(raw, i);
    if i < |raw| {
      assert raw[i..][0..4] == raw[i..i + 4];
    }
  }
}
