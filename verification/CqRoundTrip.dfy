/** Printing elements and parsing them back. */
module CqRoundTrip {
  import opened Escape
  import opened CqCode

  /** A tag that comes back as it was: not a text, a type without delimiters, keys without '='. */
  ghost predicate GoodTag(e: Element) {
    && e.typ != "text" && ',' !in e.typ && ']' !in e.typ
    && forall i :: 0 <= i < |e.data| ==> '=' !in e.data[i].k
  }

  ghost predicate WellFormed(es: seq<Element>) {
    forall i :: 0 <= i < |es| ==> if es[i].typ == "text" then Printable(es[i]) else GoodTag(es[i])
  }

  /** A text element as the parser makes them, with something in it. */
  predicate PlainText(e: Element) {
    e.data != [] && e.data[0].v != "" && e == Text(e.data[0].v)
  }

  /** Good tags and nonempty texts, no two texts next to each other. */
  ghost predicate Canonical(es: seq<Element>) {
    && (forall i :: 0 <= i < |es| ==> if es[i].typ == "text" then PlainText(es[i]) else GoodTag(es[i]))
    && forall i :: 0 < i < |es| ==> es[i - 1].typ != "text" || es[i].typ != "text"
  }

  /** Puts a text in front, joining it with a text that is there and dropping it if empty. */
  function AddText(v: string, es: seq<Element>): seq<Element> {
    if v == "" then es
    else if es != [] && es[0].typ == "text" && es[0].data != [] then [Text(v + es[0].data[0].v)] + es[1..]
    else [Text(v)] + es
  }

  /** Neighbouring texts joined, empty ones dropped, tags kept. */
  function Normal(es: seq<Element>): seq<Element>
    requires AllPrintable(es)
  {
    if es == [] then []
    else if es[0].typ == "text" then AddText(es[0].data[0].v, Normal(es[1..]))
    else [es[0]] + Normal(es[1..])
  }

  // Scanning over printed text.

  lemma {:induction false} SpanOf(a: string, rest: string, stops: set<char>)
    requires forall c :: c in a ==> c !in stops
    requires rest == "" || rest[0] in stops
    ensures Span(a + rest, stops) == |a|
  {
    SpanFrom(a + rest, |a|, stops);
    assert (a + rest)[|a|..] == rest;
  }

  lemma {:induction false} TextSpanOf(a: string, rest: string)
    requires '[' !in a
    requires rest == "" || TagAt(rest, 0)
    ensures TextSpan(a + rest) == |a|
  {
    TextSpanFrom(a + rest, |a|);
    assert (a + rest)[|a|..] == rest;
  }

  lemma {:induction false} DataRoundTrip(data: seq<Pair>, elem: Element, rest: string)
    requires forall i :: 0 <= i < |data| ==> '=' !in data[i].k
    ensures ParseData(PrintData(data) + "]" + rest, elem) == Tag(elem.(data := elem.data + data), rest)
    decreases data
  {
    hide *;
    if data == [] {
      DataEnd(data, elem, rest);
    } else {
      var raw := PrintData(data) + "]" + rest;
      var v := EscapeValue(data[0].v);
      var more := PrintData(data[1..]) + "]" + rest;
      PrintDataStep(data, rest);
      EscapedValueIsClean(data[0].v);
      MoreData(data[1..], rest);
      PairRead(raw, elem, data[0], v, more);
      DataRoundTrip(data[1..], elem.(data := elem.data + [data[0]]), rest);
      assert elem.data + [data[0]] + data[1..] == elem.data + data;
    }
  }

  lemma {:induction false} DataEnd(data: seq<Pair>, elem: Element, rest: string)
    requires data == []
    ensures ParseData(PrintData(data) + "]" + rest, elem) == Tag(elem.(data := elem.data + data), rest)
  {
    var raw := PrintData(data) + "]" + rest;
    assert raw == "]" + rest && raw[1..] == rest;
    assert elem.data + data == elem.data;
  }

  lemma {:induction false} PrintDataStep(data: seq<Pair>, rest: string)
    requires data != []
    ensures PrintData(data) + "]" + rest
         == "," + data[0].k + "=" + EscapeValue(data[0].v) + (PrintData(data[1..]) + "]" + rest)
  {
    hide EscapeValue;
    var k, v, more := data[0].k, EscapeValue(data[0].v), PrintData(data[1..]);
    assert PrintData(data) == "," + k + "=" + v + more;
    hide PrintData;
    assert "," + k + "=" + v + more + "]" + rest == "," + k + "=" + v + (more + "]" + rest);
  }

  lemma {:induction false} MoreData(data: seq<Pair>, rest: string)
    ensures var more := PrintData(data) + "]" + rest; more != "" && more[0] in DELIMITERS
  {
    hide EscapeValue;
  }

  lemma {:induction false} EscapedValueIsClean(v: string)
    ensures ',' !in EscapeValue(v) && ']' !in EscapeValue(v)
    ensures UnescapeValue(EscapeValue(v)) == v
  {
    EscapeValueIsEscaped(v);
    EscapedIsFree(VALUE_SPECIALS, v, ',');
    EscapedIsFree(VALUE_SPECIALS, v, ']');
    UnescapeEscapeValue(v);
  }

  lemma {:induction false} PairCuts(raw: string, k: string, v: string, more: string)
    requires raw == "," + k + "=" + v + more
    ensures
      var tail := v + more;
      && raw[0] == ',' && raw[1..] == k + ("=" + tail)
      && raw[1..][..|k|] == k && raw[1..][|k| + 1..] == tail
      && tail[..|v|] == v && tail[|v|..] == more
  {
    var tail := v + more;
    assert raw[1..] == k + ("=" + tail);
  }

  /** One printed pair, taken off the front. */
  lemma {:induction false} PairRead(raw: string, elem: Element, p: Pair, v: string, more: string)
    requires raw == "," + p.k + "=" + v + more
    requires '=' !in p.k && ',' !in v && ']' !in v
    requires UnescapeValue(v) == p.v
    requires more != "" && more[0] in DELIMITERS
    ensures ParseData(raw, elem) == ParseData(more, elem.(data := elem.data + [p]))
  {
    hide UnescapeValue, Span;
    var tail := v + more;
    PairCuts(raw, p.k, v, more);
    SpanOf(p.k, "=" + tail, {'='});
    SpanOf(v, more, DELIMITERS);
  }

  lemma {:induction false} TagRoundTrip(e: Element, rest: string)
    requires GoodTag(e)
    ensures ParseTag(e.typ + PrintData(e.data) + "]" + rest) == Tag(e, rest)
  {
    hide PrintData, ParseData, ParseTag, Span;
    var tail := PrintData(e.data) + "]" + rest;
    assert e.typ + PrintData(e.data) + "]" + rest == e.typ + tail;
    MoreData(e.data, rest);
    TypeRead(e.typ, tail);
    DataRoundTrip(e.data, Element(e.typ, []), rest);
    assert [] + e.data == e.data;
  }

  lemma {:induction false} TypeRead(typ: string, tail: string)
    requires ',' !in typ && ']' !in typ
    requires tail != "" && tail[0] in DELIMITERS
    ensures ParseTag(typ + tail) == ParseData(tail, Element(typ, []))
  {
    SpanOf(typ, tail, DELIMITERS);
    assert (typ + tail)[..|typ|] == typ && (typ + tail)[|typ|..] == tail;
    hide ParseData, Span;
  }

  /** Escaped text in front of nothing, or in front of a printed tag. */
  lemma {:induction false} TextRead(v: string, rest: string)
    requires rest == "" || TagAt(rest, 0)
    ensures TextSpan(EscapedText(v) + rest) == |EscapedText(v)|
    ensures TextBefore(EscapedText(v) + rest) == if v == "" then [] else [Text(v)]
  {
    var t := EscapedText(v);
    EscapedIsFree(TEXT_SPECIALS, v, '[');
    TextSpanOf(t, rest);
    UnescapeEscapeText(v);
    assert (t + rest)[..|t|] == t;
    if t == "" {
      EmptyText(v);
    }
  }

  lemma {:induction false} AddTextTwice(v: string, w: string, es: seq<Element>)
    ensures AddText(v, AddText(w, es)) == AddText(v + w, es)
  {
    if v == "" {
      assert v + w == w;
    } else if w == "" {
      assert v + w == v;
    } else if es != [] && es[0].typ == "text" && es[0].data != [] {
      assert v + (w + es[0].data[0].v) == v + w + es[0].data[0].v;
    }
  }

  /** Whatever list is printed, behind whatever text: parsing gives its normal form. */
  lemma {:induction false} ParseOfPrint(v: string, es: seq<Element>)
    requires WellFormed(es)
    ensures Parse(EscapedText(v) + PrintAll(es)) == AddText(v, Normal(es))
    decreases es
  {
    hide *;
    var t := EscapedText(v);
    PrintAllStep(es);
    NormalStep(es);
    if es == [] {
      ParseTextOnly(v);
      assert t + "" == t;
    } else if es[0].typ == "text" {
      var w := es[0].data[0].v;
      ParseOfPrint(v + w, es[1..]);
      EscapedTextConcat(v, w);
      assert t + (EscapedText(w) + PrintAll(es[1..])) == t + EscapedText(w) + PrintAll(es[1..]);
      AddTextTwice(v, w, Normal(es[1..]));
    } else {
      TagStep(v, es[0], PrintAll(es[1..]));
      ParseOfPrint("", es[1..]);
      EscapedEmpty(PrintAll(es[1..]));
      AddNothing(Normal(es[1..]));
      TextThenTag(v, es[0], Normal(es[1..]));
    }
  }

  lemma {:induction false} AddNothing(es: seq<Element>)
    ensures AddText("", es) == es
  {
  }

  lemma {:induction false} NormalStep(es: seq<Element>)
    requires AllPrintable(es)
    ensures es == [] ==> Normal(es) == []
    ensures es != [] ==>
              && AllPrintable(es[1..])
              && Normal(es) == if es[0].typ == "text" then AddText(es[0].data[0].v, Normal(es[1..]))
                               else [es[0]] + Normal(es[1..])
  {
    hide AddText;
  }

  lemma {:induction false} PrintAllStep(es: seq<Element>)
    requires WellFormed(es)
    ensures AllPrintable(es)
    ensures es == [] ==> PrintAll(es) == ""
    ensures es != [] ==>
              && WellFormed(es[1..]) && Printable(es[0])
              && (es[0].typ == "text" ==> es[0].data != [])
              && (es[0].typ != "text" ==> GoodTag(es[0]))
              && PrintAll(es) == (if es[0].typ == "text" then EscapedText(es[0].data[0].v) else Print(es[0]))
                                 + PrintAll(es[1..])
  {
    hide GoodTag, EscapedText;
  }

  lemma {:induction false} EscapedTextConcat(v: string, w: string)
    ensures EscapedText(v + w) == EscapedText(v) + EscapedText(w)
  {
    EscapedConcat(TEXT_SPECIALS, v, w);
  }

  lemma {:induction false} EscapedEmpty(s: string)
    ensures EscapedText("") + s == s
  {
  }

  lemma {:induction false} TextThenTag(v: string, e: Element, es: seq<Element>)
    requires e.typ != "text"
    ensures AddText(v, [e] + es) == (if v == "" then [] else [Text(v)]) + [e] + es
  {
  }

  lemma {:induction false} ParseTextOnly(v: string)
    ensures Parse(EscapedText(v)) == AddText(v, [])
  {
    var t := EscapedText(v);
    TextRead(v, "");
    assert t + "" == t;
    hide EscapedText, TextBefore, TextSpan;
    if t != "" {
      ParseStep(t);
    } else {
      EmptyText(v);
    }
  }

  lemma {:induction false} EmptyText(v: string)
    requires EscapedText(v) == ""
    ensures v == ""
  {
    UnescapeEscapeText(v);
  }

  lemma {:induction false} TagStep(v: string, e: Element, rest: string)
    requires GoodTag(e)
    ensures Parse(EscapedText(v) + (Print(e) + rest)) == (if v == "" then [] else [Text(v)]) + [e] + Parse(rest)
  {
    var t, p := EscapedText(v), Print(e) + rest;
    var tag := e.typ + PrintData(e.data) + "]" + rest;
    assert p == "[CQ:" + tag;
    assert p[0..4] == "[CQ:" && |p| > 4;
    TextRead(v, p);
    assert (t + p)[|t| + 4..] == tag;
    TagRoundTrip(e, rest);
    hide TextBefore, TextSpan, EscapedText, Print, ParseTag;
    ParseStep(t + p);
  }

  // Canonical lists.

  lemma {:induction false} NormalOfCanonical(es: seq<Element>)
    requires Canonical(es)
    ensures WellFormed(es) && AllPrintable(es) && Normal(es) == es
  {
    if es != [] {
      CanonicalTail(es);
      hide *;
      NormalOfCanonical(es[1..]);
      CanonicalFront(es);
      NormalStep(es);
      assert [es[0]] + es[1..] == es;
    }
  }

  lemma {:induction false} CanonicalTail(es: seq<Element>)
    requires Canonical(es) && es != []
    ensures Canonical(es[1..])
  {
    hide GoodTag, PlainText;
    var t := es[1..];
    assert forall i :: 0 <= i < |t| ==> t[i] == es[i + 1];
    forall i | 0 < i < |t| ensures t[i - 1].typ != "text" || t[i].typ != "text" {
      assert es[i + 1 - 1].typ != "text" || es[i + 1].typ != "text";
    }
  }

  lemma {:induction false} CanonicalFront(es: seq<Element>)
    requires Canonical(es) && es != []
    ensures WellFormed(es) && AllPrintable(es)
    ensures es[0].typ == "text" ==> es[0].data != [] && AddText(es[0].data[0].v, es[1..]) == [es[0]] + es[1..]
  {
    hide GoodTag;
    if |es| > 1 {
      assert es[1 - 1].typ != "text" || es[1].typ != "text";
    }
  }

  lemma {:induction false} NormalIsCanonical(es: seq<Element>)
    requires WellFormed(es)
    ensures AllPrintable(es) && Canonical(Normal(es))
  {
    hide GoodTag, AddText, Canonical;
    if es == [] {
      NothingIsCanonical();
    } else {
      NormalIsCanonical(es[1..]);
      if es[0].typ == "text" {
        AddTextIsCanonical(es[0].data[0].v, Normal(es[1..]));
      } else {
        AddTagIsCanonical(es[0], Normal(es[1..]));
      }
    }
  }

  lemma {:induction false} NothingIsCanonical()
    ensures Canonical([])
  {
  }

  lemma {:induction false} AddTextIsCanonical(v: string, es: seq<Element>)
    requires Canonical(es)
    ensures Canonical(AddText(v, es))
  {
    hide GoodTag;
    var r := AddText(v, es);
    if v != "" {
      if es != [] && es[0].typ == "text" {
        assert forall i :: 0 < i < |r| ==> r[i] == es[i];
      } else {
        assert forall i :: 0 < i < |r| ==> r[i] == es[i - 1];
      }
    }
  }

  lemma {:induction false} AddTagIsCanonical(e: Element, es: seq<Element>)
    requires Canonical(es) && GoodTag(e)
    ensures Canonical([e] + es)
  {
    var r := [e] + es;
    assert forall i :: 0 < i < |r| ==> r[i] == es[i - 1];
  }

  // What the parser returns.

  /** No tag of the input has the type "text". */
  predicate NoTextTag(raw: string)
    decreases |raw|
  {
    raw != "" && TextSpan(raw) < |raw| ==>
      var t := ParseTag(raw[TextSpan(raw) + 4..]);
      t.Tag? ==> t.elem.typ != "text" && NoTextTag(t.rest)
  }

  lemma {:induction false} SpanIsClean(raw: string, stops: set<char>, c: char)
    requires c in stops
    ensures c !in raw[..Span(raw, stops)]
  {
    if raw != "" && raw[0] !in stops {
      SpanIsClean(raw[1..], stops, c);
      var n := Span(raw, stops);
      assert raw[..n] == [raw[0]] + raw[1..][..n - 1];
    }
  }

  lemma {:induction false} ParsedKeys(raw: string, elem: Element)
    requires raw != "" && raw[0] in DELIMITERS
    requires forall i :: 0 <= i < |elem.data| ==> '=' !in elem.data[i].k
    ensures
      var t := ParseData(raw, elem);
      t.Tag? ==> t.elem.typ == elem.typ && forall i :: 0 <= i < |t.elem.data| ==> '=' !in t.elem.data[i].k
    decreases |raw|
  {
    hide UnescapeValue, Span;
    if raw[0] != ']' {
      var i := Span(raw[1..], {'='});
      SpanIsClean(raw[1..], {'='}, '=');
      if i + 1 <= |raw[1..]| {
        var key, tail := raw[1..][..i], raw[1..][i + 1..];
        var j := Span(tail, DELIMITERS);
        if j + 1 <= |tail| {
          ParsedKeys(tail[j..], elem.(data := elem.data + [Pair(key, UnescapeValue(tail[..j]))]));
        }
      }
    }
  }

  /** A parsed tag that is not a text is a good one. */
  lemma {:induction false} ParsedTag(raw: string)
    ensures var t := ParseTag(raw); t.Tag? && t.elem.typ != "text" ==> GoodTag(t.elem)
  {
    hide ParseData;
    var i := Span(raw, DELIMITERS);
    SpanIsClean(raw, DELIMITERS, ',');
    SpanIsClean(raw, DELIMITERS, ']');
    if i + 1 <= |raw| {
      ParsedKeys(raw[i..], Element(raw[..i], []));
    }
  }

  lemma {:induction false} ParsedElements(raw: string, e: Element)
    requires e in Parse(raw) && e.typ != "text"
    ensures GoodTag(e)
    decreases |raw|
  {
    hide TextSpan, ParseTag, GoodTag, UnescapeText;
    if raw != "" {
      ParseStep(raw);
      var i := TextSpan(raw);
      if i < |raw| && ParseTag(raw[i + 4..]).Tag? {
        var t := ParseTag(raw[i + 4..]);
        ParsedTag(raw[i + 4..]);
        if e in Parse(t.rest) {
          ParsedElements(t.rest, e);
        }
      }
    }
  }

  /**
   * Tags of type "text" in the input hold the one nonempty pair "text" and stand next to no other text;
   * `after` says that a text stands in front.
   */
  predicate TextsApart(raw: string, after: bool)
    decreases |raw|
  {
    raw != "" ==>
      var i := TextSpan(raw);
      && (after ==> i == 0)
      && (i < |raw| ==>
            match ParseTag(raw[i + 4..])
            case NoTag => true
            case Tag(e, rest) =>
              if e.typ == "text" then PlainText(e) && i == 0 && !after && TextsApart(rest, true)
              else TextsApart(rest, false))
  }

  /** Canonical, also behind a text. */
  ghost predicate CanonicalAfter(after: bool, es: seq<Element>) {
    Canonical(es) && (after && es != [] ==> es[0].typ != "text")
  }

  lemma {:induction false} CanonicalCons(e: Element, es: seq<Element>)
    ensures Canonical([e] + es) <==>
            && (if e.typ == "text" then PlainText(e) else GoodTag(e))
            && CanonicalAfter(e.typ == "text", es)
  {
    hide GoodTag, PlainText;
    var r := [e] + es;
    assert r[0] == e && forall i :: 0 < i < |r| ==> r[i] == es[i - 1];
    if Canonical(r) {
      CanonicalTail(r);
      assert r[1..] == es;
      assert if r[0].typ == "text" then PlainText(r[0]) else GoodTag(r[0]);
      if es != [] {
        assert r[1 - 1].typ != "text" || r[1].typ != "text";
      }
    }
  }

  /** The texts are apart exactly if the result of parsing is canonical. */
  lemma {:induction false} ParsedCanonicalExactly(raw: string, after: bool)
    ensures TextsApart(raw, after) <==> CanonicalAfter(after, Parse(raw))
    decreases |raw|
  {
    hide TextSpan, ParseTag, TextBefore, CanonicalAfter, GoodTag, UnescapeText, Parse, PlainText;
    if raw == "" {
      NothingAfter(after);
    } else {
      ParseStep(raw);
      TextsBefore(raw, after);
      var i := TextSpan(raw);
      if i < |raw| && ParseTag(raw[i + 4..]).Tag? {
        var t := ParseTag(raw[i + 4..]);
        ParsedTag(raw[i + 4..]);
        ParsedCanonicalExactly(t.rest, t.elem.typ == "text");
        TagAfterText(raw, after, t.elem, Parse(t.rest));
      }
    }
  }

  lemma {:induction false} NothingAfter(after: bool)
    ensures CanonicalAfter(after, Parse(""))
  {
  }

  lemma {:induction false} TextsBefore(raw: string, after: bool)
    requires raw != ""
    ensures CanonicalAfter(after, TextBefore(raw)) <==> (after ==> TextSpan(raw) == 0)
  {
    hide UnescapeText, TextSpan;
    TextBeforeIsCanonical(raw);
  }

  lemma {:induction false} TagAfterText(raw: string, after: bool, e: Element, es: seq<Element>)
    requires e.typ != "text" ==> GoodTag(e)
    ensures
      CanonicalAfter(after, TextBefore(raw) + [e] + es) <==>
      && (after ==> TextSpan(raw) == 0)
      && (e.typ == "text" ==> PlainText(e) && TextSpan(raw) == 0 && !after)
      && CanonicalAfter(e.typ == "text", es)
  {
    TextBeforeIsCanonical(raw);
    CanonicalCons(e, es);
    if TextBefore(raw) == [] {
      assert TextBefore(raw) + [e] + es == [e] + es;
    } else {
      var text := TextBefore(raw)[0];
      assert TextBefore(raw) + [e] + es == [text] + ([e] + es);
      CanonicalCons(text, [e] + es);
    }
    hide UnescapeText, Canonical, GoodTag, TextSpan;
  }

  lemma {:induction false} NoTextTagIsApart(raw: string)
    requires NoTextTag(raw)
    ensures TextsApart(raw, false)
    decreases |raw|
  {
    if raw != "" && TextSpan(raw) < |raw| && ParseTag(raw[TextSpan(raw) + 4..]).Tag? {
      NoTextTagIsApart(ParseTag(raw[TextSpan(raw) + 4..]).rest);
    }
  }

  /** Without a tag of type "text" the result is canonical. */
  lemma {:induction false} ParsedIsCanonical(raw: string)
    requires NoTextTag(raw)
    ensures Canonical(Parse(raw))
  {
    NoTextTagIsApart(raw);
    ParsedCanonicalExactly(raw, false);
  }

  lemma {:induction false} TextBeforeIsCanonical(raw: string)
    ensures Canonical(TextBefore(raw)) && (TextBefore(raw) == [] <==> TextSpan(raw) == 0)
    ensures TextBefore(raw) != [] ==>
              var v := UnescapeText(raw[..TextSpan(raw)]); v != "" && TextBefore(raw) == [Text(v)]
  {
    if TextSpan(raw) > 0 {
      UnescapeTextNotEmpty(raw[..TextSpan(raw)]);
    }
  }

  // The main results.

  /** A list comes back from its CQ codes exactly if it is canonical. */
  lemma {:induction false} ParsePrintExactly(es: seq<Element>)
    requires AllPrintable(es)
    ensures Parse(PrintAll(es)) == es <==> Canonical(es)
  {
    if Canonical(es) {
      NormalOfCanonical(es);
      ParseOfPrint("", es);
      assert EscapedText("") + PrintAll(es) == PrintAll(es);
    }
    if Parse(PrintAll(es)) == es {
      forall i | 0 <= i < |es| && es[i].typ != "text" ensures GoodTag(es[i]) {
        ParsedElements(PrintAll(es), es[i]);
      }
      ParseOfPrint("", es);
      assert EscapedText("") + PrintAll(es) == PrintAll(es);
      NormalIsCanonical(es);
    }
  }

  /**
   * Printing a parsed message and parsing it again changes nothing exactly if its text tags are such as the
   * printer's texts; otherwise the printer may not even have what to print.
   */
  lemma {:induction false} ParsePrintParse(raw: string)
    ensures AllPrintable(Parse(raw)) && Parse(PrintAll(Parse(raw))) == Parse(raw) <==> TextsApart(raw, false)
  {
    hide TextsApart, Parse, PrintAll;
    ParsedCanonicalExactly(raw, false);
    if AllPrintable(Parse(raw)) {
      ParsePrintExactly(Parse(raw));
    }
    if Canonical(Parse(raw)) {
      NormalOfCanonical(Parse(raw));
    }
  }
}
