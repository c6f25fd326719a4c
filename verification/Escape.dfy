/** Escaping of CQ-code text and values. */
module Escape {
  import opened Utf8

  const TEXT_SPECIALS: set<char> := {'&', '[', ']'}
  const VALUE_SPECIALS: set<char> := {'&', '[', ']', ','}

  function Entity(c: char): string {
    if c == '&' then "&amp;"
    else if c == '[' then "&#91;"
    else if c == ']' then "&#93;"
    else if c == ',' then "&#44;"
    else [c]
  }

  /** s with the characters of `specials` replaced by their entities, one by one. */
  function Escaped(specials: set<char>, s: string): string {
    if s == "" then ""
    else (if s[0] in specials then Entity(s[0]) else [s[0]]) + Escaped(specials, s[1..])
  }

  /** strings.ReplaceAll for a nonempty pattern: leftmost matches that do not overlap. */
  function ReplaceAll(s: string, pat: string, rep: string): string
    requires pat != ""
    decreases |s|
  {
    if s == "" then ""
    else if pat <= s then rep + ReplaceAll(s[|pat|..], pat, rep)
    else [s[0]] + ReplaceAll(s[1..], pat, rep)
  }

  function EscapedText(s: string): string {
    Escaped(TEXT_SPECIALS, s)
  }

  function EscapeValue(s: string): string {
    ReplaceAll(EscapedText(s), ",", "&#44;")
  }

  function UnescapeText(s: string): string {
    ReplaceAll(ReplaceAll(ReplaceAll(s, "&#91;", "["), "&#93;", "]"), "&amp;", "&")
  }

  function UnescapeValue(s: string): string {
    UnescapeText(ReplaceAll(s, "&#44;", ","))
  }

  // Replacing, one chunk at a time.

  lemma {:induction false} SkipPlain(a: string, rest: string, pat: string, rep: string)
    requires pat != "" && pat[0] !in a
    ensures ReplaceAll(a + rest, pat, rep) == a + ReplaceAll(rest, pat, rep)
  {
    if a == "" {
      assert a + rest == rest;
    } else {
      assert (a + rest)[0] == a[0] && (a + rest)[1..] == a[1..] + rest;
      SkipPlain(a[1..], rest, pat, rep);
    }
  }

  /** A chunk that differs from the pattern within both, and does not begin it again later, is skipped. */
  lemma {:induction false} SkipChunk(a: string, rest: string, pat: string, rep: string, k: nat)
    requires k < |a| && k < |pat| && a[k] != pat[k]
    requires pat[0] !in a[1..]
    ensures ReplaceAll(a + rest, pat, rep) == a + ReplaceAll(rest, pat, rep)
  {
    assert (a + rest)[k] != pat[k];
    assert (a + rest)[1..] == a[1..] + rest;
    SkipPlain(a[1..], rest, pat, rep);
  }

  lemma {:induction false} TakeChunk(rest: string, pat: string, rep: string)
    requires pat != ""
    ensures ReplaceAll(pat + rest, pat, rep) == rep + ReplaceAll(rest, pat, rep)
  {
    assert (pat + rest)[|pat|..] == rest;
  }

  /** Escaping one more character; the ampersand has to be the first one. */
  lemma {:induction false} EscapeOneMore(specials: set<char>, c: char, s: string)
    requires specials + {c} <= VALUE_SPECIALS && c !in specials
    requires c == '&' ==> specials == {}
    ensures ReplaceAll(Escaped(specials, s), [c], Entity(c)) == Escaped(specials + {c}, s)
  {
    if s != "" {
      EscapeOneMore(specials, c, s[1..]);
      var rest := Escaped(specials, s[1..]);
      if s[0] == c {
        TakeChunk(rest, [c], Entity(c));
      } else if s[0] in specials {
        assert c !in Entity(s[0]);
        SkipPlain(Entity(s[0]), rest, [c], Entity(c));
      } else {
        SkipPlain([s[0]], rest, [c], Entity(c));
      }
    }
  }

  /** Undoing one escape while the ampersand is still escaped; the ampersand itself has to be the last one. */
  lemma {:induction false} UnescapeOneLess(specials: set<char>, c: char, s: string)
    requires specials <= VALUE_SPECIALS && '&' in specials && c in specials
    ensures ReplaceAll(Escaped(specials, s), Entity(c), [c]) == Escaped(specials - {c}, s)
  {
    if s != "" {
      UnescapeOneLess(specials, c, s[1..]);
      var rest := Escaped(specials, s[1..]);
      if s[0] == c {
        TakeChunk(rest, Entity(c), [c]);
      } else if s[0] in specials {
        EntitiesDiffer(s[0], c);
        var k :| 0 <= k < 5 && Entity(s[0])[k] != Entity(c)[k];
        SkipChunk(Entity(s[0]), rest, Entity(c), [c], k);
      } else {
        SkipPlain([s[0]], rest, Entity(c), [c]);
      }
    }
  }

  lemma {:induction false} EntitiesDiffer(c: char, d: char)
    requires {c, d} <= VALUE_SPECIALS && c != d
    ensures |Entity(c)| == |Entity(d)| == 5 && Entity(c)[0] == Entity(d)[0] == '&' && '&' !in Entity(c)[1..]
    ensures exists k :: 0 <= k < 5 && Entity(c)[k] != Entity(d)[k]
  {
    if '&' in {c, d} {
      assert Entity(c)[1] != Entity(d)[1];
    } else if ',' in {c, d} {
      assert Entity(c)[2] != Entity(d)[2];
    } else {
      assert Entity(c)[3] != Entity(d)[3];
    }
  }

  lemma {:induction false} EscapedNothing(s: string)
    ensures Escaped({}, s) == s
  {
    if s != "" {
      EscapedNothing(s[1..]);
    }
  }

  /** One character at a time, or all ampersands, then all opening, then all closing brackets: the same. */
  lemma {:induction false} EscapeTextIsThreeReplacements(s: string)
    ensures EscapedText(s) == ReplaceAll(ReplaceAll(ReplaceAll(s, "&", "&amp;"), "[", "&#91;"), "]", "&#93;")
  {
    EscapedNothing(s);
    EscapeOneMore({}, '&', s);
    EscapeOneMore({'&'}, '[', s);
    EscapeOneMore({'&', '['}, ']', s);
    assert {} + {'&'} == {'&'} && {'&'} + {'['} == {'&', '['} && {'&', '['} + {']'} == TEXT_SPECIALS;
  }

  lemma {:induction false} EscapeValueIsEscaped(s: string)
    ensures EscapeValue(s) == Escaped(VALUE_SPECIALS, s)
  {
    EscapeOneMore(TEXT_SPECIALS, ',', s);
    assert TEXT_SPECIALS + {','} == VALUE_SPECIALS;
  }

  /** Every text survives, also one that contains entities already. */
  lemma {:induction false} UnescapeEscapeText(s: string)
    ensures UnescapeText(EscapedText(s)) == s
  {
    UnescapeOneLess(TEXT_SPECIALS, '[', s);
    UnescapeOneLess({'&', ']'}, ']', s);
    UnescapeOneLess({'&'}, '&', s);
    EscapedNothing(s);
    assert TEXT_SPECIALS - {'['} == {'&', ']'} && {'&', ']'} - {']'} == {'&'} && {'&'} - {'&'} == {};
  }

  lemma {:induction false} UnescapeEscapeValue(s: string)
    ensures UnescapeValue(EscapeValue(s)) == s
  {
    EscapeValueIsEscaped(s);
    UnescapeOneLess(VALUE_SPECIALS, ',', s);
    assert VALUE_SPECIALS - {','} == TEXT_SPECIALS;
    UnescapeEscapeText(s);
  }

  /** No special character but the ampersand is left. */
  lemma {:induction false} EscapedIsFree(specials: set<char>, s: string, c: char)
    requires specials <= VALUE_SPECIALS && c in specials && c != '&'
    ensures c !in Escaped(specials, s)
  {
    if s != "" {
      EscapedIsFree(specials, s[1..], c);
    }
  }

  lemma {:induction false} EscapedConcat(specials: set<char>, a: string, b: string)
    ensures Escaped(specials, a + b) == Escaped(specials, a) + Escaped(specials, b)
  {
    if a == "" {
      assert a + b == b;
    } else {
      assert (a + b)[1..] == a[1..] + b;
      EscapedConcat(specials, a[1..], b);
    }
  }

  lemma {:induction false} ReplaceAllNotEmpty(s: string, pat: string, rep: string)
    requires s != "" && pat != "" && rep != ""
    ensures ReplaceAll(s, pat, rep) != ""
  {
  }

  lemma {:induction false} UnescapeTextNotEmpty(s: string)
    requires s != ""
    ensures UnescapeText(s) != ""
  {
    var t := ReplaceAll(s, "&#91;", "[");
    ReplaceAllNotEmpty(s, "&#91;", "[");
    ReplaceAllNotEmpty(t, "&#93;", "]");
    ReplaceAllNotEmpty(ReplaceAll(t, "&#93;", "]"), "&amp;", "&");
  }

  // Replacing, without looking at how it is done.

  /** The pattern occurs nowhere in s. */
  ghost predicate FreeOf(s: string, pat: string) {
    forall i :: 0 <= i <= |s| ==> !(pat <= s[i..])
  }

  /** Without an occurrence nothing changes. */
  lemma {:induction false} NothingToReplace(s: string, pat: string, rep: string)
    requires pat != "" && FreeOf(s, pat)
    ensures ReplaceAll(s, pat, rep) == s
  {
    if s != "" {
      assert s[0..] == s;
      assert forall i :: 0 <= i <= |s[1..]| ==> s[1..][i..] == s[i + 1..];
      NothingToReplace(s[1..], pat, rep);
    }
  }

  /** No occurrence begins before i. */
  ghost predicate FreeBefore(s: string, pat: string, i: nat) {
    forall k :: 0 <= k < i && k <= |s| ==> !(pat <= s[k..])
  }

  /** The first occurrence is replaced, and replacing goes on behind it. */
  lemma {:induction false} FirstReplaced(s: string, pat: string, rep: string, i: nat)
    requires pat != "" && i <= |s| && pat <= s[i..] && FreeBefore(s, pat, i)
    ensures ReplaceAll(s, pat, rep) == s[..i] + rep + ReplaceAll(s[i..][|pat|..], pat, rep)
    decreases i
  {
    hide ReplaceAll, FreeBefore;
    if i == 0 {
      assert s[0..] == s && s[..0] + rep == rep;
      ReplaceFront(s, pat, rep);
    } else {
      FreeBehind(s, pat, i);
      ReplaceLater(s, pat, rep);
      assert s[1..][i - 1..] == s[i..];
      FirstReplaced(s[1..], pat, rep, i - 1);
      FrontJoined(s, i, rep, ReplaceAll(s[i..][|pat|..], pat, rep));
    }
  }

  lemma {:induction false} FreeBehind(s: string, pat: string, i: nat)
    requires 0 < i <= |s| && FreeBefore(s, pat, i)
    ensures !(pat <= s) && FreeBefore(s[1..], pat, i - 1)
  {
    assert s[0..] == s;
    forall k | 0 <= k < i - 1 ensures !(pat <= s[1..][k..]) {
      assert s[1..][k..] == s[k + 1..];
    }
  }

  lemma {:induction false} FrontJoined(s: string, i: nat, rep: string, rest: string)
    requires 0 < i <= |s|
    ensures [s[0]] + (s[1..][..i - 1] + rep + rest) == s[..i] + rep + rest
  {
    assert [s[0]] + s[1..][..i - 1] == s[..i];
  }

  lemma {:induction false} ReplaceFront(s: string, pat: string, rep: string)
    requires pat != "" && pat <= s
    ensures ReplaceAll(s, pat, rep) == rep + ReplaceAll(s[|pat|..], pat, rep)
  {
  }

  lemma {:induction false} ReplaceLater(s: string, pat: string, rep: string)
    requires pat != "" && s != "" && !(pat <= s)
    ensures ReplaceAll(s, pat, rep) == [s[0]] + ReplaceAll(s[1..], pat, rep)
  {
  }

  /** A text without entities is its own meaning. */
  lemma {:induction false} NothingToUnescape(s: string)
    requires FreeOf(s, "&#91;") && FreeOf(s, "&#93;") && FreeOf(s, "&amp;")
    ensures UnescapeText(s) == s
    ensures FreeOf(s, "&#44;") ==> UnescapeValue(s) == s
  {
    hide FreeOf, ReplaceAll;
    NothingToReplace(s, "&#91;", "[");
    NothingToReplace(s, "&#93;", "]");
    NothingToReplace(s, "&amp;", "&");
    if FreeOf(s, "&#44;") {
      NothingToReplace(s, "&#44;", ",");
    }
  }

  /** Values are escaped by four replacements in turn. */
  lemma {:induction false} EscapeValueIsFourReplacements(s: string)
    ensures EscapeValue(s) ==
            ReplaceAll(ReplaceAll(ReplaceAll(ReplaceAll(s, "&", "&amp;"), "[", "&#91;"), "]", "&#93;"), ",", "&#44;")
  {
    hide Escaped, ReplaceAll;
    EscapeTextIsThreeReplacements(s);
  }

  // The scan-and-splice loop.

  /** strings.Count for a single character. */
  function Count(s: string, c: char): nat {
    if s == "" then 0 else (if s[0] == c then 1 else 0) + Count(s[1..], c)
  }

  function SpecialCount(s: string): nat {
    Count(s, '&') + Count(s, '[') + Count(s, ']')
  }

  lemma {:induction false} NoSpecials(s: string)
    requires SpecialCount(s) == 0
    ensures EscapedText(s) == s && forall c :: c in s ==> c !in TEXT_SPECIALS
  {
    if s != "" {
      NoSpecials(s[1..]);
    }
  }

  lemma {:induction false} HasSpecial(s: string)
    requires SpecialCount(s) > 0
    ensures exists k :: 0 <= k < |s| && s[k] in TEXT_SPECIALS
  {
    if s[0] !in TEXT_SPECIALS {
      HasSpecial(s[1..]);
      var k :| 0 <= k < |s[1..]| && s[1..][k] in TEXT_SPECIALS;
      assert s[k + 1] in TEXT_SPECIALS;
    }
  }

  lemma {:induction false} PlainPrefix(s: string, n: nat)
    requires n <= |s| && forall k :: 0 <= k < n ==> s[k] !in TEXT_SPECIALS
    ensures SpecialCount(s) == SpecialCount(s[n..])
    ensures EscapedText(s[..n]) == s[..n]
  {
    if n > 0 {
      PlainPrefix(s[1..], n - 1);
      assert s[1..][..n - 1] == s[..n][1..] && s[1..][n - 1..] == s[n..];
    }
  }

  /** `range` steps by whole runes, and stops at the first that is special. */
  method FirstSpecial(s: string) returns (index: nat)
    ensures index <= |s| && forall k :: 0 <= k < index ==> s[k] !in TEXT_SPECIALS
    ensures index < |s| ==> s[index] in TEXT_SPECIALS
  {
    index := 0;
    while index < |s|
      invariant index <= |s| && forall k :: 0 <= k < index ==> s[k] !in TEXT_SPECIALS
    {
      var (r, size) := DecodeRune(s[index..]);
      AsciiRune(s[index..]);
      if r in {'&' as int, '[' as int, ']' as int} {
        return;
      }
      RuneIsPlain(s[index..]);
      assert forall k :: index <= k < index + size ==> s[k] == s[index..][k - index];
      index := index + size;
    }
  }

  lemma {:induction false} RuneIsPlain(s: string)
    requires s != "" && DecodeRune(s).0 !in {'&' as int, '[' as int, ']' as int}
    ensures forall k :: 0 <= k < DecodeRune(s).1 ==> s[k] !in TEXT_SPECIALS
  {
    AsciiRune(s);
    forall k | 0 <= k < DecodeRune(s).1 && s[0] as int >= 0x80 ensures s[k] !in TEXT_SPECIALS {
      LongRunesAreNotAscii(s, k);
    }
  }

  lemma {:induction false} SpliceCount(s: string, start: nat, j: nat)
    requires start <= j < |s| && s[j] in TEXT_SPECIALS
    requires forall k :: start <= k < j ==> s[k] !in TEXT_SPECIALS
    ensures SpecialCount(s[start..]) == 1 + SpecialCount(s[j + 1..])
  {
    PlainPrefix(s[start..], j - start);
    assert s[start..][j - start..] == s[j..] && s[j..][1..] == s[j + 1..];
  }

  lemma {:induction false} EscapeSplice(s: string, start: nat, j: nat)
    requires start <= j < |s| && s[j] in TEXT_SPECIALS
    requires forall k :: start <= k < j ==> s[k] !in TEXT_SPECIALS
    ensures EscapedText(s[..j + 1]) == EscapedText(s[..start]) + s[start..j] + Entity(s[j])
    ensures SpecialCount(s[start..]) == 1 + SpecialCount(s[j + 1..])
  {
    hide Entity, Count, Escaped, SpecialCount;
    SpliceCount(s, start, j);
    OneSpecial(s[j]);
    PlainPrefix(s[start..], j - start);
    assert s[start..][..j - start] == s[start..j];
    EscapedConcat(TEXT_SPECIALS, s[..start], s[start..j]);
    EscapedConcat(TEXT_SPECIALS, s[..j], [s[j]]);
    assert s[..start] + s[start..j] == s[..j] && s[..j] + [s[j]] == s[..j + 1];
  }

  lemma {:induction false} OneSpecial(c: char)
    requires c in TEXT_SPECIALS
    ensures EscapedText([c]) == Entity(c)
  {
    hide Entity;
    assert [c][1..] == "";
    assert Escaped(TEXT_SPECIALS, [c]) == Entity(c) + Escaped(TEXT_SPECIALS, "");
  }

  /** Splices the entities in, one counted special character after the other. */
  method EscapeText(s: string) returns (r: string)
    ensures r == EscapedText(s)
  {
    hide EscapedText;
    var count := Count(s, '&');
    count := count + Count(s, '[');
    count := count + Count(s, ']');
    if count == 0 {
      NoSpecials(s);
      return s;
    }
    var b := "";
    var start := 0;
    assert EscapedText("") == "" by {
      NoSpecials("");
    }
    for i := 0 to count
      invariant start <= |s| && b == EscapedText(s[..start])
      invariant SpecialCount(s[start..]) == count - i
    {
      HasSpecial(s[start..]);
      var n := FirstSpecial(s[start..]);
      var j := start + n;
      b := b + s[start..j];
      match s[j] {
        case '&' => b := b + "&amp;";
        case '[' => b := b + "&#91;";
        case ']' => b := b + "&#93;";
        case _ =>
      }
      EscapeSplice(s, start, j);
      start := j + 1;
    }
    NoSpecials(s[start..]);
    EscapedJoin(s, start);
    r := b + s[start..];
  }

  lemma {:induction false} EscapedJoin(s: string, n: nat)
    requires n <= |s|
    ensures EscapedText(s) == EscapedText(s[..n]) + EscapedText(s[n..])
  {
    EscapedConcat(TEXT_SPECIALS, s[..n], s[n..]);
    assert s[..n] + s[n..] == s;
  }
}
