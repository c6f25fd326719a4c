/** Cutting a URL apart inside its host names. */
module SplitUrl {
  /** A match of the host pattern: s[start..end]. The pattern matches no empty string. */
  datatype Span = Span(start: nat, end: nat)

  /** Matches as FindAllStringIndex reports them: nonempty, in order, apart. */
  predicate Ordered(spans: seq<Span>, length: nat) {
    && (forall i :: 0 <= i < |spans| ==> spans[i].start < spans[i].end <= length)
    && forall i :: 0 < i < |spans| ==> spans[i - 1].end <= spans[i].start
  }

  /** int(math.Abs(start-end)/1.5) + start, on reals. */
  function Cut(m: Span): int
    requires m.start < m.end
  {
    ((m.end - m.start) as real / 1.5).Floor + m.start
  }

  function Join(pieces: seq<string>): string {
    if pieces == [] then "" else Join(pieces[..|pieces| - 1]) + pieces[|pieces| - 1]
  }

  /** Two thirds of the match, rounded down, lie in front of the cut; some of it lies behind. */
  lemma {:induction false} CutInside(m: Span)
    requires m.start < m.end
    ensures Cut(m) == m.start + 2 * (m.end - m.start) / 3
    ensures m.start <= Cut(m) < m.end
  {
    var n := m.end - m.start;
    var x := n as real / 1.5;
    assert 3.0 * x == (2 * n) as real;
    var q := 2 * n / 3;
    assert 3 * q <= 2 * n < 3 * q + 3;
    assert (3 * q) as real <= 3.0 * x < (3 * q + 3) as real;
    assert q as real <= x < (q + 1) as real;
  }

  /** The pieces between the cuts: they join to the input, and each begins at the cut before it. */
  ghost predicate IsSplit(s: string, spans: seq<Span>, pieces: seq<string>) {
    && Ordered(spans, |s|)
    && |pieces| == |spans| + 1
    && Join(pieces) == s
    && forall i :: 0 <= i < |spans| ==> |Join(pieces[..i + 1])| == Cut(spans[i])
  }

  lemma {:induction false} JoinPrefix(pieces: seq<string>, k: nat)
    requires k <= |pieces|
    ensures Join(pieces[..k]) <= Join(pieces)
    decreases |pieces| - k
  {
    if k < |pieces| {
      JoinPrefix(pieces, k + 1);
      assert pieces[..k + 1][..k] == pieces[..k];
    } else {
      assert pieces[..k] == pieces;
    }
  }

  /** Piece k reaches from the cut before it to the cut behind it. */
  lemma {:induction false} PieceBetweenCuts(s: string, spans: seq<Span>, pieces: seq<string>, k: nat)
    requires IsSplit(s, spans, pieces) && k < |pieces|
    ensures
      var from := if k == 0 then 0 else Cut(spans[k - 1]);
      var to := if k == |spans| then |s| else Cut(spans[k]);
      0 <= from <= to <= |s| && pieces[k] == s[from..to]
  {
    JoinPrefix(pieces, k);
    JoinPrefix(pieces, k + 1);
    assert pieces[..k + 1][..k] == pieces[..k] && pieces[..k + 1][k] == pieces[k];
    assert pieces[..|pieces|] == pieces && pieces[..0] == [];
    assert k > 0 ==> |Join(pieces[..k - 1 + 1])| == Cut(spans[k - 1]);
    assert k < |spans| ==> |Join(pieces[..k + 1])| == Cut(spans[k]);
    hide Cut;
    assert Join(pieces[..k + 1]) == Join(pieces[..k]) + pieces[k];
    assert s[..|Join(pieces[..k + 1])|] == Join(pieces[..k + 1]);
  }

  method SplitURL(s: string, idx: seq<Span>) returns (result: seq<string>)
    requires Ordered(idx, |s|)
    ensures IsSplit(s, idx, result)
  {
    result := [];
    if |idx| == 0 {
      result := [s];
      assert Join(result[..0]) == "";
      return;
    }
    var last := 0;
    for i := 0 to |idx|
      invariant |result| == i && last <= |s| && Join(result) == s[..last]
      invariant if i == 0 then last == 0 else last == Cut(idx[i - 1])
      invariant forall k :: 0 <= k < i ==> |Join(result[..k + 1])| == Cut(idx[k])
    {
      CutInside(idx[i]);
      if i > 0 {
        CutInside(idx[i - 1]);
      }
      var m := Cut(idx[i]);
      ghost var before := result;
      result := result + [s[last..m]];
      assert result[..|result| - 1] == before;
      assert s[..last] + s[last..m] == s[..m];
      forall k | 0 <= k < i ensures |Join(result[..k + 1])| == Cut(idx[k]) {
        assert result[..k + 1] == before[..k + 1];
      }
      assert result[..i + 1] == result;
      last := m;
    }
    ghost var before := result;
    result := result + [s[last..]];
    assert result[..|result| - 1] == before;
    assert s[..last] + s[last..] == s;
    forall k | 0 <= k < |idx| ensures |Join(result[..k + 1])| == Cut(idx[k]) {
      assert result[..k + 1] == before[..k + 1];
    }
  }

  /** Every cut lies inside its own match and no other one. */
  lemma {:induction false} OneCutEach(spans: seq<Span>, length: nat, i: nat, j: nat)
    requires Ordered(spans, length) && i < |spans| && j < |spans|
    ensures spans[i].start <= Cut(spans[i]) < spans[i].end
    ensures i < j ==> Cut(spans[i]) < spans[j].start
    ensures i > j ==> Cut(spans[i]) >= spans[j].end
  {
    CutInside(spans[i]);
    if i < j {
      SpansApart(spans, length, i, j);
    } else if i > j {
      SpansApart(spans, length, j, i);
    }
  }

  lemma {:induction false} SpansApart(spans: seq<Span>, length: nat, i: nat, j: nat)
    requires Ordered(spans, length) && i < j < |spans|
    ensures spans[i].end <= spans[j].start
    decreases j
  {
    if i < j - 1 {
      SpansApart(spans, length, i, j - 1);
    }
  }
}
