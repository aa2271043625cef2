/** The opaque-span scanner: after a `div` or `url` attribute, copy the text verbatim up to
    and including the next single quote, without classifying anything inside it. */
module Scanner {
  import opened PyText

  /** The fixed number of characters skipped before an opaque span: the `: '` separator. */
  const HtmlSkip: nat := 3

  function Max(a: int, b: int): int { if a < b then b else a }

  /** The span copied from index `k` on, as get_html's loop builds it: characters are copied
      until a quote has been copied or the text ends. */
  function HtmlFrom(s: string, k: nat): (r: (nat, string))
    decreases |s| - k
    ensures r.0 >= k
    ensures k <= |s| ==> r.0 <= |s| && |r.1| == r.0 - k + (if r.0 < |s| then 1 else 0)
  {
    if k >= |s| then (k, "")
    else if s[k] == Quote then (k, [s[k]])
    else
      var rest := HtmlFrom(s, k + 1);
      (rest.0, [s[k]] + rest.1)
  }

  /** The copy from `k` stops on the first quote at or after `k`, which it includes, or at the
      end of the text, and holds exactly the characters in between. */
  lemma {:induction false} HtmlFromStopsAtQuote(s: string, k: nat)
    decreases |s| - k
    ensures HtmlFrom(s, k).0 >= k
    ensures forall m :: k <= m < HtmlFrom(s, k).0 && m < |s| ==> s[m] != Quote
    ensures HtmlFrom(s, k).0 < |s| ==> s[HtmlFrom(s, k).0] == Quote
    ensures HtmlFrom(s, k).0 < |s| ==> HtmlFrom(s, k).1 == s[k..HtmlFrom(s, k).0 + 1]
    ensures HtmlFrom(s, k).0 >= |s| ==> HtmlFrom(s, k).0 == Max(k, |s|)
    ensures HtmlFrom(s, k).0 >= |s| ==> HtmlFrom(s, k).1 == (if k <= |s| then s[k..] else "")
  {
    if k < |s| && s[k] != Quote {
      HtmlFromStopsAtQuote(s, k + 1);
      var rest := HtmlFrom(s, k + 1);
      if rest.0 < |s| {
        assert s[k..rest.0 + 1] == [s[k]] + s[k + 1..rest.0 + 1];
      } else {
        assert s[k..] == [s[k]] + s[k + 1..];
      }
    }
  }

  /** The opaque span that get_html returns for a cursor at `i`: the index of the closing
      quote (or the end) and the text copied from i + 3 up to it. The span's only quote is
      its last character. */
  function HtmlSpan(s: string, i: nat): (r: (nat, string))
    ensures r.0 >= i + HtmlSkip
    ensures forall m :: i + HtmlSkip <= m < r.0 && m < |s| ==> s[m] != Quote
    ensures forall m :: 0 <= m < |r.1| - 1 ==> r.1[m] != Quote
    ensures r.0 < |s| ==> s[r.0] == Quote && r.1 == s[i + HtmlSkip..r.0 + 1]
    ensures r.0 >= |s| ==> Quote !in r.1 && r.0 == Max(i + HtmlSkip, |s|)
    ensures r.0 >= |s| ==> r.1 == (if i + HtmlSkip <= |s| then s[i + HtmlSkip..] else "")
  {
    HtmlFromStopsAtQuote(s, i + HtmlSkip);
    var r := HtmlFrom(s, i + HtmlSkip);
    assert forall m :: 0 <= m < |r.1| - 1 ==> r.1[m] == s[i + HtmlSkip + m];
    r
  }

  /** get_html: skip the separator, then copy characters up to and including a quote. */
  method GetHtml(s: string, i: nat) returns (j: nat, d: string)
    ensures (j, d) == HtmlSpan(s, i)
  {
    ghost var span := HtmlFrom(s, i + HtmlSkip);
    j := i + HtmlSkip;
    d := "";
    while j < |s|
      invariant j >= i + HtmlSkip
      invariant HtmlFrom(s, j).0 == span.0
      invariant d + HtmlFrom(s, j).1 == span.1
      decreases |s| - j
    {
      var rest := HtmlFrom(s, j);
      d := d + [s[j]];
      if s[j] == Quote {
        assert rest == (j, [s[j]]);
        break;
      }
      assert rest == (HtmlFrom(s, j + 1).0, [s[j]] + HtmlFrom(s, j + 1).1);
      j := j + 1;
    }
    assert j >= |s| ==> HtmlFrom(s, j) == (j, "");
    assert d == span.1;
  }

  /** get_next_quote: the index of the first quote after the first character, or the length
      of the text (at least 1) when there is none. Nothing in the viewer calls it. */
  method GetNextQuote(s: string) returns (i: nat)
    ensures i >= 1
    ensures i < |s| ==> s[i] == Quote
    ensures i >= |s| ==> i == Max(1, |s|)
    ensures forall m :: 1 <= m < i && m < |s| ==> s[m] != Quote
  {
    i := 1;
    while i < |s|
      invariant 1 <= i <= Max(1, |s|)
      invariant forall m :: 1 <= m < i ==> s[m] != Quote
    {
      if s[i] == Quote {
        break;
      }
      i := i + 1;
    }
  }
}
