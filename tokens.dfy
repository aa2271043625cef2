/** Tokens: the objects the tokenizer creates and classifies, and the values they hold. */
module Tokens {
  import opened PyText

  /** A token's type. `Unset` is the empty type of a token that was never classified; such
      tokens are dropped by the tokenizer. */
  datatype Kind = Unset | Section | List | Attribute | Value

  /** What a token holds once classified: its type and its stripped text, quotes included. */
  datatype TokenValue = TokenValue(kind: Kind, text: string)

  /** The value of a freshly created token. */
  const Blank: TokenValue := TokenValue(Unset, "")

  /** A token object. It is created blank and classified at most once, by Update. The
      diagnostic start and end fields of the viewer's tokens are not modelled. */
  class Token {
    var kind: Kind
    var data: string

    constructor ()
      ensures kind == Unset && data == ""
    {
      kind := Unset;
      data := "";
    }

    /** Classify this token: store its type and its text stripped of surrounding whitespace. */
    method Update(k: Kind, d: string)
      modifies this
      ensures kind == k && data == Strip(d)
    {
      kind := k;
      data := Strip(d);
    }

    /** The token's text without its single quotes: every other character is kept, as many
        times as it occurs, and the part cut from any prefix comes before the part cut from the
        rest. */
    function GetData(): (r: string)
      reads this
      ensures Quote !in r
      ensures multiset(r) == multiset(data)[Quote := 0]
      ensures forall k :: 0 <= k <= |data| ==> r == Unquote(data[..k]) + Unquote(data[k..])
    {
      UnquoteRemovesOnlyQuotes(data);
      assert forall k :: 0 <= k <= |data| ==> Unquote(data) == Unquote(data[..k]) + Unquote(data[k..]) by {
        forall k | 0 <= k <= |data|
          ensures Unquote(data) == Unquote(data[..k]) + Unquote(data[k..])
        {
          assert data == data[..k] + data[k..];
          UnquoteAppend(data[..k], data[k..]);
        }
      }
      Unquote(data)
    }

    function Value(): TokenValue
      reads this
    {
      TokenValue(kind, data)
    }
  }

  /** The values held by a list of token objects, in list order. */
  function Values(ts: seq<Token>): (vs: seq<TokenValue>)
    reads ts
    ensures |vs| == |ts|
    ensures forall k :: 0 <= k < |ts| ==> vs[k] == ts[k].Value()
  {
    seq(|ts|, k requires 0 <= k < |ts| reads ts => ts[k].Value())
  }

  /** Appending a token object appends its value. */
  lemma ValuesAppend(ts: seq<Token>, t: Token)
    ensures Values(ts + [t]) == Values(ts) + [t.Value()]
  {
  }

  /** The last token emitted so far, or a blank token when there is none. */
  function GetPreviousToken(tl: seq<TokenValue>): (p: TokenValue)
    ensures |tl| > 0 ==> p == tl[|tl| - 1]
    ensures tl == [] ==> p == Blank
  {
    if |tl| > 0 then tl[|tl| - 1] else Blank
  }
}
