/** The projector: turns the token list into the rows of the two-column view. */
module Projector {
  import opened PyText
  import opened Tokens

  /** One row of the view: a label such as `Name:` and the text shown beside it. */
  datatype Row = Row(caption: string, value: string)

  /** The label of an attribute or section row: its unquoted text, title-cased, and a colon. */
  function Label(t: TokenValue): (r: string)
    ensures |r| == |Unquote(t.text)| + 1 && r[|r| - 1] == ':'
    ensures Quote !in r
  {
    UnquoteRemovesOnlyQuotes(t.text);
    TitleKeepsNonLetters(Unquote(t.text));
    Title(Unquote(t.text)) + ":"
  }

  /** The rows for a token list. An attribute takes the next token as its value and consumes
      it; an attribute with no next token shows its own text. A section is a header with an
      empty value, and every other token (values and lists alike) is a row without a label. */
  function Table(ts: seq<TokenValue>): (r: seq<Row>)
    decreases |ts|
    ensures |r| <= |ts|
    ensures ts != [] ==> r != []
  {
    if ts == [] then []
    else if ts[0].kind == Attribute then
      if |ts| > 1 then [Row(Label(ts[0]), Unquote(ts[1].text))] + Table(ts[2..])
      else [Row(Label(ts[0]), Unquote(ts[0].text))]
    else if ts[0].kind == Section then [Row(Label(ts[0]), "")] + Table(ts[1..])
    else [Row("", Unquote(ts[0].text))] + Table(ts[1..])
  }

  /** How the projector groups the tokens: an attribute and the token after it, or one token. */
  function Groups(ts: seq<TokenValue>): seq<seq<TokenValue>>
    decreases |ts|
  {
    if ts == [] then []
    else if ts[0].kind == Attribute && |ts| > 1 then [ts[..2]] + Groups(ts[2..])
    else [ts[..1]] + Groups(ts[1..])
  }

  function Flatten(gs: seq<seq<TokenValue>>): seq<TokenValue> {
    if gs == [] then [] else gs[0] + Flatten(gs[1..])
  }

  /** The row of one group. */
  function RowOf(g: seq<TokenValue>): Row
    requires 1 <= |g| <= 2
  {
    if g[0].kind == Attribute then Row(Label(g[0]), Unquote(g[|g| - 1].text))
    else if g[0].kind == Section then Row(Label(g[0]), "")
    else Row("", Unquote(g[0].text))
  }

  /** The groups cut the token list into consecutive pieces. */
  lemma {:induction false} GroupsPartition(ts: seq<TokenValue>)
    decreases |ts|
    ensures Flatten(Groups(ts)) == ts
  {
    if ts != [] {
      var n := if ts[0].kind == Attribute && |ts| > 1 then 2 else 1;
      GroupsPartition(ts[n..]);
      assert ts == ts[..n] + ts[n..];
    }
  }

  /** A group is a pair exactly when it starts with an attribute that has a next token, and a
      single token otherwise. */
  lemma {:induction false} GroupsArePairsAfterAttributes(ts: seq<TokenValue>)
    decreases |ts|
    ensures forall k :: 0 <= k < |Groups(ts)| ==> 1 <= |Groups(ts)[k]| <= 2
    ensures forall k :: 0 <= k < |Groups(ts)| && |Groups(ts)[k]| == 2 ==> Groups(ts)[k][0].kind == Attribute
    ensures forall k :: 0 <= k < |Groups(ts)| - 1 && Groups(ts)[k][0].kind == Attribute ==> |Groups(ts)[k]| == 2
  {
    if ts != [] {
      var n := if ts[0].kind == Attribute && |ts| > 1 then 2 else 1;
      GroupsArePairsAfterAttributes(ts[n..]);
      var gs := Groups(ts);
      assert gs == [ts[..n]] + Groups(ts[n..]);
      assert forall k :: 1 <= k < |gs| ==> gs[k] == Groups(ts[n..])[k - 1];
    }
  }

  /** The projector makes exactly one row per group, in order. */
  lemma {:induction false} TableOneRowPerGroup(ts: seq<TokenValue>)
    decreases |ts|
    ensures |Table(ts)| == |Groups(ts)|
    ensures forall k :: 0 <= k < |Table(ts)| ==>
              1 <= |Groups(ts)[k]| <= 2 && Table(ts)[k] == RowOf(Groups(ts)[k])
  {
    if ts != [] {
      var n := if ts[0].kind == Attribute && |ts| > 1 then 2 else 1;
      TableOneRowPerGroup(ts[n..]);
      var gs, rows := Groups(ts), Table(ts);
      var gs', rows' := Groups(ts[n..]), Table(ts[n..]);
      assert gs == [ts[..n]] + gs';
      if ts[0].kind == Attribute && |ts| == 1 {
        assert rows == [RowOf(ts[..1])];
        assert gs' == [];
      } else {
        assert rows == [RowOf(ts[..n])] + rows';
      }
      forall k | 0 <= k < |rows|
        ensures 1 <= |gs[k]| <= 2 && rows[k] == RowOf(gs[k])
      {
        if k > 0 {
          assert rows[k] == rows'[k - 1] && gs[k] == gs'[k - 1];
        }
      }
    }
  }

  /** There are at most as many rows as tokens and at least half as many. */
  lemma {:induction false} TableSize(ts: seq<TokenValue>)
    decreases |ts|
    ensures |Table(ts)| <= |ts| <= 2 * |Table(ts)|
  {
    if ts != [] {
      if ts[0].kind == Attribute && |ts| > 1 {
        TableSize(ts[2..]);
      } else if ts[0].kind != Attribute {
        TableSize(ts[1..]);
      }
    }
  }

  /** Every token that is not an attribute makes a row of its own: without attributes there is
      one row per token. */
  lemma {:induction false} TableWithoutAttributes(ts: seq<TokenValue>)
    requires forall k :: 0 <= k < |ts| ==> ts[k].kind != Attribute
    decreases |ts|
    ensures |Table(ts)| == |ts|
  {
    if ts != [] {
      TableWithoutAttributes(ts[1..]);
    }
  }

  /** No row shows a single quote: labels and values are taken from unquoted text. */
  lemma {:induction false} TableHasNoQuotes(ts: seq<TokenValue>)
    decreases |ts|
    ensures forall k :: 0 <= k < |Table(ts)| ==>
              Quote !in Table(ts)[k].caption && Quote !in Table(ts)[k].value
  {
    if ts != [] {
      var t := ts[0];
      UnquoteRemovesOnlyQuotes(t.text);
      TitleKeepsNonLetters(Unquote(t.text));
      assert Quote !in Label(t);
      if |ts| > 1 {
        UnquoteRemovesOnlyQuotes(ts[1].text);
      }
      var n := if t.kind == Attribute then 2 else 1;
      if n <= |ts| {
        TableHasNoQuotes(ts[n..]);
      }
    }
  }

  /** One iteration of create_table's loop at `index`: the row it appends, and the index of
      the last token that row uses (the attribute's value when there is one). */
  method RowAt(tokens: seq<Token>, index: nat) returns (row: Row, last: nat)
    requires index < |tokens|
    ensures index <= last < |tokens|
    ensures Table(Values(tokens)[index..]) == [row] + Table(Values(tokens)[last + 1..])
  {
    ghost var rest := Values(tokens)[index..];
    last := index;
    var token := tokens[index];
    assert rest[0] == token.Value();
    if token.kind == Attribute {
      var s := Title(token.GetData());
      assert s + ":" == Label(rest[0]);
      if index < |tokens| - 1 {
        last := index + 1;
        token := tokens[last];
        assert rest[1] == token.Value();
      }
      row := Row(s + ":", token.GetData());
    } else if token.kind == Section {
      row := Row(Title(token.GetData()) + ":", "");
    } else {
      row := Row("", token.GetData());
    }
    assert rest[last + 1 - index..] == Values(tokens)[last + 1..];
  }

  /** create_table on token objects. */
  method CreateTable(tokens: seq<Token>) returns (table: seq<Row>)
    ensures table == Table(Values(tokens))
  {
    ghost var vs := Values(tokens);
    table := [];
    var run := true;
    var index := 0;
    while run && index < |tokens|
      invariant index <= |tokens|
      invariant run ==> table + Table(vs[index..]) == Table(vs)
      invariant !run ==> table == Table(vs)
      decreases |tokens| - index + (if run then 1 else 0)
    {
      var row, last := RowAt(tokens, index);
      AppendAssociates(table, [row], Table(vs[last + 1..]));
      table := table + [row];
      index := last;
      if index < |tokens| - 1 {
        index := index + 1;
      } else {
        run := false;
        assert vs[index + 1..] == [];
      }
    }
  }

  /** Appending a row and then the rows still to come is appending both at once. */
  lemma AppendAssociates(a: seq<Row>, b: seq<Row>, c: seq<Row>)
    ensures (a + b) + c == a + (b + c)
  {
  }
}
