/** The viewer's pipeline from the text of a resource to the rows it displays. */
module Viewer {
  import opened Results
  import opened PyText
  import opened Lookaround
  import opened Tokens
  import opened Tokenizer
  import opened Projector

  /** The rows shown for the text of a resource, or the IndexError raised while tokenising. */
  function View(js: string, bound: Ahead2Bound): (r: Result<seq<Row>>)
    ensures r.Fail? <==> Tokenization(js, bound).Fail?
    ensures r.Ok? ==> |r.value| <= |Tokenization(js, bound).value| <= 2 * |r.value|
    ensures r.Ok? ==> forall k :: 0 <= k < |r.value| ==> Quote !in r.value[k].caption && Quote !in r.value[k].value
  {
    match Tokenization(js, bound)
    case Fail(e) => Fail(e)
    case Ok(ts) =>
      TableSize(ts);
      TableHasNoQuotes(ts);
      Ok(Table(ts))
  }

  /** An empty object is shown as no rows at all, and not as an error. */
  lemma EmptyObjectHasNoRows(bound: Ahead2Bound)
    ensures View("{}", bound) == Ok([])
  {
    EmptyObject(bound);
  }

  /** As written, `{'a': 1}` cannot be shown; with the corrected guard it is one row `A:`
      with the value `1`. */
  lemma FlatObjectRows()
    ensures View("{'a': 1}", AsWritten).Fail?
    ensures View("{'a': 1}", Corrected) == Ok([Row("A:", "1")])
  {
    FlatObjectFailsAsWritten();
    FlatObjectCorrected();
    FlatObjectTable();
  }

  /** The attribute `'A'` followed by the value `1` make the single row `A:` `1`. */
  lemma FlatObjectTable()
    ensures Table([TokenValue(Attribute, "'A'"), TokenValue(Value, "1")]) == [Row("A:", "1")]
  {
    var ts := [TokenValue(Attribute, "'A'"), TokenValue(Value, "1")];
    assert Unquote("'A'") == "A";
    assert Title("A") == "A";
    assert Label(ts[0]) == "A:";
    assert Unquote("1") == "1";
    assert ts[2..] == [];
  }

  /** With the corrected guard every text is shown. */
  lemma CorrectedViewNeverFails(js: string)
    ensures View(js, Corrected).Ok?
  {
    CorrectedNeverFails(js);
  }
}
