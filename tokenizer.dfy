/** The context tokenizer: one forward pass over the text, classifying each buffered span from
    the character before the buffer and the one and two characters after the cursor. */
module Tokenizer {
  import opened Results
  import opened PyText
  import opened Lookaround
  import opened Tokens
  import opened Scanner

  /** Characters that only delimit tokens; scanning one ends the step with no token. */
  predicate IsStructural(c: char) {
    c == '{' || c == '}' || c == ':' || c == ',' || c == '[' || c == ']'
  }

  /** What a scan step does at the cursor: grow the buffer, stop on a delimiter, or emit a
      token of the given kind (title-casing the buffer when `titled`). */
  datatype Rule = Extend | Skip | Emit(kind: Kind, titled: bool)

  /** The classification rules, applied first match first. A rule that does not match
      leaves the buffer growing. */
  function Classify(lb: string, la: string, la2: string): (r: Rule)
    ensures r != Skip
    ensures r.Emit? ==> r.kind != Unset && (r.titled ==> r.kind == Attribute)
  {
    if lb == "," && la == ":" && la2 == "{" then Emit(Section, false)
    else if lb == "," && la == ":" && la2 == "[" then Emit(Section, false)
    else if lb == "{" && la == ":" then (if la2 == "[" then Emit(List, false) else Emit(Attribute, true))
    else if lb == ":" && la == "," then Emit(Value, false)
    else if lb == "," && la == ":" then Emit(Attribute, false)
    else if lb == ":" && la == "}" then Emit(Value, false)
    else if lb == "[" && la == "," then Emit(Value, false)
    else if lb == "," && la == "]" then Emit(Value, false)
    else if lb == "," && la == "," then Emit(Value, false)
    else Extend
  }

  /** The first-match chain decides exactly as a table whose rows do not overlap: the order
      of the rules only matters between the section rules and the later attribute rule. In
      particular no section or list is recognised when the second look-ahead is a space, as it
      is after the `: ` separator of a scalar value. */
  lemma ClassifyTable(lb: string, la: string, la2: string)
    ensures Classify(lb, la, la2) == Emit(Section, false) <==>
              lb == "," && la == ":" && (la2 == "{" || la2 == "[")
    ensures Classify(lb, la, la2) == Emit(List, false) <==> lb == "{" && la == ":" && la2 == "["
    ensures Classify(lb, la, la2) == Emit(Attribute, true) <==> lb == "{" && la == ":" && la2 != "["
    ensures Classify(lb, la, la2) == Emit(Attribute, false) <==>
              lb == "," && la == ":" && la2 != "{" && la2 != "["
    ensures Classify(lb, la, la2) == Emit(Value, false) <==>
              || (lb == ":" && (la == "," || la == "}"))
              || (la == "," && (lb == "[" || lb == ","))
              || (lb == "," && la == "]")
    ensures la2 == " " ==> Classify(lb, la, la2) != Emit(Section, false) && Classify(lb, la, la2) != Emit(List, false)
  {
  }

  /** The token a rule emits for the buffer: of the rule's kind, and with its text stripped of
      surrounding whitespace. */
  function Emitted(kind: Kind, titled: bool, buf: string): (t: TokenValue)
    ensures t.kind == kind && |t.text| <= |buf|
    ensures t.text == [] || (!IsSpace(t.text[0]) && !IsSpace(t.text[|t.text| - 1]))
  {
    TokenValue(kind, Strip(if titled then Title(buf) else buf))
  }

  /** The rule applied at index `m` of a scan whose buffer began at `start`: the look-behind is
      always the character before `start`. */
  function RuleAt(text: string, start: nat, m: nat, bound: Ahead2Bound): (r: Result<Rule>)
    requires start <= m < |text|
    ensures r == Ok(Skip) <==> IsStructural(text[m])
    ensures r.Fail? <==> !IsStructural(text[m]) && bound == AsWritten && m + 2 == |text|
    ensures r.Fail? ==> r.error == IndexOutOfRange(|text|)
  {
    if IsStructural(text[m]) then Ok(Skip)
    else
      match LookAhead2(text, m, bound)
      case Fail(e) => Fail(e)
      case Ok(la2) => Ok(Classify(LookBehind(text, start - 1), LookAhead(text, m), la2))
  }

  /** A scan that began its buffer at `start` and reached `index` ends at `j` with token `t`:
      every position from `index` up to j - 1 extends the buffer, and position j - 1 either
      delimits (no token), emits `t`, or is the last character of the text. */
  predicate ScanEnds(text: string, start: nat, index: nat, j: nat, t: TokenValue, bound: Ahead2Bound)
    requires start <= index
  {
    && index < j <= |text|
    && (forall m :: index <= m < j - 1 ==> RuleAt(text, start, m, bound) == Ok(Extend))
    && match RuleAt(text, start, j - 1, bound)
       case Fail(_) => false
       case Ok(Skip) => t == Blank
       case Ok(Extend) => j == |text| && t == Blank
       case Ok(Emit(kind, titled)) => t == Emitted(kind, titled, text[start..j])
  }

  /** The scan loop of get_token, from cursor `index` with the buffer text[start..index]. */
  function Scan(text: string, start: nat, index: nat, bound: Ahead2Bound): (r: Result<(TokenValue, nat)>)
    requires start <= index
    decreases |text| - index
    ensures r.Ok? && index < |text| ==> index < r.value.1 <= |text|
    ensures r.Ok? && r.value.0.kind == Unset ==> r.value.0 == Blank
    ensures r.Fail? ==> bound == AsWritten
  {
    if index >= |text| then Ok((Blank, index))
    else
      match RuleAt(text, start, index, bound)
      case Fail(e) => Fail(e)
      case Ok(Skip) => Ok((Blank, index + 1))
      case Ok(Emit(kind, titled)) => Ok((Emitted(kind, titled, text[start..index + 1]), index + 1))
      case Ok(Extend) => Scan(text, start, index + 1, bound)
  }

  /** One step of the scan is the rule at the cursor: stop with no token, stop with the
      emitted token, fail, or go on with the next character. */
  lemma ScanStep(text: string, start: nat, index: nat, bound: Ahead2Bound)
    requires start <= index < |text|
    ensures Scan(text, start, index, bound) ==
              match RuleAt(text, start, index, bound)
              case Fail(e) => Fail(e)
              case Ok(Skip) => Ok((Blank, index + 1))
              case Ok(Emit(kind, titled)) => Ok((Emitted(kind, titled, text[start..index + 1]), index + 1))
              case Ok(Extend) => Scan(text, start, index + 1, bound)
  {
    assert |text[start..index + 1]| == index + 1 - start;
  }

  /** A scan that succeeds stops at the first position whose rule is not Extend, with the
      look-behind fixed at the character before `start`. */
  lemma {:induction false} ScanStopsAtFirstRule(text: string, start: nat, index: nat, bound: Ahead2Bound)
    requires start <= index < |text|
    requires Scan(text, start, index, bound).Ok?
    decreases |text| - index
    ensures ScanEnds(text, start, index, Scan(text, start, index, bound).value.1,
                     Scan(text, start, index, bound).value.0, bound)
  {
    if RuleAt(text, start, index, bound) != Ok(Extend) {
      ScanStep(text, start, index, bound);
    } else {
      ScanExtends(text, start, index, bound);
      var rest := Scan(text, start, index + 1, bound);
      if index + 1 < |text| {
        ScanStopsAtFirstRule(text, start, index + 1, bound);
        ScanEndsExtend(text, start, index, rest.value.1, rest.value.0, bound);
      } else {
        assert rest == Ok((Blank, index + 1));
      }
    }
  }

  /** A position whose rule extends the buffer can be prepended to a finished scan. */
  lemma ScanEndsExtend(text: string, start: nat, index: nat, j: nat, t: TokenValue, bound: Ahead2Bound)
    requires start <= index < |text| && RuleAt(text, start, index, bound) == Ok(Extend)
    requires ScanEnds(text, start, index + 1, j, t, bound)
    ensures ScanEnds(text, start, index, j, t, bound)
  {
    forall m | index <= m < j - 1
      ensures RuleAt(text, start, m, bound) == Ok(Extend)
    {
      if m > index {
        assert index + 1 <= m < j - 1;
      }
    }
  }

  /** A scan fails only as written, by reaching the second-to-last character of the text with
      every rule before it extending the buffer; the error is the read one past the end. */
  lemma {:induction false} ScanFailsNearEnd(text: string, start: nat, index: nat, bound: Ahead2Bound)
    requires start <= index < |text|
    requires Scan(text, start, index, bound).Fail?
    decreases |text| - index
    ensures index + 2 <= |text|
    ensures Scan(text, start, index, bound).error == IndexOutOfRange(|text|)
    ensures RuleAt(text, start, |text| - 2, bound).Fail?
    ensures forall m :: index <= m < |text| - 2 ==> RuleAt(text, start, m, bound) == Ok(Extend)
  {
    ScanStep(text, start, index, bound);
    if RuleAt(text, start, index, bound).Ok? {
      ScanFailsNearEnd(text, start, index + 1, bound);
    }
  }

  /** The previous token sends the tokenizer into the opaque-span scanner when it is an
      attribute whose unquoted text lower-cases to `div` or `url`. */
  predicate IsHtmlTrigger(p: TokenValue)
    ensures IsHtmlTrigger(p) <==>
              var u := Unquote(p.text);
              && p.kind == Attribute && |u| == 3
              && ((u[0] in "dD" && u[1] in "iI" && u[2] in "vV") || (u[0] in "uU" && u[1] in "rR" && u[2] in "lL"))
  {
    p.kind == Attribute && (Lower(Unquote(p.text)) == "div" || Lower(Unquote(p.text)) == "url")
  }

  /** get_token from cursor `start`, given the previously emitted token: the token and the
      cursor to resume from, or the IndexError the scan raised. */
  function NextToken(text: string, start: nat, prev: TokenValue, bound: Ahead2Bound): (r: Result<(TokenValue, nat)>)
    ensures r.Ok? && start < |text| ==> r.value.1 > start
    ensures r.Ok? && r.value.0.kind == Unset ==> r.value.0 == Blank
    ensures r.Fail? ==> bound == AsWritten && !IsHtmlTrigger(prev)
  {
    if IsHtmlTrigger(prev) then
      var span := HtmlSpan(text, start);
      Ok((TokenValue(Value, Strip(span.1)), span.0))
    else Scan(text, start, start, bound)
  }

  /** After a `div` or `url` attribute the next token is the opaque span, always a value;
      otherwise it is what the scan from the cursor ends with, and at the end of the text it
      is a blank token that leaves the cursor where it is. */
  lemma NextTokenCases(text: string, start: nat, prev: TokenValue, bound: Ahead2Bound)
    ensures IsHtmlTrigger(prev) ==>
              && NextToken(text, start, prev, bound).Ok?
              && NextToken(text, start, prev, bound).value.0.kind == Value
              && NextToken(text, start, prev, bound).value.1 >= start + HtmlSkip
              && (NextToken(text, start, prev, bound).value.1 < |text| ==>
                    text[NextToken(text, start, prev, bound).value.1] == Quote)
              && NextToken(text, start, prev, bound).value.0.text == Strip(HtmlSpan(text, start).1)
    ensures !IsHtmlTrigger(prev) && start >= |text| ==> NextToken(text, start, prev, bound) == Ok((Blank, start))
    ensures !IsHtmlTrigger(prev) && NextToken(text, start, prev, bound).Ok? && start < |text| ==>
              ScanEnds(text, start, start, NextToken(text, start, prev, bound).value.1,
                       NextToken(text, start, prev, bound).value.0, bound)
  {
    if !IsHtmlTrigger(prev) && start < |text| && Scan(text, start, start, bound).Ok? {
      ScanStopsAtFirstRule(text, start, start, bound);
    }
  }

  /** The four outcomes of a scan step, one lemma each. */
  lemma ScanSkips(text: string, start: nat, index: nat, bound: Ahead2Bound)
    requires start <= index < |text| && IsStructural(text[index])
    ensures Scan(text, start, index, bound) == Ok((Blank, index + 1))
  {
    ScanStep(text, start, index, bound);
  }

  lemma ScanFails(text: string, start: nat, index: nat, bound: Ahead2Bound)
    requires start <= index < |text| && RuleAt(text, start, index, bound).Fail?
    ensures Scan(text, start, index, bound) == Fail(RuleAt(text, start, index, bound).error)
  {
    ScanStep(text, start, index, bound);
  }

  lemma ScanExtends(text: string, start: nat, index: nat, bound: Ahead2Bound)
    requires start <= index < |text| && RuleAt(text, start, index, bound) == Ok(Extend)
    ensures Scan(text, start, index, bound) == Scan(text, start, index + 1, bound)
  {
    ScanStep(text, start, index, bound);
  }

  lemma ScanEmits(text: string, start: nat, index: nat, bound: Ahead2Bound, kind: Kind, titled: bool)
    requires start <= index < |text| && RuleAt(text, start, index, bound) == Ok(Emit(kind, titled))
    ensures Scan(text, start, index, bound) == Ok((Emitted(kind, titled, text[start..index + 1]), index + 1))
  {
    ScanStep(text, start, index, bound);
  }

  /** The probes and rules of get_token for the buffer `buf` that ends at `index`. */
  method ProbeRule(text: string, ghost start: nat, index: nat, buf: string, bound: Ahead2Bound)
    returns (r: Result<Rule>)
    requires start <= index < |text| && start + |buf| == index + 1 && !IsStructural(text[index])
    ensures r == RuleAt(text, start, index, bound)
  {
    var la := LookAhead(text, index);
    var lb := LookBehind(text, index - |buf|);
    var la2 := LookAhead2(text, index, bound);
    if la2.Fail? {
      return Fail(la2.error);
    }
    return Ok(Classify(lb, la, la2.value));
  }

  /** One iteration of get_token's scan loop on the character at `index`, whose buffer `buf`
      already holds it: stop on a delimiter, fail, classify `token` and stop, or go on. */
  method ScanAt(text: string, ghost start: nat, index: nat, buf: string, token: Token, bound: Ahead2Bound)
    returns (r: Result<bool>)
    requires start <= index < |text| && buf == text[start..index + 1]
    requires token.Value() == Blank
    modifies token
    ensures r.Fail? ==> Scan(text, start, index, bound).Fail? && r == Fail(Scan(text, start, index, bound).error)
    ensures r == Ok(true) ==> Scan(text, start, index, bound) == Ok((token.Value(), index + 1))
    ensures r == Ok(false) ==> token.Value() == Blank && Scan(text, start, index, bound) == Scan(text, start, index + 1, bound)
  {
    if IsStructural(text[index]) {
      ScanSkips(text, start, index, bound);
      return Ok(true);
    }
    var rule := ProbeRule(text, start, index, buf, bound);
    if rule.Fail? {
      ScanFails(text, start, index, bound);
      return Fail(rule.error);
    }
    if rule.value.Emit? {
      var kind, titled := rule.value.kind, rule.value.titled;
      ScanEmits(text, start, index, bound, kind, titled);
      token.Update(kind, if titled then Title(buf) else buf);
      return Ok(true);
    }
    ScanExtends(text, start, index, bound);
    return Ok(false);
  }

  /** Appending the character at the cursor to the buffer extends the buffered slice. */
  lemma BufferGrows(text: string, start: nat, index: nat)
    requires start <= index < |text|
    ensures text[start..index + 1] == text[start..index] + [text[index]]
  {
  }

  /** The scan loop of get_token on a fresh token object. */
  method ScanToken(text: string, start: nat, bound: Ahead2Bound) returns (r: Result<(Token, nat)>)
    ensures r.Fail? == Scan(text, start, start, bound).Fail?
    ensures r.Fail? ==> r == Fail(Scan(text, start, start, bound).error)
    ensures r.Ok? ==> r.value.0.Value() == Scan(text, start, start, bound).value.0
    ensures r.Ok? ==> r.value.1 == Scan(text, start, start, bound).value.1
  {
    var index := start;
    var token := new Token();
    var found := false;
    var buf := "";
    ghost var scan := Scan(text, start, start, bound);
    while !found && index < |text|
      invariant start <= index
      invariant index <= |text| || index == start
      invariant index <= |text| ==> buf == text[start..index]
      invariant fresh(token)
      invariant found ==> scan == Ok((token.Value(), index))
      invariant !found ==> token.Value() == Blank
      invariant !found ==> Scan(text, start, index, bound) == scan
      decreases |text| - index
    {
      BufferGrows(text, start, index);
      buf := buf + [text[index]];
      var step := ScanAt(text, start, index, buf, token, bound);
      if step.Fail? {
        return Fail(step.error);
      }
      found := step.value;
      index := index + 1;
    }
    return Ok((token, index));
  }

  /** get_token on token objects: `tokens` is the list emitted so far. */
  method GetToken(text: string, start: nat, tokens: seq<Token>, bound: Ahead2Bound)
    returns (r: Result<(Token, nat)>)
    ensures r.Fail? == NextToken(text, start, GetPreviousToken(Values(tokens)), bound).Fail?
    ensures r.Fail? ==> r == Fail(NextToken(text, start, GetPreviousToken(Values(tokens)), bound).error)
    ensures r.Ok? ==> r.value.0.Value() == NextToken(text, start, GetPreviousToken(Values(tokens)), bound).value.0
    ensures r.Ok? ==> r.value.1 == NextToken(text, start, GetPreviousToken(Values(tokens)), bound).value.1
  {
    var p := GetPreviousToken(Values(tokens));
    var data := Unquote(p.text);
    var isHtml := false;
    if p.kind == Attribute && Lower(data) == "div" {
      isHtml := true;
    }
    if p.kind == Attribute && Lower(data) == "url" {
      isHtml := true;
    }
    assert isHtml == IsHtmlTrigger(p);
    if isHtml {
      var i, html := GetHtml(text, start);
      var htmlToken := new Token();
      htmlToken.Update(Value, html);
      return Ok((htmlToken, i));
    }
    r := ScanToken(text, start, bound);
  }

  /** The tokenise loop from cursor `i` with the tokens `acc` emitted so far. The loop makes
      one last get_token call after the cursor has reached the end of the text. */
  function TokensFrom(js: string, i: nat, acc: seq<TokenValue>, bound: Ahead2Bound): (r: Result<seq<TokenValue>>)
    decreases if i < |js| then |js| - i else 0
    ensures r.Ok? ==> acc <= r.value
    ensures r.Ok? ==> forall k :: |acc| <= k < |r.value| ==> r.value[k].kind != Unset
  {
    match NextToken(js, i, GetPreviousToken(acc), bound)
    case Fail(e) => Fail(e)
    case Ok(step) =>
      var acc' := if step.0.kind != Unset then acc + [step.0] else acc;
      if i >= |js| then Ok(acc') else TokensFrom(js, step.1, acc', bound)
  }

  /** tokenise: the tokens of the whole text, starting after its opening brace. */
  function Tokenization(js: string, bound: Ahead2Bound): (r: Result<seq<TokenValue>>)
    ensures r.Ok? ==> forall k :: 0 <= k < |r.value| ==> r.value[k].kind != Unset
  {
    TokensFrom(js, 1, [], bound)
  }

  /** tokenise on token objects. */
  method Tokenise(js: string, bound: Ahead2Bound) returns (r: Result<seq<Token>>)
    ensures r.Fail? == Tokenization(js, bound).Fail?
    ensures r.Ok? ==> Values(r.value) == Tokenization(js, bound).value
  {
    var list: seq<Token> := [];
    var run := true;
    var i: nat := 1;
    while run
      invariant run ==> TokensFrom(js, i, Values(list), bound) == Tokenization(js, bound)
      invariant !run ==> Tokenization(js, bound) == Ok(Values(list))
      decreases (if run then 1 else 0) + (if run && i < |js| then |js| - i else 0)
    {
      if i >= |js| {
        run := false;
      }
      var step := GetToken(js, i, list, bound);
      if step.Fail? {
        return Fail(step.error);
      }
      var t := step.value.0;
      i := step.value.1;
      if t.kind != Unset {
        ValuesAppend(list, t);
        list := list + [t];
      }
    }
    return Ok(list);
  }

  /** With the corrected look-ahead-2 guard, tokenising never fails. */
  lemma {:induction false} TokensFromCorrectedOk(js: string, i: nat, acc: seq<TokenValue>)
    decreases if i < |js| then |js| - i else 0
    ensures TokensFrom(js, i, acc, Corrected).Ok?
  {
    var step := NextToken(js, i, GetPreviousToken(acc), Corrected);
    if i < |js| {
      var acc' := if step.value.0.kind != Unset then acc + [step.value.0] else acc;
      TokensFromCorrectedOk(js, step.value.1, acc');
    }
  }

  lemma CorrectedNeverFails(js: string)
    ensures Tokenization(js, Corrected).Ok?
  {
    TokensFromCorrectedOk(js, 1, []);
  }

  /** Wherever the scan as written succeeds, the corrected scan gives the same token. */
  lemma {:induction false} ScanCorrectionAgrees(text: string, start: nat, index: nat)
    requires start <= index
    requires Scan(text, start, index, AsWritten).Ok?
    decreases |text| - index
    ensures Scan(text, start, index, Corrected) == Scan(text, start, index, AsWritten)
  {
    if index < |text| {
      ScanStep(text, start, index, AsWritten);
      ScanStep(text, start, index, Corrected);
      if !IsStructural(text[index]) {
        LookAhead2Agrees(text, index);
        assert RuleAt(text, start, index, Corrected) == RuleAt(text, start, index, AsWritten);
        if RuleAt(text, start, index, AsWritten) == Ok(Extend) {
          ScanCorrectionAgrees(text, start, index + 1);
        }
      }
    }
  }

  lemma {:induction false} TokensFromCorrectionAgrees(js: string, i: nat, acc: seq<TokenValue>)
    requires TokensFrom(js, i, acc, AsWritten).Ok?
    decreases if i < |js| then |js| - i else 0
    ensures TokensFrom(js, i, acc, Corrected) == TokensFrom(js, i, acc, AsWritten)
  {
    var prev := GetPreviousToken(acc);
    assert NextToken(js, i, prev, AsWritten).Ok?;
    if !IsHtmlTrigger(prev) {
      ScanCorrectionAgrees(js, i, i);
    }
    var step := NextToken(js, i, prev, AsWritten);
    assert NextToken(js, i, prev, Corrected) == step;
    if i < |js| {
      var acc' := if step.value.0.kind != Unset then acc + [step.value.0] else acc;
      TokensFromCorrectionAgrees(js, step.value.1, acc');
    }
  }

  /** The corrected guard changes nothing on a text the viewer as written tokenises: it only
      replaces the IndexError by a result. */
  lemma CorrectionAgrees(js: string)
    requires Tokenization(js, AsWritten).Ok?
    ensures Tokenization(js, Corrected) == Tokenization(js, AsWritten)
  {
    TokensFromCorrectionAgrees(js, 1, []);
  }

  /** An empty object has no tokens. */
  lemma EmptyObject(bound: Ahead2Bound)
    ensures Tokenization("{}", bound) == Ok([])
  {
    var js := "{}";
    ScanStep(js, 1, 1, bound);
    assert NextToken(js, 1, Blank, bound) == Ok((Blank, 2));
    assert NextToken(js, 2, Blank, bound) == Ok((Blank, 2));
  }

  /** One tokenise step outside an opaque span: the token the scan ends with is kept unless it
      is blank, and the loop resumes where the scan stopped. */
  lemma TokensFromNext(js: string, i: nat, acc: seq<TokenValue>, bound: Ahead2Bound, t: TokenValue, j: nat)
    requires i < |js| && !IsHtmlTrigger(GetPreviousToken(acc)) && Scan(js, i, i, bound) == Ok((t, j))
    ensures TokensFrom(js, i, acc, bound) == TokensFrom(js, j, if t.kind != Unset then acc + [t] else acc, bound)
  {
  }

  /** At the end of the text, outside an opaque span, the tokenise loop stops with what it has. */
  lemma TokensFromEnd(js: string, i: nat, acc: seq<TokenValue>, bound: Ahead2Bound)
    requires i >= |js| && !IsHtmlTrigger(GetPreviousToken(acc))
    ensures TokensFrom(js, i, acc, bound) == Ok(acc)
  {
  }

  /** In `{'a': 1}` the key's quotes and letter extend the buffer until the closing quote,
      where the brace behind and the colon ahead make a title-cased attribute. */
  lemma FlatObjectKeyRules(bound: Ahead2Bound)
    ensures RuleAt("{'a': 1}", 1, 1, bound) == Ok(Extend)
    ensures RuleAt("{'a': 1}", 1, 2, bound) == Ok(Extend)
    ensures RuleAt("{'a': 1}", 1, 3, bound) == Ok(Emit(Attribute, true))
  {
  }

  /** The key of `{'a': 1}` is a title-cased attribute and the colon after it is skipped,
      whichever guard is used. */
  lemma FlatObjectKey(bound: Ahead2Bound)
    ensures Scan("{'a': 1}", 1, 1, bound) == Ok((TokenValue(Attribute, "'A'"), 4))
    ensures Scan("{'a': 1}", 4, 4, bound) == Ok((Blank, 5))
  {
    FlatObjectKeyToken(bound);
    assert "{'a': 1}"[4] == ':';
    ScanSkips("{'a': 1}", 4, 4, bound);
  }

  lemma FlatObjectKeyToken(bound: Ahead2Bound)
    ensures Scan("{'a': 1}", 1, 1, bound) == Ok((TokenValue(Attribute, "'A'"), 4))
  {
    var js := "{'a': 1}";
    FlatObjectKeyRules(bound);
    ScanExtends(js, 1, 1, bound);
    ScanExtends(js, 1, 2, bound);
    ScanEmits(js, 1, 3, bound, Attribute, true);
    assert js[1..4] == "'a'";
    TitleOfKey();
  }

  lemma TitleOfKey()
    ensures Emitted(Attribute, true, "'a'") == TokenValue(Attribute, "'A'")
  {
    assert Title("'a'") == "'A'";
    assert Strip("'A'") == "'A'";
  }

  /** The value of `{'a': 1}` ends one character before the closing brace: as written its
      look-ahead-2 probe reads past the end; corrected, it is the value `1`. */
  lemma FlatObjectValue()
    ensures Scan("{'a': 1}", 5, 5, AsWritten) == Fail(IndexOutOfRange(8))
    ensures Scan("{'a': 1}", 5, 5, Corrected) == Ok((TokenValue(Value, "1"), 7))
    ensures Scan("{'a': 1}", 7, 7, Corrected) == Ok((Blank, 8))
  {
    var js := "{'a': 1}";
    ScanExtends(js, 5, 5, AsWritten);
    ScanFails(js, 5, 6, AsWritten);
    FlatObjectValueCorrected();
    assert js[7] == '}';
    ScanSkips(js, 7, 7, Corrected);
  }

  lemma FlatObjectValueCorrected()
    ensures Scan("{'a': 1}", 5, 5, Corrected) == Ok((TokenValue(Value, "1"), 7))
  {
    var js := "{'a': 1}";
    ScanExtends(js, 5, 5, Corrected);
    assert RuleAt(js, 5, 6, Corrected) == Ok(Emit(Value, false));
    ScanEmits(js, 5, 6, Corrected, Value, false);
    assert js[5..7] == " 1";
    assert TrimStart(" 1") == "1";
  }

  /** Neither token of `{'a': 1}` opens an opaque span. */
  lemma FlatObjectNoHtml()
    ensures !IsHtmlTrigger(TokenValue(Attribute, "'A'"))
    ensures !IsHtmlTrigger(TokenValue(Value, "1"))
  {
    assert Unquote("'A'") == "A";
  }

  /** As written, the viewer cannot tokenise the one-entry object `{'a': 1}`: the scan of the
      value reaches the second-to-last character and reads past the end of the text. */
  lemma FlatObjectFailsAsWritten()
    ensures Tokenization("{'a': 1}", AsWritten) == Fail(IndexOutOfRange(8))
  {
    var js := "{'a': 1}";
    var key := TokenValue(Attribute, "'A'");
    FlatObjectNoHtml();
    FlatObjectKey(AsWritten);
    FlatObjectValue();
    TokensFromNext(js, 1, [], AsWritten, key, 4);
    assert [] + [key] == [key];
    TokensFromNext(js, 4, [key], AsWritten, Blank, 5);
  }

  /** With the corrected guard, `{'a': 1}` gives the attribute `'A'` and the value `1`. */
  lemma FlatObjectCorrected()
    ensures Tokenization("{'a': 1}", Corrected) ==
              Ok([TokenValue(Attribute, "'A'"), TokenValue(Value, "1")])
  {
    var js := "{'a': 1}";
    var key := TokenValue(Attribute, "'A'");
    var one := TokenValue(Value, "1");
    FlatObjectNoHtml();
    FlatObjectKey(Corrected);
    FlatObjectValue();
    TokensFromNext(js, 1, [], Corrected, key, 4);
    assert [] + [key] == [key];
    TokensFromNext(js, 4, [key], Corrected, Blank, 5);
    TokensFromNext(js, 5, [key], Corrected, one, 7);
    assert [key] + [one] == [key, one];
    TokensFromNext(js, 7, [key, one], Corrected, Blank, 8);
    TokensFromEnd(js, 8, [key, one], Corrected);
  }

  /** In `{'name': [{'family': 'Doe'}]}` the key `'name'` opens a list, yet the second
      look-ahead after its closing quote is the space of the `: ` separator, so it is
      classified as a title-cased attribute and not as a list. */
  lemma NestedListKeyIsAttribute(bound: Ahead2Bound)
    ensures RuleAt("{'name': [{'family': 'Doe'}]}", 1, 6, bound) == Ok(Emit(Attribute, true))
    ensures Scan("{'name': [{'family': 'Doe'}]}", 1, 1, bound) == Ok((TokenValue(Attribute, "'Name'"), 7))
  {
    var js := "{'name': [{'family': 'Doe'}]}";
    assert js[..9] == "{'name': ";
    NestedListKeyRules(js, bound);
    NestedListKeyEmits(bound);
    ScanExtends(js, 1, 5, bound);
    ScanExtends(js, 1, 4, bound);
    ScanExtends(js, 1, 3, bound);
    ScanExtends(js, 1, 2, bound);
    ScanExtends(js, 1, 1, bound);
  }

  lemma NestedListKeyEmits(bound: Ahead2Bound)
    ensures Scan("{'name': [{'family': 'Doe'}]}", 1, 6, bound) == Ok((TokenValue(Attribute, "'Name'"), 7))
  {
    var js := "{'name': [{'family': 'Doe'}]}";
    assert js[..9] == "{'name': ";
    NestedListKeyRules(js, bound);
    ScanEmits(js, 1, 6, bound, Attribute, true);
    assert js[1..7] == "'name'" by {
      assert js == "{'name'" + js[7..];
    }
    TitleOfNestedKey();
  }

  /** The rules along a first key `'name'` followed by the `: ` separator. */
  lemma NestedListKeyRules(js: string, bound: Ahead2Bound)
    requires |js| > 9 && js[..9] == "{'name': "
    ensures forall m :: 1 <= m <= 5 ==> RuleAt(js, 1, m, bound) == Ok(Extend)
    ensures RuleAt(js, 1, 6, bound) == Ok(Emit(Attribute, true))
  {
    forall m | 1 <= m <= 5
      ensures RuleAt(js, 1, m, bound) == Ok(Extend)
    {
      assert js[m] == js[..9][m] && js[m + 1] == js[..9][m + 1];
      RuleAtInside(js, 1, m, bound);
    }
    assert js[0] == js[..9][0] && js[6] == js[..9][6] && js[7] == js[..9][7] && js[8] == js[..9][8];
    RuleAtInside(js, 1, 6, bound);
  }

  /** Away from the end of the text, the rule at `m` depends only on the character before the
      buffer and the three characters from `m` on. */
  lemma RuleAtInside(text: string, start: nat, m: nat, bound: Ahead2Bound)
    requires 1 <= start <= m && m + 2 < |text| && !IsStructural(text[m])
    ensures RuleAt(text, start, m, bound) == Ok(Classify([text[start - 1]], [text[m + 1]], [text[m + 2]]))
  {
  }

  lemma TitleOfNestedKey()
    ensures Emitted(Attribute, true, "'name'") == TokenValue(Attribute, "'Name'")
  {
    TitleAt("'name'");
    assert Title("'name'") == "'Name'";
    assert Strip("'Name'") == "'Name'";
  }

  /** The section rule looks only at the characters around the buffer, not at whether the
      cursor is inside a quoted string: a string value holding `,y:{` makes a section token. */
  lemma SectionInsideString(bound: Ahead2Bound)
    ensures RuleAt("{'a': 'x,y:{', 'b': {}}", 9, 9, bound) == Ok(Emit(Section, false))
    ensures Scan("{'a': 'x,y:{', 'b': {}}", 9, 9, bound) == Ok((TokenValue(Section, "y"), 10))
  {
    var text := "{'a': 'x,y:{', 'b': {}}";
    assert text[8] == ',' && text[9] == 'y' && text[10] == ':' && text[11] == '{';
    assert text[9..10] == "y";
    ScanEmits(text, 9, 9, bound, Section, false);
  }

  /** The same happens inside a key: the scan from index 4 of `{'x,y:[': 1, 'b': {}}` emits the section `y`. */
  lemma SectionInsideKey(bound: Ahead2Bound)
    ensures RuleAt("{'x,y:[': 1, 'b': {}}", 4, 4, bound) == Ok(Emit(Section, false))
    ensures Scan("{'x,y:[': 1, 'b': {}}", 4, 4, bound) == Ok((TokenValue(Section, "y"), 5))
  {
    var text := "{'x,y:[': 1, 'b': {}}";
    assert text[3] == ',' && text[4] == 'y' && text[5] == ':' && text[6] == '[';
    assert text[4..5] == "y";
    ScanEmits(text, 4, 4, bound, Section, false);
  }
}
