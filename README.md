# FHIR Viewer: the tokenizer and table builder, in Dafny

FHIR Viewer reads a FHIR resource saved as JSON and shows it as a two-column list of labels and
values. It parses the JSON with `json.load`, prints the resulting dict with `str()` (Python's
printed form, `{'resourceType': 'Patient', 'name': [...]}`) and then walks that printed text once,
left to right, instead of walking the parsed tree. At each character it classifies the buffered
span by looking at three things: the character just before the buffer, the character after the
cursor and the one after that. Each
span becomes a *section*, *list*, *attribute* or *value* token. A table builder then pairs every
attribute with the token that follows it. After a `div` or `url` attribute, the text is copied
verbatim up to the next single quote, so that markup inside a value is not classified.

This project models that core, which is in `FHIR_Viewer.py`:
- the `Token` object, with `update` and `get_data`;
- the three look-around probes;
- `get_previous_token`, `get_html`, `get_token`, `get_next_quote` and `tokenise`;
- `Row` and `create_table`.

It proves the following properties of the model:
- what each probe and each scan step returns;
- that the tokenizer loop computes a specification function;
- where that function fails;
- how the table builder groups the tokens.

Modules, one per file:

- `Results` (`results.dfy`): the `Result` type for the one error the core can raise, an
  `IndexError`.
- `PyText` (`text.dfy`): the Python string operations the core uses. These are `str.strip()`
  with Python's exact whitespace set, `replace("'", "")`, `lower()` and `title()`.
- `Lookaround` (`lookaround.dfy`): `look_behind`, `look_ahead` and `look_ahead2`.
- `Tokens` (`tokens.dfy`): the `Token` class, whose `Update` changes its fields in place. Its
  abstract value is the `TokenValue` datatype.
- `Scanner` (`scanner.dfy`): `get_html` and `get_next_quote`, as loops proved against
  specification functions.
- `Tokenizer` (`tokenizer.dfy`): the nine classification rules and the scan loop of
  `get_token`, given on two levels:
  - the methods `ScanToken`, `GetToken` and `Tokenise`, which mirror the source's loops on token
    objects;
  - the specification functions `Scan`, `NextToken` and `Tokenization`, which the methods are
    proved to compute.
- `Projector` (`projector.dfy`): `Row` and `create_table`. The method `CreateTable` is proved
  to compute the function `Table`.
- `Viewer` (`viewer.dfy`): the pipeline in `MainWindow.initUI`, from text to rows.

`look_ahead2`'s end-of-text guard is off by one (see Findings). The model therefore takes a
parameter `Ahead2Bound`:
- `AsWritten` is the guard in the code; at the position it misses, the probe returns
  `Fail(IndexOutOfRange(len))`;
- `Corrected` is the guard that was evidently intended.

The lemmas relate the two: the corrected tokenizer never fails, and it agrees with the code
wherever the code succeeds.

Notable behaviours of the code, each with the lemma that shows it:
- **A key is never classified as a section or list at its closing quote.** In Python's printed
  form every key is followed by `: `. So the second look-ahead after a key's closing quote is a
  space, and the section and list rules never fire there (`Tokenizer.ClassifyTable`,
  `Tokenizer.NestedListKeyIsAttribute`). `{'name': [{'family': 'Doe'}]}` therefore starts with
  the attribute `'Name'`.
- **Inside any quoted string, key or value, they can fire.** The rules look only at the
  neighbouring characters, not at whether the cursor is inside quotes. In `{'a': 'x,y:{', 'b': {}}`
  the scan from index 9 emits the section `y` (`Tokenizer.SectionInsideString`), and in
  `{'x,y:[': 1, 'b': {}}` the scan from index 4, inside the key, does too
  (`Tokenizer.SectionInsideKey`).
- **A final attribute shows its own text.** An attribute with no next token gets a row whose
  value is the attribute's own unquoted text (`Projector.TableOneRowPerGroup`).
- **One row per group.** An attribute consumes the token after it, and that token makes no row
  of its own. The table has one row per group: an attribute with its successor, or a single
  token (`Projector.TableOneRowPerGroup`, `Projector.TableSize`).
- **A scalar last entry raises `IndexError`.** `{'a': 1}` ends with a value whose scan reaches
  the off-by-one guard of `look_ahead2` (`Tokenizer.FlatObjectFailsAsWritten`, and Findings).

## Model

| member | source | states |
|---|---|---|
| PyText.Strip | FHIR_Viewer.py:28 | `strip()` is no longer than its input and neither starts nor ends with whitespace |
| PyText.StripCutsOnlySpaces | FHIR_Viewer.py:26-30 | `strip()` keeps a contiguous middle of the text that has no whitespace at either end; everything cut off is whitespace |
| PyText.TrimStartCutsSpaces | FHIR_Viewer.py:28 | removing leading whitespace keeps a suffix and cuts only whitespace |
| PyText.TrimEndCutsSpaces | FHIR_Viewer.py:28 | removing trailing whitespace keeps a prefix and cuts only whitespace |
| PyText.Unquote | FHIR_Viewer.py:35 | removing quotes never lengthens the text, and a result as long as the input is the input itself |
| PyText.UnquoteRemovesOnlyQuotes | FHIR_Viewer.py:33-35 | removing quotes leaves no quote and keeps the multiset of all other characters; a text without quotes is unchanged |
| PyText.UnquoteAppend | FHIR_Viewer.py:35 | removing quotes from two joined texts is removing them from each and joining the results, so the kept characters stay in order |
| PyText.Title | FHIR_Viewer.py:144 | `title()` keeps the length of the text |
| PyText.TitleAt | FHIR_Viewer.py:141-145 | `title()` upper-cases a letter that starts a word (no letter before it) and lower-cases every other letter |
| PyText.TitleFromAt | FHIR_Viewer.py:141-145 | the same closed form for title-casing that continues after a letter or a non-letter |
| PyText.TitleKeepsNonLetters | FHIR_Viewer.py:218-225 | title-casing keeps every non-letter in place, so it adds no quote and removes none |
| PyText.TitleIdempotent | FHIR_Viewer.py:144 | title-casing twice is title-casing once, so a key title-cased here is unchanged by a second `title()` on the same text |
| PyText.Lower | FHIR_Viewer.py:96-99 | `lower()` keeps the length, turns each upper-case letter into its own lower-case letter, and changes no other character |
| PyText.ToLower | FHIR_Viewer.py:96-99 | lower-casing maps `A`–`Z` each to its own lower-case letter and keeps every other character |
| PyText.ToUpper | FHIR_Viewer.py:141-145 | upper-casing maps `a`–`z` each to its own upper-case letter and keeps every other character |
| Lookaround.LookBehind | FHIR_Viewer.py:44-48 | the empty string exactly when the index is negative, otherwise the one character at the index |
| Lookaround.LookAhead | FHIR_Viewer.py:51-55 | the next character, or `"?"` exactly when there is none |
| Lookaround.LookAhead2 | FHIR_Viewer.py:58-61 | the character two ahead, or the empty string near the end; it fails, reading index `len(s)`, exactly with the guard as written at `i = len(s) - 2` |
| Lookaround.LookAhead2Agrees | FHIR_Viewer.py:58-61 | wherever the guard as written returns a probe, the corrected guard returns the same one |
| Tokens.Token.constructor | FHIR_Viewer.py:21-25 | a new token has the empty type and empty text |
| Tokens.Token.Update | FHIR_Viewer.py:26-30 | update stores the type and the stripped text |
| Tokens.Token.GetData | FHIR_Viewer.py:33-35 | the token's text without quotes: no quote is left, every other character is kept as often as it occurs, and for every cut of the text the part kept from before the cut comes first |
| Tokens.GetPreviousToken | FHIR_Viewer.py:64-68 | the last token of a non-empty list, and a blank token for an empty one |
| Scanner.HtmlFrom | FHIR_Viewer.py:75-79 | the copy loop never moves back; from inside the text it stops at most at the end, and the copy is as long as the distance covered, plus one for the quote it stopped on |
| Scanner.HtmlFromStopsAtQuote | FHIR_Viewer.py:75-80 | the copy loop stops at the first quote at or after its start and includes it, or at the end of the text, and copies exactly the characters in between |
| Scanner.HtmlSpan | FHIR_Viewer.py:71-80 | the opaque span starts 3 characters after the cursor and ends on the first quote, or at the end of the text; the quote is its only quote |
| Scanner.GetHtml | FHIR_Viewer.py:71-80 | the loop returns the closing index and the copied span that `HtmlSpan` characterises |
| Scanner.GetNextQuote | FHIR_Viewer.py:173-180 | the index of the first quote after the first character, or the length of the text (at least 1) when there is none |
| Tokenizer.Classify | FHIR_Viewer.py:134-166 | the rule chain never skips, emits only typed tokens, and title-cases only attributes |
| Tokenizer.ClassifyTable | FHIR_Viewer.py:134-166 | the first-match chain as a table of disjoint conditions for each token type; a space as the second look-ahead rules out sections and lists |
| Tokenizer.Emitted | FHIR_Viewer.py:134-163 | each `update` call stores the rule's token type and text with no surrounding whitespace, never longer than the buffer |
| Tokenizer.RuleAt | FHIR_Viewer.py:114-166 | the step at a position stops with no token exactly on one of the six delimiters `{ } : , [ ]` (`IsStructural`); it fails exactly with the guard as written on a non-delimiter at the second-to-last index, reading index `len(text)` |
| Tokenizer.Scan | FHIR_Viewer.py:110-170 | the scan ends after the cursor and within the text, yields an untyped token only as the blank one, and fails only with the guard as written |
| Tokenizer.ScanStopsAtFirstRule | FHIR_Viewer.py:110-170 | a successful scan stops at the first position whose rule does not extend the buffer; the look-behind stays the character before the token's start, and the token is that rule's output for the buffer |
| Tokenizer.ScanFailsNearEnd | FHIR_Viewer.py:58-61 | a failing scan extended the buffer up to the second-to-last character and failed there, reading index `len(text)` |
| Tokenizer.IsHtmlTrigger | FHIR_Viewer.py:92-99 | an opaque span starts exactly after an attribute whose unquoted text is `div` or `url` in any mix of cases |
| Tokenizer.NextToken | FHIR_Viewer.py:83-170 | `get_token` moves the cursor forward, yields either a typed token or the blank one, and fails only outside an opaque span with the guard as written |
| Tokenizer.NextTokenCases | FHIR_Viewer.py:90-107 | after a `div` or `url` attribute the token is the stripped opaque span, as a value; otherwise it is what the scan ends with, and at the end of the text it is blank |
| Tokenizer.ProbeRule | FHIR_Viewer.py:128-166 | probing with `index - len(buffer)` gives the rule for the character before the token's start |
| Tokenizer.ScanAt | FHIR_Viewer.py:110-167 | one pass of the scan loop on a blank token: stops on a delimiter, fails, or classifies the token and stops, exactly as one step of `Scan`; otherwise leaves the token blank and `Scan` goes on unchanged |
| Tokenizer.ScanToken | FHIR_Viewer.py:110-170 | the scan loop on a fresh token object computes `Scan` |
| Tokenizer.GetToken | FHIR_Viewer.py:83-170 | `get_token` on token objects computes `NextToken` on their values |
| Tokenizer.TokensFrom | FHIR_Viewer.py:183-195 | the loop only appends to the tokens emitted so far, and only typed tokens |
| Tokenizer.Tokenization | FHIR_Viewer.py:183-195 | every token of a tokenised text is typed |
| Tokenizer.Tokenise | FHIR_Viewer.py:183-195 | `tokenise` on token objects computes `Tokenization` and fails exactly when it does |
| Tokenizer.TokensFromCorrectedOk | FHIR_Viewer.py:183-195 | with the corrected guard, the tokenise loop never fails from any cursor |
| Tokenizer.CorrectedNeverFails | FHIR_Viewer.py:58-61 | with the corrected guard, tokenising never fails |
| Tokenizer.ScanCorrectionAgrees | FHIR_Viewer.py:110-170 | wherever the scan as written succeeds, the corrected scan gives the same result |
| Tokenizer.TokensFromCorrectionAgrees | FHIR_Viewer.py:183-195 | wherever the tokenise loop as written succeeds, the corrected one gives the same tokens |
| Tokenizer.CorrectionAgrees | FHIR_Viewer.py:58-61 | the correction changes no result of the code, only replaces its `IndexError` |
| Tokenizer.EmptyObject | FHIR_Viewer.py:183-195 | `{}` tokenises to no tokens with either guard |
| Tokenizer.FlatObjectFailsAsWritten | FHIR_Viewer.py:58-61 | as written, `{'a': 1}` raises `IndexError` for index 8 |
| Tokenizer.FlatObjectCorrected | FHIR_Viewer.py:134-153 | with the corrected guard, `{'a': 1}` tokenises to the attribute `'A'` and the value `1` |
| Tokenizer.SectionInsideString | FHIR_Viewer.py:110-136 | in `{'a': 'x,y:{', 'b': {}}` the scan from index 9, inside a string value, emits the section `y` |
| Tokenizer.SectionInsideKey | FHIR_Viewer.py:110-136 | in `{'x,y:[': 1, 'b': {}}` the scan from index 4, inside a key, emits the section `y` |
| Tokenizer.NestedListKeyIsAttribute | FHIR_Viewer.py:110-145 | in `{'name': [{'family': 'Doe'}]}` the key `'name'` is a title-cased attribute, not a list: the first scan yields the attribute `'Name'` and stops after its closing quote |
| Projector.Label | FHIR_Viewer.py:218-225 | a label is the unquoted text title-cased plus one colon at the end, and holds no quote |
| Projector.Table | FHIR_Viewer.py:210-237 | at most one row per token, and at least one row when there is a token |
| Projector.GroupsPartition | FHIR_Viewer.py:210-237 | the groups of the table builder, read in order, are the token list |
| Projector.GroupsArePairsAfterAttributes | FHIR_Viewer.py:216-222 | a group is a pair only when it starts with an attribute, and an attribute that is not in the last group always takes its successor |
| Projector.TableOneRowPerGroup | FHIR_Viewer.py:210-237 | the table has exactly one row per group, in order: an attribute's label with its successor's text (or its own text at the end), a section label with an empty value, or an unlabelled value |
| Projector.TableSize | FHIR_Viewer.py:210-237 | at most one row per token, and at least one row per two tokens |
| Projector.TableWithoutAttributes | FHIR_Viewer.py:224-230 | without attributes there is one row per token |
| Projector.TableHasNoQuotes | FHIR_Viewer.py:216-230 | no label and no value of the table contains a single quote |
| Projector.RowAt | FHIR_Viewer.py:215-231 | one pass of the `create_table` loop gives the first row of `Table` on the remaining tokens and the index of the last token that row uses |
| Projector.CreateTable | FHIR_Viewer.py:210-237 | `create_table` on token objects computes `Table` on their values |
| Viewer.View | FHIR_Viewer.py:259-263 | the rows fail exactly when tokenising fails; there are between half as many and as many rows as tokens; no row shows a quote |
| Viewer.EmptyObjectHasNoRows | FHIR_Viewer.py:259-263 | `{}` is shown as no rows, not an error |
| Viewer.FlatObjectRows | FHIR_Viewer.py:259-263 | as written `{'a': 1}` cannot be shown; corrected, it is the single row `A:` `1` |
| Viewer.FlatObjectTable | FHIR_Viewer.py:216-222 | an attribute `'A'` followed by the value `1` make the single row `A:` `1` |
| Viewer.CorrectedViewNeverFails | FHIR_Viewer.py:259-263 | with the corrected guard every text is shown |

## Left out

- `load` (FHIR_Viewer.py:38-41): it reads a file, parses it with `json.load` and prints the
  dict with `str()`. File I/O and Python's printing of dicts are not part of this model. The
  model starts from that printed text.
- `MainWindow` (FHIR_Viewer.py:247-299) and the program entry: the PyQt widgets, and hiding a
  value field when its value is empty. `Viewer.View` stops at the rows.
- `Token.display` and `print_tokens`, and the debug printing in `get_token` and the look-around
  probes: console output only.
- The `token_start` and `token_end` fields of a token: diagnostic data that nothing reads.
- `FHIR_FILE_NAME` and the sample resource files: these are inputs, not logic.
- PyText.Lower, PyText.Title: case mapping is modelled for ASCII letters only. Python's
  Unicode case tables (for example `'ß'.title()` or titlecase digraphs) are not modelled.
- Lookaround.LookBehind: an index at or past the end of the text is excluded by its
  precondition, which would be an `IndexError` in Python. Its only caller passes the
  character before the token's start, which is always inside the text.
- Lookaround.LookAhead, Lookaround.LookAhead2: indices are natural numbers. Python's negative
  indexing does not arise, because every cursor starts at 1 or later.

## Findings

| source | as written | input that shows it | evidently intended | confidence | as-written member | corrected member |
|---|---|---|---|---|---|---|
| FHIR_Viewer.py:58-61 | `look_ahead2` returns `""` only when `i >= len(s) - 1`, so at `i = len(s) - 2` it reads `s[len(s)]` and raises `IndexError`. `get_token` reaches that position when the last entry of the object is a scalar value, and the exception ends `tokenise` | `{'a': 1}` (length 8; the value's scan probes index 8 from index 6) | return `""` whenever `s[i + 2]` does not exist, i.e. `i >= len(s) - 2`; `{'a': 1}` then gives the attribute `'A'`, the value `1` and the row `A:` `1` | high; not executed | Tokenizer.FlatObjectFailsAsWritten | Tokenizer.CorrectedNeverFails |
