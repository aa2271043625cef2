/** The three probes the tokenizer classifies with: one character behind a cursor, one and
    two characters ahead of it. A probe yields a one-character string, or a sentinel: the
    empty string behind the start and two ahead of the end, "?" one ahead of the end. */
module Lookaround {
  import opened Results

  /** Which end-of-text guard look-ahead-2 uses: the one the viewer is written with
      (`i >= len(s) - 1`, which lets i = len(s) - 2 through to an out-of-range read), or the
      guard that covers every out-of-range position (`i >= len(s) - 2`). */
  datatype Ahead2Bound = AsWritten | Corrected

  /** The character at `i`, or the empty string before the start of the text. An index at or
      past the end is a Python IndexError, which no caller in the viewer reaches. */
  function LookBehind(s: string, i: int): (r: string)
    requires i < |s|
    ensures |r| <= 1
    ensures r == [] <==> i < 0
    ensures 0 <= i ==> r[0] == s[i]
  {
    if i < 0 then "" else [s[i]]
  }

  /** The character after `i`, or "?" when `i` is at or past the last index. */
  function LookAhead(s: string, i: nat): (r: string)
    ensures |r| == 1
    ensures i + 1 < |s| ==> r[0] == s[i + 1]
    ensures i + 1 >= |s| ==> r == "?"
  {
    if i >= |s| - 1 then "?" else [s[i + 1]]
  }

  /** The character two after `i`, or the empty string near the end of the text. As written,
      the guard misses i = len(s) - 2, where the read of s[len(s)] raises IndexError. */
  function LookAhead2(s: string, i: nat, bound: Ahead2Bound): (r: Result<string>)
    ensures r.Fail? <==> bound == AsWritten && i + 2 == |s|
    ensures r.Fail? ==> r.error == IndexOutOfRange(|s|)
    ensures r.Ok? && i + 2 < |s| ==> r.value == [s[i + 2]]
    ensures r.Ok? && i + 2 >= |s| ==> r.value == ""
  {
    match bound
    case AsWritten =>
      if i >= |s| - 1 then Ok("")
      else if i + 2 < |s| then Ok([s[i + 2]])
      else Fail(IndexOutOfRange(i + 2))
    case Corrected =>
      if i >= |s| - 2 then Ok("") else Ok([s[i + 2]])
  }

  /** Wherever the guard as written returns a probe, the corrected guard returns the same one. */
  lemma LookAhead2Agrees(s: string, i: nat)
    requires LookAhead2(s, i, AsWritten).Ok?
    ensures LookAhead2(s, i, Corrected) == LookAhead2(s, i, AsWritten)
  {
  }
}
