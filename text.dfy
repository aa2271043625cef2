/** The Python string operations the viewer relies on: str.strip(), str.replace("'", ""),
    str.lower() and str.title(). Case mapping is modelled for ASCII letters only. */
module PyText {

  const Quote: char := '\''

  /** Python's whitespace test for one character (str.isspace), code point by code point. */
  predicate IsSpace(c: char) {
    var n := c as int;
    (9 <= n <= 13) || (28 <= n <= 32) || n == 0x85 || n == 0xA0 || n == 0x1680
    || (0x2000 <= n <= 0x200A) || n == 0x2028 || n == 0x2029 || n == 0x202F
    || n == 0x205F || n == 0x3000
  }

  /** The text without its leading whitespace. */
  function TrimStart(s: string): string {
    if s != [] && IsSpace(s[0]) then TrimStart(s[1..]) else s
  }

  /** The text without its trailing whitespace. */
  function TrimEnd(s: string): string {
    if s != [] && IsSpace(s[|s| - 1]) then TrimEnd(s[..|s| - 1]) else s
  }

  /** str.strip(): no longer than the text, and neither starts nor ends with whitespace. */
  function Strip(s: string): (r: string)
    ensures |r| <= |s|
    ensures r == [] || (!IsSpace(r[0]) && !IsSpace(r[|r| - 1]))
  {
    TrimStartCutsSpaces(s);
    TrimEndCutsSpaces(TrimStart(s));
    TrimEnd(TrimStart(s))
  }

  lemma {:induction false} TrimStartCutsSpaces(s: string)
    ensures |TrimStart(s)| <= |s| && TrimStart(s) == s[|s| - |TrimStart(s)|..]
    ensures forall k :: 0 <= k < |s| - |TrimStart(s)| ==> IsSpace(s[k])
    ensures TrimStart(s) == [] || !IsSpace(TrimStart(s)[0])
  {
    if s != [] && IsSpace(s[0]) {
      var t := s[1..];
      TrimStartCutsSpaces(t);
      var r := TrimStart(t);
      assert TrimStart(s) == r;
      assert s[|s| - |r|..] == t[|t| - |r|..];
      forall k | 0 <= k < |s| - |r|
        ensures IsSpace(s[k])
      {
        if k > 0 {
          assert s[k] == t[k - 1];
        }
      }
    }
  }

  lemma {:induction false} TrimEndCutsSpaces(s: string)
    ensures |TrimEnd(s)| <= |s| && TrimEnd(s) == s[..|TrimEnd(s)|]
    ensures forall k :: |TrimEnd(s)| <= k < |s| ==> IsSpace(s[k])
    ensures TrimEnd(s) == [] || !IsSpace(TrimEnd(s)[|TrimEnd(s)| - 1])
  {
    if s != [] && IsSpace(s[|s| - 1]) {
      var t := s[..|s| - 1];
      TrimEndCutsSpaces(t);
      var r := TrimEnd(t);
      assert TrimEnd(s) == r;
      assert s[..|r|] == t[..|r|];
      forall k | |r| <= k < |s|
        ensures IsSpace(s[k])
      {
        if k < |s| - 1 {
          assert s[k] == t[k];
        }
      }
    }
  }

  /** str.strip() keeps a middle slice of the text that neither starts nor ends with
      whitespace, and everything it cuts off on either side is whitespace. */
  lemma StripCutsOnlySpaces(s: string) returns (lo: nat)
    ensures lo + |Strip(s)| <= |s| && Strip(s) == s[lo..lo + |Strip(s)|]
    ensures forall k :: 0 <= k < lo ==> IsSpace(s[k])
    ensures forall k :: lo + |Strip(s)| <= k < |s| ==> IsSpace(s[k])
  {
    var t := TrimStart(s);
    TrimStartCutsSpaces(s);
    TrimEndCutsSpaces(t);
    lo := |s| - |t|;
    assert forall k :: lo + |Strip(s)| <= k < |s| ==> s[k] == t[k - lo];
  }

  /** str.replace("'", "") */
  function Unquote(s: string): (r: string)
    ensures |r| <= |s|
    ensures |r| == |s| ==> r == s
  {
    if s == [] then []
    else (if s[0] == Quote then [] else [s[0]]) + Unquote(s[1..])
  }

  /** Removing quotes leaves no quote and keeps every other character, as many times as it
      occurred; a text without quotes is left as it is. */
  lemma {:induction false} UnquoteRemovesOnlyQuotes(s: string)
    ensures Quote !in Unquote(s)
    ensures multiset(Unquote(s)) == multiset(s)[Quote := 0]
    ensures Quote !in s ==> Unquote(s) == s
  {
    if s != [] {
      UnquoteRemovesOnlyQuotes(s[1..]);
      assert s == [s[0]] + s[1..];
    }
  }

  /** Removing quotes from a concatenation removes them from each part, so the kept characters
      stay in order. */
  lemma {:induction false} UnquoteAppend(a: string, b: string)
    ensures Unquote(a + b) == Unquote(a) + Unquote(b)
  {
    if a != [] {
      UnquoteAppend(a[1..], b);
      assert (a + b)[0] == a[0];
      assert (a + b)[1..] == a[1..] + b;
    } else {
      assert a + b == b;
    }
  }

  predicate IsUpper(c: char) { 'A' <= c <= 'Z' }

  predicate IsLower(c: char) { 'a' <= c <= 'z' }

  /** A cased character in the sense of str.title(), for the ASCII range. */
  predicate IsLetter(c: char) { IsUpper(c) || IsLower(c) }

  /** An upper-case letter becomes its own lower-case letter; every other character is kept. */
  function ToLower(c: char): (r: char)
    ensures IsLetter(r) == IsLetter(c) && !IsUpper(r)
    ensures IsUpper(c) ==> r as int - 'a' as int == c as int - 'A' as int
    ensures !IsUpper(c) ==> r == c
  {
    if IsUpper(c) then (c as int + 32) as char else c
  }

  /** A lower-case letter becomes its own upper-case letter; every other character is kept. */
  function ToUpper(c: char): (r: char)
    ensures IsLetter(r) == IsLetter(c) && !IsLower(r)
    ensures IsLower(c) ==> r as int - 'A' as int == c as int - 'a' as int
    ensures !IsLower(c) ==> r == c
  {
    if IsLower(c) then (c as int - 32) as char else c
  }

  /** str.lower(): no upper-case letter is left, and lower-case letters and non-letters are kept. */
  function Lower(s: string): (r: string)
    ensures |r| == |s|
    ensures forall k :: 0 <= k < |s| ==> !IsUpper(r[k]) && IsLetter(r[k]) == IsLetter(s[k])
    ensures forall k :: 0 <= k < |s| && !IsUpper(s[k]) ==> r[k] == s[k]
    ensures forall k :: 0 <= k < |s| && IsUpper(s[k]) ==> r[k] as int - 'a' as int == s[k] as int - 'A' as int
  {
    seq(|s|, k requires 0 <= k < |s| => ToLower(s[k]))
  }

  /** In str.title(), the character at `k` starts a word when the one before it is not cased. */
  predicate StartsWord(s: string, k: nat)
    requires k < |s|
  {
    k == 0 || !IsLetter(s[k - 1])
  }

  /** str.title() scanning `s` after a character that was (`afterLetter`) or was not cased. */
  function TitleFrom(s: string, afterLetter: bool): string {
    if s == [] then []
    else [if afterLetter then ToLower(s[0]) else ToUpper(s[0])] + TitleFrom(s[1..], IsLetter(s[0]))
  }

  /** str.title(): as long as the text; what it does to each character is TitleAt. */
  function Title(s: string): (r: string)
    ensures |r| == |s|
  {
    TitleFromAt(s, false);
    TitleFrom(s, false)
  }

  lemma {:induction false} TitleFromAt(s: string, afterLetter: bool)
    ensures |TitleFrom(s, afterLetter)| == |s|
    ensures forall k :: 0 <= k < |s| ==>
              TitleFrom(s, afterLetter)[k] == if (if k == 0 then afterLetter else !StartsWord(s, k))
                                              then ToLower(s[k]) else ToUpper(s[k])
  {
    if s != [] {
      TitleFromAt(s[1..], IsLetter(s[0]));
      forall k | 1 <= k < |s|
        ensures TitleFrom(s, afterLetter)[k] == TitleFrom(s[1..], IsLetter(s[0]))[k - 1]
      {
      }
    }
  }

  /** str.title(): a letter is upper-cased when it starts a word (nothing cased before it)
      and lower-cased otherwise; every other character is kept. */
  lemma TitleAt(s: string)
    ensures forall k :: 0 <= k < |s| ==>
              Title(s)[k] == if StartsWord(s, k) then ToUpper(s[k]) else ToLower(s[k])
  {
    TitleFromAt(s, false);
  }

  /** Title-casing keeps every non-letter where it was, so it never introduces a quote. */
  lemma TitleKeepsNonLetters(s: string)
    ensures forall k :: 0 <= k < |s| && !IsLetter(s[k]) ==> Title(s)[k] == s[k]
    ensures Quote in Title(s) <==> Quote in s
  {
    TitleAt(s);
    var r := Title(s);
    if Quote in r {
      var k :| 0 <= k < |r| && r[k] == Quote;
      assert s[k] == Quote;
    }
    if Quote in s {
      var k :| 0 <= k < |s| && s[k] == Quote;
      assert r[k] == Quote;
    }
  }

  /** Title-casing twice is title-casing once. */
  lemma TitleIdempotent(s: string)
    ensures Title(Title(s)) == Title(s)
  {
    TitleAt(s);
    var t := Title(s);
    TitleAt(t);
    forall k | 0 <= k < |s|
      ensures Title(t)[k] == t[k]
    {
      if k > 0 {
        assert StartsWord(t, k) == StartsWord(s, k);
      }
    }
  }
}
