/**
 * The part of the Arduino `String` class that `splitString` relies on:
 * `trim()`, which drops leading and trailing whitespace in place.
 * Whitespace is what C's `isspace` accepts in the "C" locale.
 */
module ArduinoStrings {

  /** `isspace` in the "C" locale: space, tab, newline, vertical tab, form feed, carriage return. */
  predicate IsSpace(c: char): (r: bool)
    ensures r <==> c == ' ' || '\t' <= c <= '\r'
  {
    c == ' ' || c == '\t' || c == '\n' || c == '\U{000B}' || c == '\U{000C}' || c == '\r'
  }

  ghost predicate AllSpace(s: string) {
    forall k :: 0 <= k < |s| ==> IsSpace(s[k])
  }

  /** Neither the first nor the last character is whitespace. */
  predicate IsTrimmed(s: string) {
    s == [] || (!IsSpace(s[0]) && !IsSpace(s[|s| - 1]))
  }

  /** `r` occurs in `s` at offset `i`, with only whitespace before and after it. */
  ghost predicate Framed(s: string, r: string, i: nat) {
    i + |r| <= |s| && s[i..i + |r|] == r && AllSpace(s[..i]) && AllSpace(s[i + |r|..])
  }

  /** The suffix of `s` left after its leading whitespace. */
  function TrimStart(s: string): (r: string)
    ensures |r| <= |s| && r == s[|s| - |r|..]
    ensures AllSpace(s[..|s| - |r|])
    ensures r == [] || !IsSpace(r[0])
  {
    if s != [] && IsSpace(s[0]) then TrimStart(s[1..]) else s
  }

  /** The prefix of `s` left after its trailing whitespace. */
  function TrimEnd(s: string): (r: string)
    ensures |r| <= |s| && r == s[..|r|]
    ensures AllSpace(s[|r|..])
    ensures r == [] || !IsSpace(r[|r| - 1])
  {
    if s != [] && IsSpace(s[|s| - 1]) then TrimEnd(s[..|s| - 1]) else s
  }

  /**
   * `String::trim()`: the text of `s` without its leading and trailing
   * whitespace; the characters in between are kept, in order.
   */
  function Trim(s: string): (r: string)
    ensures IsTrimmed(r)
    ensures exists i :: Framed(s, r, i)
  {
    var t := TrimStart(s);
    var r := TrimEnd(t);
    var i := |s| - |t|;
    assert s[i..i + |r|] == t[..|r|];
    assert s[i + |r|..] == t[|r|..];
    assert Framed(s, r, i);
    r
  }

  /**
   * Whitespace framing determines the trimmed text: any whitespace-free-edged
   * text that occurs in `s` with only whitespace around it is `Trim(s)`.
   */
  lemma {:induction false} TrimUnique(s: string, r: string, i: nat)
    requires Framed(s, r, i) && IsTrimmed(r)
    ensures r == Trim(s)
  {
    var t := Trim(s);
    var j: nat :| Framed(s, t, j);
    FramedTrimmedUnique(s, r, i, t, j);
  }

  /** Two whitespace-framed texts of `s` without whitespace at their edges are the same text. */
  lemma FramedTrimmedUnique(s: string, a: string, i: nat, b: string, j: nat)
    requires Framed(s, a, i) && IsTrimmed(a)
    requires Framed(s, b, j) && IsTrimmed(b)
    ensures a == b
  {
  }

  /** Trimming twice is trimming once. */
  lemma {:induction false} TrimIdempotent(s: string)
    ensures Trim(Trim(s)) == Trim(s)
  {
    var t := Trim(s);
    assert t[0..|t|] == t;
    assert Framed(t, t, 0);
    TrimUnique(t, t, 0);
  }

  /** The trimmed text is empty exactly when `s` is empty or all whitespace. */
  lemma {:induction false} TrimEmptyIffBlank(s: string)
    ensures Trim(s) == [] <==> AllSpace(s)
  {
    if AllSpace(s) {
      assert s[..0] == [] && s[0..] == s;
      assert Framed(s, [], 0);
      TrimUnique(s, [], 0);
    } else {
      var t := Trim(s);
      var i: nat :| Framed(s, t, i);
    }
  }
}
