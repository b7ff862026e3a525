/**
 * The C-string view of a character array and the C library's `strtok`.
 *
 * `strtok` keeps a hidden cursor into the array between calls; here the
 * cursor is an index passed in and handed back. A token is the half-open
 * index range it spans: `strtok` also overwrites the delimiter that ends a
 * token with NUL, but the caller copies each token before the next call,
 * so the range carries the same text.
 */
module CStrings {

  datatype Option<+T> = None | Some(value: T)

  /** The index range `[start, end)` of a token inside the scanned string. */
  datatype Token = Token(start: nat, end: nat)

  /** The outcome of one `strtok` call: the token (None for NULL) and the saved cursor. */
  datatype Scan = Scan(token: Option<Token>, next: nat)

  /** What a char array holds as a C string: every character before its first NUL. */
  function CString(s: string): (r: string)
    ensures '\0' !in r
    ensures |r| <= |s| && r == s[..|r|]
    ensures |r| == |s| || s[|r|] == '\0'
  {
    if s == [] || s[0] == '\0' then
      []
    else
      var r := [s[0]] + CString(s[1..]);
      assert s == [s[0]] + s[1..];
      r
  }

  /** A char array without NUL is all C string. */
  lemma CStringOfNulFree(s: string)
    requires '\0' !in s
    ensures CString(s) == s
  {
  }

  /** `strspn` from index `i`: the first index at or after `i` holding no delimiter. */
  function SkipDelimiters(s: string, i: nat, delimiters: set<char>): (j: nat)
    requires i <= |s|
    ensures i <= j <= |s|
    ensures forall k :: i <= k < j ==> s[k] in delimiters
    ensures j == |s| || s[j] !in delimiters
    decreases |s| - i
  {
    if i < |s| && s[i] in delimiters then SkipDelimiters(s, i + 1, delimiters) else i
  }

  /** `strcspn` from index `i`: the first index at or after `i` holding a delimiter. */
  function SkipToken(s: string, i: nat, delimiters: set<char>): (j: nat)
    requires i <= |s|
    ensures i <= j <= |s|
    ensures forall k :: i <= k < j ==> s[k] !in delimiters
    ensures j == |s| || s[j] in delimiters
    decreases |s| - i
  {
    if i < |s| && s[i] !in delimiters then SkipToken(s, i + 1, delimiters) else i
  }

  /**
   * What one call of `strtok` that resumes at `cursor` promises about its
   * outcome `r`: at the end of the string (after skipping delimiters) it
   * returns NULL; otherwise the token starts at the first non-delimiter and
   * runs to the next delimiter or to the end, and the cursor moves past that
   * one delimiter.
   */
  ghost predicate IsScan(s: string, cursor: nat, delimiters: set<char>, r: Scan) {
    && cursor <= r.next <= |s|
    && (r.token.None? ==> r.next == |s| && forall k :: cursor <= k < |s| ==> s[k] in delimiters)
    && (r.token.Some? ==>
         && cursor <= r.token.value.start < r.token.value.end <= |s|
         && (forall k :: cursor <= k < r.token.value.start ==> s[k] in delimiters)
         && (forall k :: r.token.value.start <= k < r.token.value.end ==> s[k] !in delimiters)
         && (r.token.value.end == |s| ==> r.next == |s|)
         && (r.token.value.end < |s| ==> s[r.token.value.end] in delimiters && r.next == r.token.value.end + 1))
  }

  /** One call of `strtok`: skip delimiters, then take everything up to the next one. */
  function Strtok(s: string, cursor: nat, delimiters: set<char>): (r: Scan)
    requires cursor <= |s|
    ensures IsScan(s, cursor, delimiters, r)
  {
    var start := SkipDelimiters(s, cursor, delimiters);
    if start == |s| then
      Scan(None, |s|)
    else
      var end := SkipToken(s, start, delimiters);
      Scan(Some(Token(start, end)), if end == |s| then end else end + 1)
  }

  /** The promise of `strtok` leaves no choice: `Strtok` is its only outcome. */
  lemma {:induction false} ScanUnique(s: string, cursor: nat, delimiters: set<char>, r: Scan)
    requires cursor <= |s|
    requires IsScan(s, cursor, delimiters, r)
    ensures r == Strtok(s, cursor, delimiters)
  {
    var q := Strtok(s, cursor, delimiters);
    var rs := if r.token.Some? then r.token.value.start else |s|;
    var qs := if q.token.Some? then q.token.value.start else |s|;
    RunUnique(s, cursor, delimiters, true, rs, qs);
    if r.token.Some? {
      RunUnique(s, rs, delimiters, false, r.token.value.end, q.token.value.end);
    }
  }

  /**
   * Two runs from `lo` of characters that are all in `delimiters` (or, when
   * `inside` is false, all outside it), each ended by the end of `s` or by a
   * character of the other kind, have the same end.
   */
  lemma RunUnique(s: string, lo: nat, delimiters: set<char>, inside: bool, x: nat, y: nat)
    requires lo <= x <= |s| && lo <= y <= |s|
    requires forall k :: lo <= k < x ==> (s[k] in delimiters) == inside
    requires forall k :: lo <= k < y ==> (s[k] in delimiters) == inside
    requires x == |s| || (s[x] in delimiters) != inside
    requires y == |s| || (s[y] in delimiters) != inside
    ensures x == y
  {
  }

  /**
   * The Arduino `String` built from what `strtok` returned: `String(NULL)` is
   * empty; otherwise `String(const char*)` copies from the token's first
   * character up to the NUL that `strtok` wrote over the delimiter ending it
   * (or up to the string's own end).
   */
  function TokenText(s: string, token: Option<Token>): (t: string)
    requires token.Some? ==> token.value.start <= token.value.end <= |s|
    ensures token.None? ==> t == []
    ensures token.Some? && '\0' !in s ==>
      t == CString(Terminated(s, token.value.end)[token.value.start..])
    ensures token.Some? ==> |t| == token.value.end - token.value.start
    ensures token.Some? ==> forall k :: 0 <= k < |t| ==> t[k] == s[token.value.start + k]
  {
    match token
    case None => ""
    case Some(t) =>
      var u := Terminated(s, t.end)[t.start..];
      assert u[..t.end - t.start] == s[t.start..t.end];
      CStringUpToNul(u, t.end - t.start);
      s[t.start..t.end]
  }

  /** `s` after `strtok` wrote NUL at index `i`; an `i` at the end writes over the array's own terminator. */
  function Terminated(s: string, i: nat): string
    requires i <= |s|
  {
    if i < |s| then s[i := '\0'] else s
  }

  /** The C string of `u` is the NUL-free prefix of `u` that ends at a NUL or at the end of `u`: there is only one. */
  lemma CStringUpToNul(u: string, n: nat)
    requires n <= |u|
    requires n == |u| || u[n] == '\0'
    ensures '\0' !in u[..n] ==> CString(u) == u[..n]
  {
  }
}
