/** String helpers with the JavaScript semantics the storefront relies on:
    `String.prototype.trim`, `toLowerCase` (ASCII letters only) and `includes`. */
module Text {

  /** The characters `trim` removes: the ECMAScript WhiteSpace and LineTerminator code points
      (tab through carriage return, space, no-break space, ogham space mark, the spaces from en
      quad to hair space, line and paragraph separator, narrow no-break space, medium
      mathematical space, ideographic space and the byte order mark). */
  predicate IsSpace(c: char) {
    || '\t' <= c <= '\r'
    || c == ' ' || c == '\U{00A0}' || c == '\U{1680}'
    || '\U{2000}' <= c <= '\U{200A}'
    || c == '\U{2028}' || c == '\U{2029}' || c == '\U{202F}' || c == '\U{205F}'
    || c == '\U{3000}' || c == '\U{FEFF}'
  }

  predicate AllSpace(s: string) {
    forall i :: 0 <= i < |s| ==> IsSpace(s[i])
  }

  /** A string `trim` leaves alone: it neither starts nor ends with white space. */
  predicate IsTrimmed(s: string) {
    s == [] || (!IsSpace(s[0]) && !IsSpace(s[|s| - 1]))
  }

  /** The index of the first non-space character at or after `i`, or `|s|`. */
  function SkipSpace(s: string, i: nat): (k: nat)
    requires i <= |s|
    ensures i <= k <= |s|
    ensures forall j :: i <= j < k ==> IsSpace(s[j])
    ensures k == |s| || !IsSpace(s[k])
    decreases |s| - i
  {
    if i < |s| && IsSpace(s[i]) then SkipSpace(s, i + 1) else i
  }

  /** The end of `s[k..e]` once trailing white space is dropped. */
  function SkipSpaceBack(s: string, k: nat, e: nat): (e': nat)
    requires k <= e <= |s|
    ensures k <= e' <= e
    ensures forall j :: e' <= j < e ==> IsSpace(s[j])
    ensures e' == k || !IsSpace(s[e' - 1])
    decreases e
  {
    if k < e && IsSpace(s[e - 1]) then SkipSpaceBack(s, k, e - 1) else e
  }

  /** Where the trimmed text starts in `s`. */
  function TrimFrom(s: string): nat {
    SkipSpace(s, 0)
  }

  /** Where the trimmed text ends in `s`. */
  function TrimTo(s: string): nat {
    SkipSpaceBack(s, TrimFrom(s), |s|)
  }

  /** `s.trim()`: white space removed at both ends and nowhere else (see `TrimIsInfix`). */
  function Trim(s: string): (r: string)
    ensures |r| <= |s|
    ensures IsTrimmed(r)
  {
    s[TrimFrom(s)..TrimTo(s)]
  }

  /** A trimmed string is its own trim, so `Trim` is idempotent. */
  lemma {:induction false} TrimTrimmed(s: string)
    requires IsTrimmed(s)
    ensures Trim(s) == s
  {
    assert TrimFrom(s) == 0;
    assert TrimTo(s) == |s|;
  }

  /** The trim is empty exactly when the string is all white space. */
  lemma {:induction false} TrimEmpty(s: string)
    ensures Trim(s) == [] <==> AllSpace(s)
  {
    var k := TrimFrom(s);
    var e := TrimTo(s);
    assert |Trim(s)| == e - k;
  }

  /** What `Trim` drops is white space: the result is the piece of `s` between the leading and
      the trailing white space. */
  lemma {:induction false} TrimIsInfix(s: string)
    ensures var k := TrimFrom(s); var e := TrimTo(s);
      && k <= e <= |s| && Trim(s) == s[k..e]
      && (forall i :: 0 <= i < k ==> IsSpace(s[i]))
      && (forall i :: e <= i < |s| ==> IsSpace(s[i]))
  {
  }

  /** `toLowerCase` restricted to ASCII letters: no capital is left, only capitals change, and
      a capital becomes the small letter at the same place in the alphabet. */
  function LowerChar(c: char): (r: char)
    ensures !('A' <= r <= 'Z')
    ensures r != c <==> 'A' <= c <= 'Z'
    ensures 'A' <= c <= 'Z' ==> 'a' <= r <= 'z' && r as int - 'a' as int == c as int - 'A' as int
  {
    if 'A' <= c <= 'Z' then (c as int + 32) as char else c
  }

  function Lower(s: string): (r: string)
    ensures |r| == |s|
    ensures forall i :: 0 <= i < |s| ==> r[i] == LowerChar(s[i])
  {
    if s == [] then [] else [LowerChar(s[0])] + Lower(s[1..])
  }

  /** Lower-casing twice is lower-casing once. */
  lemma {:induction false} LowerIdempotent(s: string)
    ensures Lower(Lower(s)) == Lower(s)
  {
    assert forall i :: 0 <= i < |s| ==> LowerChar(LowerChar(s[i])) == LowerChar(s[i]);
  }

  /** `s.includes(q)`: `q` occurs somewhere in `s` as a contiguous block. */
  predicate Includes(s: string, q: string) {
    q <= s || (s != [] && Includes(s[1..], q))
  }

  /** `q` occurs in `s` starting at position `k`. */
  predicate OccursAt(s: string, q: string, k: int) {
    0 <= k <= |s| - |q| && s[k..k + |q|] == q
  }

  /** `Includes` agrees with the positional definition of a substring. */
  lemma {:induction false} IncludesAt(s: string, q: string)
    ensures Includes(s, q) <==> exists k :: OccursAt(s, q, k)
  {
    if q <= s {
      assert OccursAt(s, q, 0);
    } else if s == [] {
    } else {
      IncludesAt(s[1..], q);
      if exists k :: OccursAt(s, q, k) {
        var k :| OccursAt(s, q, k);
        assert k != 0;
        assert OccursAt(s[1..], q, k - 1);
      }
      if Includes(s[1..], q) {
        var k :| OccursAt(s[1..], q, k);
        assert s[k + 1..k + 1 + |q|] == s[1..][k..k + |q|];
        assert OccursAt(s, q, k + 1);
      }
    }
  }
}
