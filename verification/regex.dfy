/**
 * The few regular-expression replacements the input masks use. Every one
 * of them is either a fixed-width pattern of `\d` and literal characters
 * (possibly anchored with `^`), or a run of digits anchored with `$`.
 * `String.prototype.replace` without the `g` flag rewrites the leftmost
 * match only, so a replacement here is: find the leftmost match, then put a
 * separator between its groups.
 */
module Regex {
  import opened Wrappers
  import opened Text

  /** One position of a fixed-width pattern: `\d`, or a literal character. */
  datatype Class = Digit | Lit(c: char)

  predicate Admits(k: Class, c: char)
  {
    match k
    case Digit => IsDigit(c)
    case Lit(x) => c == x
  }

  /** The pattern `\d{n}`. */
  function DigitRun(n: nat): (pat: seq<Class>)
    ensures |pat| == n
    ensures forall i :: 0 <= i < n ==> pat[i] == Digit
  {
    seq(n, _ => Digit)
  }

  /** `pat` matches `s` at position `p`. */
  predicate MatchesAt(s: string, p: int, pat: seq<Class>)
  {
    0 <= p && p + |pat| <= |s| && forall i :: 0 <= i < |pat| ==> Admits(pat[i], s[p + i])
  }

  /** The leftmost match at or after `from`, the position an unanchored search reports. */
  function FirstMatch(s: string, pat: seq<Class>, from: nat): (r: Option<nat>)
    ensures r.Some? ==> from <= r.value && MatchesAt(s, r.value, pat)
    ensures r.Some? ==> forall q :: from <= q < r.value ==> !MatchesAt(s, q, pat)
    ensures r.None? ==> forall q :: from <= q ==> !MatchesAt(s, q, pat)
    decreases |s| - from
  {
    if from + |pat| > |s| then None
    else if MatchesAt(s, from, pat) then Some(from)
    else FirstMatch(s, pat, from + 1)
  }

  /** Where a search reports a match: at 0 only for a `^` pattern, else the leftmost. */
  function Search(s: string, pat: seq<Class>, anchored: bool): (r: Option<nat>)
    ensures r.Some? ==> MatchesAt(s, r.value, pat) && forall q :: 0 <= q < r.value ==> !MatchesAt(s, q, pat)
    ensures r.Some? && anchored ==> r.value == 0
    ensures r.None? ==> !MatchesAt(s, 0, pat)
    ensures r.None? && !anchored ==> forall q :: 0 <= q ==> !MatchesAt(s, q, pat)
  {
    if anchored then (if MatchesAt(s, 0, pat) then Some(0) else None)
    else FirstMatch(s, pat, 0)
  }

  /**
   * `s.replace(re, "$1<sep>$2")` where `re` is the fixed-width pattern `pat`
   * and group 1 covers its first `cut` positions: the leftmost match gets
   * `sep` between its groups; without a match `s` is returned as is.
   */
  function ReplaceFirst(s: string, pat: seq<Class>, anchored: bool, cut: nat, sep: string): (r: string)
    requires cut <= |pat|
    ensures Search(s, pat, anchored).None? ==> r == s
    ensures Search(s, pat, anchored).Some? ==>
      var p := Search(s, pat, anchored).value;
      p + cut <= |s| && r == Insert(s, p + cut, sep)
  {
    match Search(s, pat, anchored)
    case None => s
    case Some(p) => Insert(s, p + cut, sep)
  }

  /** A replacement whose separator has no digits keeps the digits of the text. */
  lemma ReplaceFirstKeepsDigits(s: string, pat: seq<Class>, anchored: bool, cut: nat, sep: string)
    requires cut <= |pat|
    requires NoDigits(sep)
    ensures Digits(ReplaceFirst(s, pat, anchored, cut, sep)) == Digits(s)
  {
    match Search(s, pat, anchored)
    case None =>
    case Some(p) => InsertKeepsDigits(s, p + cut, sep);
  }

  /**
   * Where `(\d{k})(\d{lo-k,hi-k})$` can match: `s[p..]` is a run of digits
   * whose length lies between `lo` and `hi`.
   */
  predicate TailAt(s: string, p: int, lo: nat, hi: nat)
  {
    0 <= p <= |s| && lo <= |s| - p <= hi && forall i :: p <= i < |s| ==> IsDigit(s[i])
  }

  /** The leftmost position at or after `from` where an end-anchored digit run matches. */
  function FirstTail(s: string, lo: nat, hi: nat, from: nat): (r: Option<nat>)
    ensures r.Some? ==> from <= r.value && TailAt(s, r.value, lo, hi)
    ensures r.Some? ==> forall q :: from <= q < r.value ==> !TailAt(s, q, lo, hi)
    ensures r.None? ==> forall q :: from <= q ==> !TailAt(s, q, lo, hi)
    decreases |s| - from
  {
    if from > |s| then None
    else if TailAt(s, from, lo, hi) then Some(from)
    else FirstTail(s, lo, hi, from + 1)
  }

  /**
   * `s.replace(/(\d{cut})(\d{lo-cut,hi-cut})$/, "$1<sep>$2")`: the leftmost
   * end-anchored match gets `sep` after its first `cut` digits.
   */
  function ReplaceTail(s: string, lo: nat, hi: nat, cut: nat, sep: string): (r: string)
    requires cut <= lo
    ensures FirstTail(s, lo, hi, 0).None? ==> r == s
    ensures FirstTail(s, lo, hi, 0).Some? ==>
      var p := FirstTail(s, lo, hi, 0).value;
      p + cut <= |s| && r == Insert(s, p + cut, sep)
  {
    match FirstTail(s, lo, hi, 0)
    case None => s
    case Some(p) => Insert(s, p + cut, sep)
  }

  lemma ReplaceTailKeepsDigits(s: string, lo: nat, hi: nat, cut: nat, sep: string)
    requires cut <= lo
    requires NoDigits(sep)
    ensures Digits(ReplaceTail(s, lo, hi, cut, sep)) == Digits(s)
  {
    match FirstTail(s, lo, hi, 0)
    case None =>
    case Some(p) => InsertKeepsDigits(s, p + cut, sep);
  }

  // ---------------------------------------------------------------------
  // Reading off a search result
  // ---------------------------------------------------------------------

  /** A match with no match to its left is the one the search reports. */
  lemma SearchIs(s: string, pat: seq<Class>, anchored: bool, p: nat)
    requires MatchesAt(s, p, pat)
    requires forall q :: 0 <= q < p ==> !MatchesAt(s, q, pat)
    requires anchored ==> p == 0
    ensures Search(s, pat, anchored) == Some(p)
  {
  }

  lemma SearchNone(s: string, pat: seq<Class>, anchored: bool)
    requires forall q :: 0 <= q <= |s| ==> !MatchesAt(s, q, pat)
    ensures Search(s, pat, anchored) == None
  {
  }

  lemma FirstTailIs(s: string, lo: nat, hi: nat, p: nat)
    requires TailAt(s, p, lo, hi)
    requires forall q :: 0 <= q < p ==> !TailAt(s, q, lo, hi)
    ensures FirstTail(s, lo, hi, 0) == Some(p)
  {
  }

  lemma FirstTailNone(s: string, lo: nat, hi: nat)
    requires forall q :: 0 <= q <= |s| ==> !TailAt(s, q, lo, hi)
    ensures FirstTail(s, lo, hi, 0) == None
  {
  }
}
