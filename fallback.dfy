/** The fallback price text (bot.js:56): the first match of the regular
    expression ([0-9][0-9 .,]{0,10}[0-9]) in an item's full text.

    A match is a digit, then up to ten characters from [0-9 .,], then a
    digit: two to twelve characters in all. The first match of a global
    regular expression starts at the leftmost position where the pattern
    matches at all, and the greedy quantifier with backtracking makes it the
    longest match at that position. */
module Fallback {
  import opened Options
  import opened Decimals

  /** The class [0-9 .,]: digits, the space, the point and the comma. */
  predicate InNumberClass(c: char) {
    IsDigit(c) || c == ' ' || c == '.' || c == ','
  }

  /** The pattern matches the `len` characters of s starting at i. */
  predicate MatchesAt(s: string, i: nat, len: nat) {
    && 2 <= len <= 12
    && i + len <= |s|
    && IsDigit(s[i])
    && IsDigit(s[i + len - 1])
    && forall k :: i < k < i + len - 1 ==> InNumberClass(s[k])
  }

  /** The longest match at i of length at most `len`, trying the longest first
      as the backtracking regular expression engine does. */
  function LongestMatchAt(s: string, i: nat, len: nat): (r: Option<nat>)
    ensures r.Some? ==> r.value <= len && MatchesAt(s, i, r.value)
    ensures forall l :: (if r.Some? then r.value else 1) < l <= len ==> !MatchesAt(s, i, l)
    decreases len
  {
    if len < 2 then
      None
    else if MatchesAt(s, i, len) then
      Some(len)
    else
      LongestMatchAt(s, i, len - 1)
  }

  /** The leftmost-longest match starting at i or later, as (start, length). */
  function FindNumberLike(s: string, i: nat): (r: Option<(nat, nat)>)
    ensures r.Some? ==> i <= r.value.0 && MatchesAt(s, r.value.0, r.value.1)
    ensures r.Some? ==> forall l :: r.value.1 < l ==> !MatchesAt(s, r.value.0, l)
    ensures forall j, l :: i <= j && (r.Some? ==> j < r.value.0) ==> !MatchesAt(s, j, l)
    decreases |s| - i
  {
    if i >= |s| then
      None
    else
      match LongestMatchAt(s, i, 12)
      case Some(len) => Some((i, len))
      case None => FindNumberLike(s, i + 1)
  }

  /** `($el.text().match(/([0-9][0-9 .,]{0,10}[0-9])/g) || [])[0]`:
      the first number-like text, or None (`undefined`) when there is none. */
  function FirstNumberLike(s: string): (r: Option<string>)
    ensures r.Some? ==> 2 <= |r.value| <= 12 && IsDigit(r.value[0]) && IsDigit(r.value[|r.value| - 1])
    ensures r.None? <==> forall j, l :: !MatchesAt(s, j, l)
  {
    match FindNumberLike(s, 0)
    case Some((start, len)) => Some(s[start..start + len])
    case None => None
  }
}
