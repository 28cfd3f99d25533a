/**
  Ordinal string predicates used by the build processor and the property drawer:
  .NET's `string.StartsWith` and `string.Contains` restricted to their ordinal
  (character-by-character) meaning.
 */
module Strings {

  /** `prefix` is an initial segment of `s`. */
  predicate StartsWith(s: string, prefix: string)
  {
    |prefix| <= |s| && s[..|prefix|] == prefix
  }

  /** `fragment` occurs in `s` starting at position `i`. */
  predicate OccursAt(s: string, fragment: string, i: int)
  {
    0 <= i && i + |fragment| <= |s| && s[i..i + |fragment|] == fragment
  }

  /** Ordinal substring search: tries every start position from left to right. */
  function Contains(s: string, fragment: string): (r: bool)
    ensures r <==> exists i :: OccursAt(s, fragment, i)
    decreases |s|
  {
    if StartsWith(s, fragment) then
      assert OccursAt(s, fragment, 0);
      true
    else if |s| == 0 then
      false
    else
      var r := Contains(s[1..], fragment);
      ShiftOccurrence(s, fragment);
      r
  }

  /** Occurrences in the tail of `s` are exactly the occurrences in `s` past position 0. */
  lemma ShiftOccurrence(s: string, fragment: string)
    requires |s| > 0
    requires !StartsWith(s, fragment)
    ensures (exists i :: OccursAt(s[1..], fragment, i)) <==> (exists i :: OccursAt(s, fragment, i))
  {
    forall i | OccursAt(s[1..], fragment, i)
      ensures OccursAt(s, fragment, i + 1)
    {
      assert s[1..][i..i + |fragment|] == s[i + 1..i + 1 + |fragment|];
    }
    forall i | OccursAt(s, fragment, i)
      ensures i >= 1 && OccursAt(s[1..], fragment, i - 1)
    {
      assert s[1..][i - 1..i - 1 + |fragment|] == s[i..i + |fragment|];
    }
  }
}
