/**
 * Case folding for guesses. The server compares `guess.toLowerCase()` with
 * `word.toLowerCase()`; the model folds the ASCII letters A-Z only.
 */
module Text {

  /** `toLowerCase` of one character: A-Z become a-z, everything else is kept. */
  function LowerChar(c: char): (d: char)
    ensures !('A' <= d <= 'Z')
    ensures 'A' <= c <= 'Z' ==> 'a' <= d <= 'z' && d as int - c as int == 'a' as int - 'A' as int
    ensures !('A' <= c <= 'Z') ==> d == c
  {
    if 'A' <= c <= 'Z' then (c as int + 32) as char else c
  }

  /** `toLowerCase`: the same text with every upper-case letter folded and nothing else touched. */
  function Lower(s: string): (r: string)
    ensures |r| == |s|
    ensures forall i :: 0 <= i < |s| ==> r[i] == LowerChar(s[i])
    ensures forall c :: c in r ==> !('A' <= c <= 'Z')
    ensures forall i :: 0 <= i < |s| && !('A' <= s[i] <= 'Z') ==> r[i] == s[i]
  {
    if s == [] then [] else [LowerChar(s[0])] + Lower(s[1..])
  }

  /** Two texts are equal up to ASCII letter case. */
  predicate SameIgnoringCase(s: string, t: string)
  {
    Lower(s) == Lower(t)
  }

  /**
   * Case-insensitive equality is character-wise: same length, and each pair of
   * characters agrees once folded.
   */
  lemma SameIgnoringCaseCharwise(s: string, t: string)
    ensures SameIgnoringCase(s, t) <==>
              |s| == |t| && forall i :: 0 <= i < |s| ==> LowerChar(s[i]) == LowerChar(t[i])
  {
    if |s| == |t| && forall i :: 0 <= i < |s| ==> LowerChar(s[i]) == LowerChar(t[i]) {
      assert forall i :: 0 <= i < |s| ==> Lower(s)[i] == Lower(t)[i];
    }
  }
}
