/** The two JavaScript string built-ins the filters rely on:
    `String.prototype.toLowerCase`, restricted to ASCII letters, and
    `String.prototype.includes`, computed by scanning offsets and proved
    equal to "there is an offset at which the needle occurs". */
module JsString {

  /** ASCII lower-casing of one character: `A`..`Z` become `a`..`z`. */
  function LowerChar(c: char): (r: char)
    ensures 'A' <= c <= 'Z' ==> r == "abcdefghijklmnopqrstuvwxyz"[c as int - 'A' as int]
    ensures !('A' <= r <= 'Z')
    ensures !('A' <= c <= 'Z') ==> r == c
  {
    if 'A' <= c <= 'Z' then (c as int - 'A' as int + 'a' as int) as char else c
  }

  /** `s.toLowerCase()` on ASCII: same length, every character lowered. */
  function ToLowerCase(s: string): (r: string)
    ensures |r| == |s|
    ensures forall i :: 0 <= i < |s| ==> r[i] == LowerChar(s[i])
  {
    if s == [] then [] else [LowerChar(s[0])] + ToLowerCase(s[1..])
  }

  /** The needle occurs in the haystack starting at offset `k`. */
  ghost predicate OccursAt(hay: string, needle: string, k: int) {
    0 <= k && k + |needle| <= |hay| && hay[k..k + |needle|] == needle
  }

  /** The reference meaning of `hay.includes(needle)`. */
  ghost predicate Contains(hay: string, needle: string) {
    exists k :: OccursAt(hay, needle, k)
  }

  /** `hay.includes(needle)`: try offset 0, then search the rest. */
  function Includes(hay: string, needle: string): (r: bool)
    ensures r <==> Contains(hay, needle)
    decreases |hay|
  {
    if |needle| > |hay| then
      assert forall k :: !OccursAt(hay, needle, k);
      false
    else if hay[..|needle|] == needle then
      assert OccursAt(hay, needle, 0);
      true
    else
      var rest := Includes(hay[1..], needle);
      ShiftOccurrence(hay, needle);
      rest
  }

  /** An occurrence in `hay` at a non-zero offset is an occurrence in
      `hay[1..]` one position earlier, and back. */
  lemma ShiftOccurrence(hay: string, needle: string)
    requires |hay| > 0
    requires !OccursAt(hay, needle, 0)
    ensures Contains(hay, needle) <==> Contains(hay[1..], needle)
  {
    if Contains(hay, needle) {
      var k :| OccursAt(hay, needle, k);
      assert k != 0;
      assert hay[1..][k - 1..k - 1 + |needle|] == hay[k..k + |needle|];
      assert OccursAt(hay[1..], needle, k - 1);
    }
    if Contains(hay[1..], needle) {
      var k :| OccursAt(hay[1..], needle, k);
      assert hay[1..][k..k + |needle|] == hay[k + 1..k + 1 + |needle|];
      assert OccursAt(hay, needle, k + 1);
    }
  }

  /** Every string includes the empty string (`"abc".includes("")` is true). */
  lemma IncludesEmpty(hay: string)
    ensures Includes(hay, "")
  {
    assert OccursAt(hay, "", 0);
  }

  /** Lower-casing twice is lower-casing once. */
  lemma {:induction false} ToLowerCaseIdempotent(s: string)
    ensures ToLowerCase(ToLowerCase(s)) == ToLowerCase(s)
  {
    if s != [] {
      ToLowerCaseIdempotent(s[1..]);
    }
  }
}
