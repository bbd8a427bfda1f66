/** The two string operations of the campaign search: `toLowerCase` and
    `String.prototype.includes`. Lower-casing is a per-character mapping
    supplied by the caller, so every result here holds whatever the mapping. */
module Text {

  /** `s.toLowerCase()`: every character mapped through `lower`. */
  function Lower(s: string, lower: char -> char): string
  {
    seq(|s|, i requires 0 <= i < |s| => lower(s[i]))
  }

  /** `needle` occurs in `hay` starting at position `i`. */
  ghost predicate OccursAt(hay: string, needle: string, i: nat)
  {
    i + |needle| <= |hay| && hay[i..i + |needle|] == needle
  }

  /** `hay.includes(needle)`: scan the start positions of `hay` from the left
      for one where `needle` is a prefix of the rest. */
  function Includes(hay: string, needle: string): (r: bool)
    ensures r <==> exists i: nat :: OccursAt(hay, needle, i)
    ensures needle == [] ==> r
    ensures |needle| > |hay| ==> !r
  {
    if needle <= hay then
      assert OccursAt(hay, needle, 0);
      true
    else if hay == [] then
      false
    else
      var r := Includes(hay[1..], needle);
      assert r ==> exists i: nat :: OccursAt(hay, needle, i) by {
        if r {
          var i: nat :| OccursAt(hay[1..], needle, i);
          assert hay[1..][i..i + |needle|] == hay[i + 1..i + 1 + |needle|];
          assert OccursAt(hay, needle, i + 1);
        }
      }
      assert (exists i: nat :: OccursAt(hay, needle, i)) ==> r by {
        if i: nat :| OccursAt(hay, needle, i) {
          assert i > 0;
          assert hay[1..][i - 1..i - 1 + |needle|] == hay[i..i + |needle|];
          assert OccursAt(hay[1..], needle, i - 1);
        }
      }
      r
  }
}
