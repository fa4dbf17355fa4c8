/** Sequences read from the other end. */
module Sequences {

  /** The same elements, last one first. */
  function Mirrored<T>(s: seq<T>): (r: seq<T>)
    ensures |r| == |s|
    ensures forall k :: 0 <= k < |s| ==> r[k] == s[|s| - 1 - k]
  {
    seq(|s|, k requires 0 <= k < |s| => s[|s| - 1 - k])
  }

  lemma MirroredConcat<T>(a: seq<T>, b: seq<T>)
    ensures Mirrored(a + b) == Mirrored(b) + Mirrored(a)
  {
  }

  lemma MirroredMembers<T>(s: seq<T>, x: T)
    ensures x in Mirrored(s) <==> x in s
  {
    if x in s {
      var k :| 0 <= k < |s| && s[k] == x;
      assert Mirrored(s)[|s| - 1 - k] == x;
    }
  }
}
