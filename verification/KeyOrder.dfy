/** Byte strings in the order of `bytes.Compare`. */
module KeyOrder {
  import opened Bytes

  type Key = seq<Byte>

  /** Lexicographic order, a proper prefix coming first. */
  predicate Less(a: Key, b: Key)
    decreases |a|
  {
    if b == [] then false
    else if a == [] then true
    else a[0] < b[0] || (a[0] == b[0] && Less(a[1..], b[1..]))
  }

  lemma {:induction false} LessIrreflexive(a: Key)
    ensures !Less(a, a)
    decreases |a|
  {
    if a != [] {
      LessIrreflexive(a[1..]);
    }
  }

  lemma {:induction false} LessTransitive(a: Key, b: Key, c: Key)
    requires Less(a, b) && Less(b, c)
    ensures Less(a, c)
    decreases |a|
  {
    if a != [] && a[0] == b[0] && b[0] == c[0] {
      LessTransitive(a[1..], b[1..], c[1..]);
    }
  }

  lemma {:induction false} LessTotal(a: Key, b: Key)
    ensures Less(a, b) || a == b || Less(b, a)
    decreases |a|
  {
    if a != [] && b != [] && a[0] == b[0] {
      LessTotal(a[1..], b[1..]);
      assert a == [a[0]] + a[1..] && b == [b[0]] + b[1..];
    }
  }

  /** `a` comes before `b` when walking forwards or backwards. */
  predicate Before(forwards: bool, a: Key, b: Key) {
    if forwards then Less(a, b) else Less(b, a)
  }

  lemma BeforeOrder(forwards: bool, a: Key, b: Key, c: Key)
    ensures !Before(forwards, a, a)
    ensures Before(forwards, a, b) || a == b || Before(forwards, b, a)
    ensures Before(forwards, a, b) && Before(forwards, b, c) ==> Before(forwards, a, c)
    ensures Before(forwards, a, b) ==> !Before(forwards, b, a)
  {
    hide Less;
    LessIrreflexive(a);
    LessTotal(a, b);
    if Less(a, b) && Less(b, c) {
      LessTransitive(a, b, c);
    }
    if Less(b, a) && Less(c, b) {
      LessTransitive(c, b, a);
    }
    if Less(a, b) && Less(b, a) {
      LessTransitive(a, b, a);
    }
  }
}
