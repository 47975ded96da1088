/** Facts about text and sets that several components share. */
module Basics {

  /** What text stripping and the whitespace class of a pattern treat as space. */
  predicate IsSpace(c: char) {
    || '\U{0009}' <= c <= '\U{000d}' || '\U{001c}' <= c <= '\U{0020}'
    || c == '\U{0085}' || c == '\U{00a0}' || c == '\U{1680}'
    || '\U{2000}' <= c <= '\U{200a}' || c == '\U{2028}' || c == '\U{2029}'
    || c == '\U{202f}' || c == '\U{205f}' || c == '\U{3000}'
  }

  lemma {:induction false} SubsetSize<T>(a: set<T>, b: set<T>)
    requires a <= b
    ensures |a| <= |b|
  {
    if a != {} {
      var x :| x in a;
      SubsetSize(a - {x}, b - {x});
    }
  }
}
