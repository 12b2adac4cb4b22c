/** Facts about sequences and sets that several modules share. */
module Collections {
  predicate NoDuplicates<T(==)>(s: seq<T>) {
    forall i, j :: 0 <= i < j < |s| ==> s[i] != s[j]
  }

  lemma {:induction false} Smaller<T>(a: set<T>, b: set<T>, x: T)
    requires a <= b && x in b && x !in a
    ensures |a| < |b|
    decreases a
  {
    if a != {} {
      var y :| y in a;
      Smaller(a - {y}, b - {y}, x);
    }
  }

  /** A set that has seen one more element leaves less to see. */
  lemma Fewer<T>(all: set<T>, less: set<T>, more: set<T>, x: T)
    requires less <= more && x in all && x !in less && x in more
    ensures |all - more| < |all - less|
  {
    Smaller(all - more, all - less, x);
  }
}
