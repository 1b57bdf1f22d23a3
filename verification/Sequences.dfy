/** Sequences without repetitions. */
module Sequences {
  import opened Focus

  ghost predicate Distinct<T(!new)>(s: seq<T>) {
    forall i, j :: 0 <= i < j < |s| ==> s[i] != s[j]
  }

  /** The same, folded. */
  ghost predicate Unrepeated<T(!new)>(s: seq<T>) {
    forall z {:trigger LookInside(z)} :: LookInside(z) ==> Distinct(s)
  }

  lemma UnrepeatedMore<T(!new)>(s: seq<T>, x: T)
    requires Unrepeated(s) && x !in s
    ensures Unrepeated(s + [x])
  {
  }

  lemma UnrepeatedJoin<T(!new)>(a: seq<T>, b: seq<T>)
    requires Unrepeated(a) && Unrepeated(b) && forall x :: x in a ==> x !in b
    ensures Unrepeated(a + b)
  {
    assert LookInside(0);
    forall i, j | 0 <= i < j < |a + b| ensures (a + b)[i] != (a + b)[j] {
      if i < |a| <= j {
        assert (a + b)[i] in a && (a + b)[j] in b;
      }
    }
  }
}
