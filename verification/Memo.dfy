/** The memo tables of the persist engine: pointers are entered under a rotated key. */
module Memo {
  import opened Layout
  import opened Values

  /** immutable_cache_shr3: a pointer rotated right by three bits. */
  function Rotated(p: Ptr): nat
    requires p < SIZE_LIMIT
  {
    p / 8 + (p % 8) * (SIZE_LIMIT / 8)
  }

  /** Rotation never gives two pointers the same key. */
  lemma RotatedInjective(p: Ptr, q: Ptr)
    requires p < SIZE_LIMIT && q < SIZE_LIMIT && Rotated(p) == Rotated(q)
    ensures p == q
  {
    assert p / 8 < SIZE_LIMIT / 8 && q / 8 < SIZE_LIMIT / 8;
    assert p % 8 == q % 8;
  }

  /** The key set stands for exactly the pointers in `ps`. */
  ghost predicate KeysOf(keys: set<nat>, ps: seq<Ptr>) {
    forall p: nat {:trigger Rotated(p)} :: p < SIZE_LIMIT ==> (p in ps <==> Rotated(p) in keys)
  }

  lemma KeysOfMore(keys: set<nat>, ps: seq<Ptr>, p: Ptr)
    requires KeysOf(keys, ps) && p < SIZE_LIMIT
    ensures KeysOf(keys + {Rotated(p)}, ps + [p])
  {
    forall q | 0 <= q < SIZE_LIMIT ensures q in ps + [p] <==> Rotated(q) in keys + {Rotated(p)} {
      assert q in ps + [p] <==> q in ps || q == p;
      if Rotated(q) == Rotated(p) {
        RotatedInjective(q, p);
      }
    }
  }

  /** The table holds exactly the pairs of `moved`. */
  ghost predicate TableOf(table: map<nat, Ptr>, moved: map<Ptr, Ptr>) {
    forall p: nat {:trigger Rotated(p)} :: p < SIZE_LIMIT ==>
      (p in moved <==> Rotated(p) in table) && (p in moved ==> table[Rotated(p)] == moved[p])
  }

  lemma TableOfMore(table: map<nat, Ptr>, moved: map<Ptr, Ptr>, p: Ptr, a: Ptr)
    requires TableOf(table, moved) && p < SIZE_LIMIT
    ensures TableOf(table[Rotated(p) := a], moved[p := a])
  {
    forall q: nat | q < SIZE_LIMIT
      ensures q in moved[p := a] <==> Rotated(q) in table[Rotated(p) := a]
      ensures q in moved[p := a] ==> table[Rotated(p) := a][Rotated(q)] == moved[p := a][q]
    {
      if Rotated(q) == Rotated(p) {
        RotatedInjective(q, p);
      }
    }
  }
}
