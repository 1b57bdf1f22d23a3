/** The totals an iterator adds up, held against the counters of the table. */
module Totals {
  import opened Focus
  import opened Sequences
  import opened Values
  import opened Chains
  import opened Protocol
  import opened Invariants
  import opened Safety
  import opened Runs
  import opened Iteration

  // ---- sums over the same entries in another order ----

  function Skipping(ps: seq<Ptr>, k: nat): seq<Ptr>
    requires k < |ps|
  {
    ps[..k] + ps[k + 1..]
  }

  lemma {:induction false} TotalsWithout(mem: Cells, ps: seq<Ptr>, k: nat)
    requires k < |ps| && forall p :: p in ps ==> p in mem
    ensures MemTotal(mem, ps) == MemTotal(mem, Skipping(ps, k)) + mem[ps[k]].memSize
    ensures HitTotal(mem, ps) == HitTotal(mem, Skipping(ps, k)) + mem[ps[k]].hits
    decreases |ps|
  {
    var front, last := ps[..|ps| - 1], ps[|ps| - 1];
    if k == |ps| - 1 {
      assert Skipping(ps, k) == front;
    } else {
      TotalsWithout(mem, front, k);
      assert Skipping(ps, k) == Skipping(front, k) + [last];
      assert Skipping(ps, k)[..|ps| - 2] == Skipping(front, k);
    }
  }

  lemma SkippingHas(ps: seq<Ptr>, k: nat, p: Ptr)
    requires k < |ps| && Distinct(ps)
    ensures Distinct(Skipping(ps, k)) && (p in Skipping(ps, k) <==> p in ps && p != ps[k])
  {
    if p in ps && p != ps[k] {
      var i :| 0 <= i < |ps| && ps[i] == p;
      assert p in (if i < k then ps[..i + 1] else ps[i..]);
      assert i < k ==> Skipping(ps, k)[i] == p;
      assert i > k ==> Skipping(ps, k)[i - 1] == p;
    }
  }

  /** Two lists of the same entries without repetitions have the same totals. */
  lemma {:induction false} SameTotals(mem: Cells, a: seq<Ptr>, b: seq<Ptr>)
    requires Distinct(a) && Distinct(b) && (forall p :: p in a <==> p in b) && forall p :: p in a ==> p in mem
    ensures |a| == |b| && MemTotal(mem, a) == MemTotal(mem, b) && HitTotal(mem, a) == HitTotal(mem, b)
    decreases |a|
  {
    assert b != [] ==> b[0] in b;
    if a != [] {
      var front, x := a[..|a| - 1], a[|a| - 1];
      assert x in b;
      var k :| 0 <= k < |b| && b[k] == x;
      forall p ensures p in front <==> p in Skipping(b, k) {
        SkippingHas(b, k, p);
        SkippingHas(a, |a| - 1, p);
        assert Skipping(a, |a| - 1) == front;
      }
      SkippingHas(b, k, x);
      SameTotals(mem, front, Skipping(b, k));
      TotalsWithout(mem, b, k);
    }
  }

  // ---- the iterator's totals ----

  function Entries(y: seq<Item>): seq<Ptr> {
    seq(|y|, i requires 0 <= i < |y| => y[i].entry)
  }

  lemma {:induction false} SumsAreTotals(v: Shared, y: seq<Item>, n: nat)
    requires n <= |y|
    ensures MemSum(v, y, n) == MemTotal(v.mem, Entries(y)[..n]) && HitSum(v, y, n) == HitTotal(v.mem, Entries(y)[..n])
    decreases n
  {
    if n > 0 {
      SumsAreTotals(v, y, n - 1);
      assert Entries(y)[..n][..n - 1] == Entries(y)[..n - 1];
    }
  }

  lemma {:induction false} ChunkHas(v: Shared, wanted: Bytes -> bool, n: nat, it: Item)
    requires Structure(v) && n <= |v.chains|
    ensures it in Chunk(v, wanted, 0, n) <==> Present(v, wanted, it) && SlotOf(it.key, |v.slots|) < n
    decreases n
  {
    if n > 0 {
      ChunkHas(v, wanted, n - 1, it);
      RowHas(v, wanted, n - 1, it);
    }
  }

  lemma {:induction false} ChunkOnce(v: Shared, wanted: Bytes -> bool, n: nat)
    requires Structure(v) && n <= |v.chains|
    ensures Unrepeated(Chunk(v, wanted, 0, n))
    decreases n
  {
    if n > 0 {
      ChunkOnce(v, wanted, n - 1);
      RowOnce(v, wanted, n - 1);
      var before, row := Chunk(v, wanted, 0, n - 1), Row(v, wanted, n - 1);
      forall it | it in before ensures it !in row {
        ChunkHas(v, wanted, n - 1, it);
        RowHas(v, wanted, n - 1, it);
      }
      UnrepeatedJoin(before, row);
    }
  }

  lemma ItemLinked(v: Shared, wanted: Bytes -> bool, it: Item)
    requires Structure(v) && Present(v, wanted, it)
    ensures Linked(v, it.entry) && v.mem[it.entry].key == it.key
  {
    assert LookAtState(0);
  }

  lemma LinkedItem(v: Shared, wanted: Bytes -> bool, p: Ptr)
    requires Structure(v) && Linked(v, p) && (forall k :: wanted(k))
    ensures Present(v, wanted, Item(p, v.mem[p].key)) && SlotOf(v.mem[p].key, |v.slots|) < |v.slots|
  {
  }

  /** An iterator over all keys adds up exactly the bound entries. */
  lemma AllItems(v: Shared, wanted: Bytes -> bool)
    requires Structure(v) && forall k :: wanted(k)
    ensures Distinct(Entries(Chunk(v, wanted, 0, |v.slots|)))
    ensures forall p :: p in Entries(Chunk(v, wanted, 0, |v.slots|)) <==> Linked(v, p)
  {
    var y := Chunk(v, wanted, 0, |v.slots|);
    forall i | 0 <= i < |y| ensures Linked(v, y[i].entry) && v.mem[y[i].entry].key == y[i].key {
      assert y[i] in y;
      ChunkHas(v, wanted, |v.slots|, y[i]);
      ItemLinked(v, wanted, y[i]);
    }
    ChunkOnce(v, wanted, |v.slots|);
    assert Distinct(y) by {
      assert LookInside(0);
    }
    forall p | Linked(v, p) ensures p in Entries(y) {
      var it := Item(p, v.mem[p].key);
      LinkedItem(v, wanted, p);
      ChunkHas(v, wanted, |v.slots|, it);
      var i :| 0 <= i < |y| && y[i] == it;
      assert Entries(y)[i] == p;
    }
  }

  /**
   * Read away from an insertion's bookkeeping, the totals of an iterator over all keys are the counters in the header:
   * entries, bytes and, readers between two increments aside, hits.
   */
  lemma TotalsAgree(trace: seq<State>, i: nat, wanted: Bytes -> bool, count: nat, bytes: nat, hits: nat)
    requires Run(trace) && i < |trace| && forall t :: 0 <= t < |trace[i].pcs| ==> !Tallying(trace[i].pcs[t])
    requires (forall k :: wanted(k))
    requires Counts(trace[i].sh, Chunk(trace[i].sh, wanted, 0, |trace[i].sh.slots|), count, bytes, hits)
    ensures count == trace[i].sh.entries && bytes == trace[i].sh.memSize
    ensures hits + Between(trace[i].pcs) == trace[i].sh.hits
  {
    var sh := trace[i].sh;
    var y := Chunk(sh, wanted, 0, |sh.slots|);
    RunKeeps(trace, i);
    CountersAgree(trace, i);
    HitsCounted(trace, i);
    BindingsListed(sh);
    AllItems(sh, wanted);
    SumsAreTotals(sh, y, |y|);
    assert Entries(y)[..|y|] == Entries(y);
    assert Distinct(sh.order) && forall p :: p in sh.order <==> Linked(sh, p) by {
      assert LookInside(0);
    }
    SameTotals(sh.mem, Entries(y), sh.order);
  }
}
