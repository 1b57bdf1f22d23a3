/** Iterators at work while other threads store: what they see along a run only grows. */
module IteratorRuns {
  import opened Focus
  import opened Sequences
  import opened Values
  import opened Chains
  import opened Protocol
  import opened Invariants
  import opened Safety
  import opened Publishing
  import opened Runs
  import opened Iteration

  /** The chains of `b` are those of `a`, perhaps longer. */
  ghost predicate LongerChains(a: Shared, b: Shared) {
    && |b.slots| == |a.slots| && |b.chains| == |a.chains|
    && forall sl {:trigger a.chains[sl]} {:trigger b.chains[sl]} ::
      0 <= sl < |a.chains| ==> a.chains[sl] <= b.chains[sl]
  }

  lemma StoreChains(sh: Shared, pc: PC, choice: Ptr)
    requires pc.Storing? && Ready(sh, pc)
    ensures LongerChains(sh, StoreStep(sh, pc, choice).1)
  {
  }

  lemma FindChains(sh: Shared, pc: PC, protect: bool)
    requires pc.Finding? && Ready(sh, pc)
    ensures LongerChains(sh, FindStep(sh, pc, protect).1)
  {
  }

  /** A step adds at most one entry, at the end of one chain. */
  lemma StepChains(s: State, s': State)
    requires Step(s, s')
    ensures LongerChains(s.sh, s'.sh)
  {
    var t: nat, choice: Ptr, call: Call :| Steps(s, s', t, choice, call);
    if s.pcs[t].Storing? {
      StoreChains(s.sh, s.pcs[t], choice);
    } else if s.pcs[t].Finding? {
      FindChains(s.sh, s.pcs[t], s.protect);
    }
  }

  /** Bound entries keep their keys. */
  lemma ChainKeeps(a: Shared, b: Shared, sl: nat)
    requires Structure(a) && sl < |a.slots| && BindingsStay(a, b)
    ensures forall p :: p in a.chains[sl] ==> KeyAt(b, p) == KeyAt(a, p)
  {
    ChainLinked(a, sl);
    forall p | p in a.chains[sl] ensures KeyAt(b, p) == KeyAt(a, p) {
      assert LeftAlone(a, b, a.mem[p].key);
    }
  }

  lemma {:induction false} RunChains(trace: seq<State>, i: nat, j: nat)
    requires Run(trace) && i <= j < |trace|
    ensures LongerChains(trace[i].sh, trace[j].sh)
    decreases j
  {
    if i < j {
      RunChains(trace, i, j - 1);
      assert Goes(trace, j - 1);
      StepChains(trace[j - 1], trace[j]);
    }
  }

  /** Along a run the table is well formed at every moment, and grows from each to every later one. */
  lemma RunGrows(trace: seq<State>, i: nat, j: nat)
    requires Run(trace) && i <= j < |trace|
    ensures Structure(trace[i].sh) && Grows(trace[i].sh, trace[j].sh)
  {
    RunKeeps(trace, i);
    RunChains(trace, i, j);
    BoundForever(trace, i, j);
    forall sl | 0 <= sl < |trace[i].sh.chains|
      ensures ChainGrows(trace[i].sh, trace[j].sh, trace[i].sh.chains[sl], trace[j].sh.chains[sl])
    {
      ChainKeeps(trace[i].sh, trace[j].sh, sl);
    }
  }

  /** The moments of a run at which an iterator reads, one after the other. */
  ghost predicate Moments(trace: seq<State>, times: nat -> nat, env: nat -> Shared) {
    && (forall i {:trigger times(i)} {:trigger env(i)} :: times(i) < |trace| && env(i) == trace[times(i)].sh)
    && (forall i, j {:trigger times(i), times(j)} :: i <= j ==> times(i) <= times(j))
  }

  lemma MomentsGrow(trace: seq<State>, times: nat -> nat, env: nat -> Shared)
    requires Run(trace) && Moments(trace, times, env)
    ensures GrowingTable(env)
  {
    forall i ensures Structure(env(i)) {
      RunGrows(trace, times(i), times(i));
    }
    forall i: nat, j: nat | i <= j ensures Grows(env(i), env(j)) {
      RunGrows(trace, times(i), times(j));
    }
  }

  /**
   * A foreach during any run of any number of threads, reading at any moments of it: it yields every wanted entry
   * bound when it began, no entry twice, and only wanted entries that some moment of its reading has bound, all
   * of which are bound still at the end of the run.
   */
  method ForeachInRun(it: Iterator, ghost trace: seq<State>, ghost times: nat -> nat, env: nat -> Shared)
    returns (yielded: seq<Item>)
    requires it.Valid() && Run(trace) && Moments(trace, times, env)
    modifies it, it.stack, it.stack.data
    ensures Unrepeated(yielded)
    ensures forall k {:trigger k in trace[times(0)].sh.table} :: k in trace[times(0)].sh.table && it.wanted(k) ==>
      Item(trace[times(0)].sh.table[k], k) in yielded
    ensures forall item :: item in yielded ==> it.wanted(item.key) && exists i: nat :: HasItem(trace[times(i)].sh, item)
    ensures forall item :: item in yielded ==> HasItem(trace[|trace| - 1].sh, item)
  {
    MomentsGrow(trace, times, env);
    ghost var rows;
    yielded, rows := it.Foreach(env);
    YieldsBegun(trace, times, env, it.wanted, yielded);
    forall item | item in yielded
      ensures it.wanted(item.key) && (exists i: nat :: HasItem(trace[times(i)].sh, item))
      ensures HasItem(trace[|trace| - 1].sh, item)
    {
      YieldsLast(trace, times, env, it.wanted, item);
    }
  }

  lemma YieldsBegun(trace: seq<State>, times: nat -> nat, env: nat -> Shared, wanted: Bytes -> bool, yielded: seq<Item>)
    requires |trace| > 0 && Moments(trace, times, env)
    requires forall item :: Present(env(0), wanted, item) ==> item in yielded
    ensures forall k {:trigger k in trace[times(0)].sh.table} :: k in trace[times(0)].sh.table && wanted(k) ==>
      Item(trace[times(0)].sh.table[k], k) in yielded
  {
    forall k | k in trace[times(0)].sh.table && wanted(k) ensures Item(trace[times(0)].sh.table[k], k) in yielded {
      assert Present(env(0), wanted, Item(trace[times(0)].sh.table[k], k));
    }
  }

  lemma YieldsLast(trace: seq<State>, times: nat -> nat, env: nat -> Shared, wanted: Bytes -> bool, item: Item)
    requires Run(trace) && Moments(trace, times, env) && exists i: nat :: Present(env(i), wanted, item)
    ensures wanted(item.key) && (exists i: nat :: HasItem(trace[times(i)].sh, item))
    ensures HasItem(trace[|trace| - 1].sh, item)
  {
    var i: nat :| Present(env(i), wanted, item);
    assert HasItem(trace[times(i)].sh, item);
    BoundForever(trace, times(i), |trace| - 1);
    assert LeftAlone(trace[times(i)].sh, trace[|trace| - 1].sh, item.key);
  }

  /** The item is bound under its key. */
  predicate HasItem(sh: Shared, item: Item) {
    item.key in sh.table && sh.table[item.key] == item.entry
  }
}
