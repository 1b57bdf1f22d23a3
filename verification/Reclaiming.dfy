/** Nothing is lost: every block taken is bound, or in the hands of a store that has not given it back yet. */
module Reclaiming {
  import opened Focus
  import opened Values
  import opened Chains
  import opened Protocol
  import opened Invariants
  import opened Safety
  import opened Publishing
  import opened Runs

  /** Thread `t` is in a store that has taken this block, and has neither returned nor given it back. */
  predicate InHand(s: State, p: Ptr, t: nat) {
    && p != 0 && t < |s.pcs| && s.pcs[t].Storing? && s.pcs[t].e == p
    && !s.pcs[t].at.Freed? && !s.pcs[t].at.Returned?
  }

  /** The block is bound, or some store has it in hand. */
  ghost predicate Accounted(s: State, p: Ptr) {
    Linked(s.sh, p) || exists t: nat {:trigger InHand(s, p, t)} :: InHand(s, p, t)
  }

  ghost predicate AllAccounted(s: State) {
    forall p {:trigger p in s.sh.mem} :: p in s.sh.mem ==> Accounted(s, p)
  }

  /** A store keeps its block until it is bound or given back. */
  lemma OwnBlock(s: State, t: nat, choice: Ptr, p: Ptr)
    requires Inv(s) && InHand(s, p, t) && p in s.sh.mem && Ready(s.sh, s.pcs[t])
    requires s.pcs[t].at.Allocating? ==> choice == 0 || choice !in s.sh.mem
    requires p in After(s, t, choice).sh.mem
    ensures Accounted(After(s, t, choice), p)
  {
    One(s, t);
    var s', pc := After(s, t, choice), s.pcs[t];
    if pc.at.Linking? {
      assert AtTail(s.sh, pc.k, pc.v, pc.n, pc.e, pc.prev);
      NewCell(s.sh, pc.k, pc.v, pc.n, pc.e, pc.prev);
      assert InHand(s', p, t);
    } else if pc.at.DropGlobal? && pc.ok {
      assert Linked(s.sh, p) && s'.sh.mem == s.sh.mem && s'.sh.table == s.sh.table;
      assert Linked(s'.sh, p);
    } else {
      assert InHand(s', p, t);
    }
  }

  /** No step loses a block, and what is new belongs to the thread that took it. */
  lemma StepAccounts(s: State, s': State)
    requires Inv(s) && Step(s, s') && AllAccounted(s)
    ensures AllAccounted(s')
  {
    var t: nat, choice: Ptr, call: Call :| Steps(s, s', t, choice, call);
    StepBinds(s, s');
    forall p | p in s'.sh.mem ensures Accounted(s', p) {
      if p !in s.sh.mem {
        NewBlock(s, s', t, choice, call, p);
      } else if Linked(s.sh, p) {
        assert LeftAlone(s.sh, s'.sh, s.sh.mem[p].key);
      } else {
        assert Accounted(s, p);
        var u: nat :| InHand(s, p, u);
        if u == t {
          OwnBlock(s, t, choice, p);
        } else {
          assert InHand(s', p, u);
        }
      }
    }
  }

  /** Only the allocator adds blocks. */
  lemma StoreAdds(sh: Shared, pc: PC, choice: Ptr, p: Ptr)
    requires pc.Storing? && Ready(sh, pc) && (pc.at.Copying? ==> pc.e in sh.mem)
    requires p !in sh.mem && p in StoreStep(sh, pc, choice).1.mem
    ensures pc.at.Allocating? && choice == p != 0
  {
  }

  lemma NewBlock(s: State, s': State, t: nat, choice: Ptr, call: Call, p: Ptr)
    requires Steps(s, s', t, choice, call) && p !in s.sh.mem && p in s'.sh.mem
    ensures InHand(s', p, t)
  {
    if s.pcs[t].Storing? {
      StoreAdds(s.sh, s.pcs[t], choice, p);
    }
  }

  /**
   * At every moment of every run each block in shared memory is that of a bound entry, or of a store still under way
   * that has taken it.
   */
  lemma {:induction false} NothingLost(trace: seq<State>, i: nat)
    requires Run(trace) && i < |trace|
    ensures forall p {:trigger p in trace[i].sh.mem} :: p in trace[i].sh.mem ==> Accounted(trace[i], p)
    decreases i
  {
    if i > 0 {
      NothingLost(trace, i - 1);
      RunKeeps(trace, i - 1);
      assert Goes(trace, i - 1);
      StepAccounts(trace[i - 1], trace[i]);
    }
  }

  /** When no call is under way, the blocks are those of the bound entries: rejected stores have left none. */
  lemma IdleMemory(trace: seq<State>, i: nat)
    requires Run(trace) && i < |trace| && forall t :: 0 <= t < |trace[i].pcs| ==> trace[i].pcs[t].Idle?
    ensures trace[i].sh.mem.Keys == trace[i].sh.table.Values
    ensures forall k {:trigger trace[i].sh.table[k]} :: k in trace[i].sh.table ==>
      trace[i].sh.table[k] in trace[i].sh.mem && trace[i].sh.mem[trace[i].sh.table[k]].key == k
  {
    NothingLost(trace, i);
    RunKeeps(trace, i);
    var sh := trace[i].sh;
    forall p | p in sh.mem ensures p in sh.table.Values {
      assert Accounted(trace[i], p);
      assert sh.mem[p].key in sh.table && sh.table[sh.mem[p].key] == p;
    }
    forall k | k in sh.table ensures sh.table[k] in sh.mem && sh.mem[sh.table[k]].key == k {
      OldBinding(sh, k);
    }
  }
}
