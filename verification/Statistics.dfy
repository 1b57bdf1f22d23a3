/** What the statistics count: every finished lookup exactly once, at its entry or as a miss. */
module Statistics {
  import opened Focus
  import opened Values
  import opened Chains
  import opened Protocol
  import opened Invariants
  import opened Safety
  import opened Progress
  import opened Publishing
  import opened Runs

  /** With this step thread `t` finishes a lookup that is to be counted; `p` was bound to its key, 0 for none. */
  predicate Finish(s: State, s': State, t: nat, p: Ptr) {
    && t < |s.pcs| && t < |s'.pcs| && s.pcs[t].Finding? && s'.pcs[t].Finding?
    && !s.pcs[t].find.FindDrop? && s'.pcs[t].find.FindDrop? && s.pcs[t].stat && s.pcs[t].had == p
  }

  ghost predicate Finishes(s: State, s': State, p: Ptr) {
    exists t: nat {:trigger Finish(s, s', t, p)} :: Finish(s, s', t, p)
  }

  /** How many counted lookups up to moment `i` have ended with `p`. */
  ghost function Finished(trace: seq<State>, i: nat, p: Ptr): nat
    requires i < |trace|
  {
    if i == 0 then 0
    else Finished(trace, i - 1, p) + if Finishes(trace[i - 1], trace[i], p) then 1 else 0
  }

  /** The hits that the entry at `p`, if it is bound, has on record. */
  function Credit(sh: Shared, p: Ptr): nat {
    if Linked(sh, p) then sh.mem[p].hits else 0
  }

  // ---- one step ----

  lemma LinkCredit(sh: Shared, pc: PC, p: Ptr)
    requires Structure(sh) && pc.Storing? && pc.at.Linking? && StoreOk(sh, pc) && AllLinked(sh, pc.v.uses)
    requires Ready(sh, pc)
    ensures Credit(Published(sh, pc.k, pc.e, pc.prev), p) == Credit(sh, p)
  {
    assert AtTail(sh, pc.k, pc.v, pc.n, pc.e, pc.prev);
    NewCell(sh, pc.k, pc.v, pc.n, pc.e, pc.prev);
    if p in sh.mem && p != pc.e {
      OldCell(sh, pc.k, pc.v, pc.n, pc.e, pc.prev, p);
    }
  }

  lemma StoreCredit(sh: Shared, pc: PC, choice: Ptr, p: Ptr)
    requires Structure(sh) && pc.Storing? && !pc.at.Linking? && StoreOk(sh, pc) && Ready(sh, pc)
    requires pc.at.Allocating? ==> choice == 0 || choice !in sh.mem
    ensures Credit(StoreStep(sh, pc, choice).1, p) == Credit(sh, p)
  {
    if pc.at.Allocating? && choice != 0 {
      FreshUnbound(sh, choice);
    } else if pc.at.Copying? || pc.at.Freeing? {
      OwnUnbound(sh, pc.e);
    }
  }

  /** Among the steps of a lookup the second increment gives its entry one more hit. */
  lemma FindCredit(sh: Shared, pc: PC, protect: bool, p: Ptr)
    requires Structure(sh) && pc.Finding? && FindOk(sh, pc) && Ready(sh, pc) && p != 0
    ensures Credit(FindStep(sh, pc, protect).1, p) == Credit(sh, p) + if pc.find.Hit2? && pc.had == p then 1 else 0
  {
    if pc.find.Hit2? {
      OldBinding(sh, pc.k);
    }
  }

  /** Only the thread whose turn it is can finish. */
  lemma OnlyMover(s: State, s': State, t: nat, choice: Ptr, call: Call, p: Ptr)
    requires Steps(s, s', t, choice, call)
    ensures Finishes(s, s', p) <==> Finish(s, s', t, p)
  {
    forall u: nat | Finish(s, s', u, p) ensures u == t {
    }
  }

  /** The position a counted lookup finishes from. */
  lemma FinishFrom(sh: Shared, pc: PC, p: Ptr)
    requires pc.Finding? && pc.stat && Ready(sh, pc) && |sh.chains| == |sh.slots| > 0 && FindOk(sh, pc)
    ensures
      var pc' := FindStep(sh, pc, false).0;
      pc'.Finding? && pc'.find.FindDrop? && !pc.find.FindDrop? && pc.had == p <==>
        pc.had == p && if p != 0 then pc.find.Hit2? else pc.find.Missing?
  {
  }

  lemma OwnFinish(s: State, t: nat, choice: Ptr, p: Ptr)
    requires Inv(s) && !s.protect && t < |s.pcs| && s.pcs[t].Finding? && Ready(s.sh, s.pcs[t])
    ensures Finish(s, After(s, t, choice), t, p) <==>
      s.pcs[t].stat && s.pcs[t].had == p && if p != 0 then s.pcs[t].find.Hit2? else s.pcs[t].find.Missing?
  {
    One(s, t);
    if s.pcs[t].stat {
      FinishFrom(s.sh, s.pcs[t], p);
    }
  }

  /** A hit or a miss is counted only for lookups that ask for it, and not under memory protection. */
  predicate Minded(s: State) {
    forall t {:trigger s.pcs[t]} :: 0 <= t < |s.pcs| && s.pcs[t].Finding? ==>
      (s.pcs[t].find.Hit1? || s.pcs[t].find.Hit2? || s.pcs[t].find.Missing? ==> s.pcs[t].stat && !s.protect)
  }

  lemma FindMinded(sh: Shared, pc: PC, protect: bool)
    requires pc.Finding? && Ready(sh, pc)
    requires pc.find.Hit1? || pc.find.Hit2? || pc.find.Missing? ==> pc.stat && !protect
    ensures
      var pc' := FindStep(sh, pc, protect).0;
      pc'.Finding? && (pc'.find.Hit1? || pc'.find.Hit2? || pc'.find.Missing?) ==> pc'.stat && !protect
  {
  }

  lemma StepMinded(s: State, s': State)
    requires Minded(s) && Step(s, s')
    ensures Minded(s') && s'.protect == s.protect
  {
    var t: nat, choice: Ptr, call: Call :| Steps(s, s', t, choice, call);
    if s.pcs[t].Finding? {
      FindMinded(s.sh, s.pcs[t], s.protect);
    }
  }

  lemma StepCredit(s: State, s': State, p: Ptr)
    requires Inv(s) && Minded(s) && Step(s, s') && !s.protect && p != 0
    ensures Credit(s'.sh, p) == Credit(s.sh, p) + if Finishes(s, s', p) then 1 else 0
  {
    var t: nat, choice: Ptr, call: Call :| Steps(s, s', t, choice, call);
    var pc := s.pcs[t];
    OnlyMover(s, s', t, choice, call, p);
    One(s, t);
    match pc
    case Idle =>
    case Storing(at, _, _, _, _, _, _, _) =>
      if at.Linking? {
        LinkCredit(s.sh, pc, p);
      } else {
        StoreCredit(s.sh, pc, choice, p);
      }
    case Finding(_, _, _, _, _, _) =>
      FindCredit(s.sh, pc, s.protect, p);
      OwnFinish(s, t, choice, p);
    case Listing(_, _, _, _, _, _) =>
  }

  lemma StepMisses(s: State, s': State)
    requires Inv(s) && Minded(s) && Step(s, s') && !s.protect
    ensures s'.sh.misses == s.sh.misses + if Finishes(s, s', 0) then 1 else 0
  {
    var t: nat, choice: Ptr, call: Call :| Steps(s, s', t, choice, call);
    OnlyMover(s, s', t, choice, call, 0);
    if s.pcs[t].Finding? {
      One(s, t);
      OwnFinish(s, t, choice, 0);
    }
  }

  // ---- whole runs ----

  lemma {:induction false} RunMinded(trace: seq<State>, i: nat)
    requires Run(trace) && i < |trace|
    ensures Minded(trace[i]) && trace[i].protect == trace[0].protect
    decreases i
  {
    if i > 0 {
      RunMinded(trace, i - 1);
      assert Goes(trace, i - 1);
      StepMinded(trace[i - 1], trace[i]);
    }
  }

  /**
   * Without memory protection, at every moment of every run, a bound entry has as many hits as lookups with statistics
   * have ended with it; before it is bound none has.
   */
  lemma {:induction false} HitsPerEntry(trace: seq<State>, i: nat, p: Ptr)
    requires Run(trace) && i < |trace| && !trace[0].protect && p != 0
    ensures Finished(trace, i, p) == if Linked(trace[i].sh, p) then trace[i].sh.mem[p].hits else 0
    decreases i
  {
    if i > 0 {
      HitsPerEntry(trace, i - 1, p);
      RunMinded(trace, i - 1);
      RunKeeps(trace, i - 1);
      assert Goes(trace, i - 1);
      StepCredit(trace[i - 1], trace[i], p);
    }
  }

  /** And the misses are the lookups with statistics that have ended with nothing. */
  lemma {:induction false} MissesCounted(trace: seq<State>, i: nat)
    requires Run(trace) && i < |trace| && !trace[0].protect
    ensures trace[i].sh.misses == Finished(trace, i, 0)
    decreases i
  {
    if i > 0 {
      MissesCounted(trace, i - 1);
      RunMinded(trace, i - 1);
      RunKeeps(trace, i - 1);
      assert Goes(trace, i - 1);
      StepMisses(trace[i - 1], trace[i]);
    }
  }

  /** Under memory protection readers write nothing: no step changes hits or misses. */
  lemma {:induction false} ProtectedUncounted(trace: seq<State>, i: nat, p: Ptr)
    requires Run(trace) && i < |trace| && trace[0].protect && p != 0
    ensures trace[i].sh.hits == 0 && trace[i].sh.misses == 0 && Credit(trace[i].sh, p) == 0
    decreases i
  {
    if i > 0 {
      ProtectedUncounted(trace, i - 1, p);
      RunMinded(trace, i - 1);
      RunKeeps(trace, i - 1);
      assert Goes(trace, i - 1);
      StepUncounted(trace[i - 1], trace[i], p);
    }
  }

  lemma StepUncounted(s: State, s': State, p: Ptr)
    requires Inv(s) && Minded(s) && Step(s, s') && s.protect && p != 0
    ensures s'.sh.hits == s.sh.hits && s'.sh.misses == s.sh.misses && Credit(s'.sh, p) == Credit(s.sh, p)
  {
    var t: nat, choice: Ptr, call: Call :| Steps(s, s', t, choice, call);
    var pc := s.pcs[t];
    One(s, t);
    match pc
    case Idle =>
    case Storing(at, _, _, _, _, _, _, _) =>
      if at.Linking? {
        LinkCredit(s.sh, pc, p);
      } else {
        StoreCredit(s.sh, pc, choice, p);
      }
    case Finding(_, _, _, _, _, _) => FindCredit(s.sh, pc, s.protect, p);
    case Listing(_, _, _, _, _, _) =>
  }
}
