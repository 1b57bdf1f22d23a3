/** Calls come to an end: every step brings its thread closer to the return, and threads do not hold each other up. */
module Endings {
  import opened Focus
  import opened Tiles
  import opened Values
  import opened Chains
  import opened Protocol
  import opened Invariants
  import opened Safety
  import opened Progress
  import opened Publishing
  import opened Runs

  // ---- exclusion ----

  /** Inside the allocator, whose headers and free list have no lock of their own. */
  predicate InAllocator(pc: PC) {
    pc.Storing? && (pc.at.Allocating? || pc.at.Freeing?)
  }

  /** Between meeting the end of the chain and the last of the counters. */
  predicate Binding(pc: PC) {
    pc.Storing? && (pc.at.Walking? || pc.at.Linking? || Tallying(pc))
  }

  predicate Surveying(pc: PC) {
    pc.Listing? && (pc.info.InfoLocked? || pc.info.InfoWalking?)
  }

  /** A lookup between its lock and its answer. */
  predicate LookingUp(pc: PC) {
    pc.Finding? && (pc.find.FindLocked? || pc.find.FindWalking? || pc.find.Hit1? || pc.find.Hit2? || pc.find.Missing?)
  }

  /**
   * At every moment of every run at most one thread is in the allocator or binds a key, and none while another walks
   * the whole table; and none looks up a key under the lock under which another binds one.
   */
  lemma Exclusion(trace: seq<State>, i: nat, t: nat, u: nat)
    requires Run(trace) && i < |trace| && t < |trace[i].pcs| && u < |trace[i].pcs| && t != u
    ensures
      var a, b := trace[i].pcs[t], trace[i].pcs[u];
      && (InAllocator(a) || Binding(a) ==> !InAllocator(b) && !Binding(b) && !Surveying(b))
      && (Binding(a) && LookingUp(b) ==> FineLock(a.k) != FineLock(b.k))
  {
    RunKeeps(trace, i);
    Others(trace[i], t, u);
  }

  // ---- every call ends ----

  /** How many kinds of step are still to come. */
  function Stage(pc: PC): nat {
    match pc
    case Idle => 0
    case Storing(at, _, _, _, _, _, _, _) =>
      (match at
       case WantAlloc => 17
       case Allocating => 16
       case Allocated => 15
       case Copying => 14
       case WantGlobal => 13
       case WantFine => 12
       case Walking => 11
       case Linking => 10
       case Tally0 => 9
       case Tally1 => 8
       case Tally2 => 7
       case DropFine => 6
       case DropGlobal => 5
       case WantFree => 4
       case Freeing => 3
       case Freed => 2
       case Returned => 1)
    case Finding(find, _, _, _, _, _) =>
      (match find
       case FindWant => 7
       case FindLocked => 6
       case FindWalking => 5
       case Hit1 => 4
       case Hit2 => 3
       case Missing => 3
       case FindDrop => 2
       case Using => 1)
    case Listing(info, _, _, _, _, _) =>
      (match info
       case InfoWant => 5
       case InfoLocked => 4
       case InfoWalking => 3
       case InfoDrop => 2
       case Reported => 1)
  }

  /** How many steps of a walk are still to come. */
  function ToWalk(sh: Shared, pc: PC): int
    requires |sh.chains| == |sh.slots| > 0
  {
    if pc.Storing? && pc.at.Walking? then |ChainFor(sh, pc.k)| - pc.pos
    else if pc.Finding? && pc.find.FindWalking? then |ChainFor(sh, pc.k)| - pc.pos
    else if pc.Listing? && pc.info.InfoWalking? then
      |Flat(sh.chains, |sh.chains|)| - |pc.list| + |sh.slots| - pc.slot
    else 0
  }

  lemma {:induction false} FlatGrows(chains: seq<seq<Ptr>>, a: nat, b: nat)
    requires a <= b <= |chains|
    ensures |Flat(chains, a)| <= |Flat(chains, b)|
    ensures a < b ==> |Flat(chains, a)| + |chains[a]| <= |Flat(chains, b)|
    decreases b
  {
    if a < b {
      FlatGrows(chains, a, b - 1);
    }
  }

  /** A walk never runs past its end. */
  lemma WalkBounded(s: State, t: nat)
    requires Inv(s) && t < |s.pcs|
    ensures ToWalk(s.sh, s.pcs[t]) >= 0
  {
    One(s, t);
    var pc := s.pcs[t];
    if pc.Listing? && pc.info.InfoWalking? {
      FlatGrows(s.sh.chains, pc.slot, |s.sh.chains|);
    }
  }

  /** Room was not to be had in one segment, and the store tries another. */
  predicate Retries(pc: PC) {
    pc.Storing? && pc.at.Allocated? && pc.e == 0
  }

  lemma WalkFalls(sh: Shared, pc: PC, choice: Ptr)
    requires Structure(sh) && pc.Storing? && pc.at.Walking? && Ready(sh, pc)
    ensures
      var pc' := StoreStep(sh, pc, choice).0;
      Stage(pc') < Stage(pc) || (Stage(pc') == Stage(pc) && ToWalk(sh, pc') < ToWalk(sh, pc))
  {
  }

  lemma StoreFalls(sh: Shared, pc: PC, choice: Ptr)
    requires Structure(sh) && pc.Storing? && !pc.at.Walking? && Ready(sh, pc) && !Retries(pc)
    ensures Stage(StoreStep(sh, pc, choice).0) < Stage(pc)
  {
  }

  lemma FindFalls(sh: Shared, pc: PC, protect: bool)
    requires Structure(sh) && pc.Finding? && FindOk(sh, pc) && Ready(sh, pc)
    ensures
      var pc' := FindStep(sh, pc, protect).0;
      Stage(pc') < Stage(pc) || (Stage(pc') == Stage(pc) && ToWalk(sh, pc') < ToWalk(sh, pc))
  {
  }

  lemma InfoFalls(sh: Shared, pc: PC)
    requires Structure(sh) && pc.Listing? && InfoOk(sh, pc) && Ready(sh, pc)
    ensures
      var pc' := InfoStep(sh, pc).0;
      Stage(pc') < Stage(pc) || (Stage(pc') == Stage(pc) && ToWalk(sh, pc') < ToWalk(sh, pc))
  {
  }

  /** A store changes the chains only as it links its entry. */
  lemma StoreChains(sh: Shared, pc: PC, choice: Ptr)
    requires Structure(sh) && pc.Storing? && Ready(sh, pc)
    ensures
      var sh' := StoreStep(sh, pc, choice).1;
      && |sh'.chains| == |sh'.slots| == |sh.slots|
      && sh'.chains == if pc.at.Linking? then Tailed(sh.chains, SlotOf(pc.k, |sh.slots|), pc.e) else sh.chains
  {
  }

  lemma ChainsAfter(s: State, u: nat, choice: Ptr)
    requires Inv(s) && u < |s.pcs| && Ready(s.sh, s.pcs[u])
    ensures
      var pc, sh, sh' := s.pcs[u], s.sh, After(s, u, choice).sh;
      && |sh'.chains| == |sh'.slots| == |sh.slots|
      && sh'.chains ==
        if pc.Storing? && pc.at.Linking? then Tailed(sh.chains, SlotOf(pc.k, |sh.slots|), pc.e) else sh.chains
  {
    if s.pcs[u].Storing? {
      StoreChains(s.sh, s.pcs[u], choice);
    }
  }

  /**
   * Every step of a call that is not a retry in another segment brings it closer to its return: it is at a later
   * stage, or at the same one with less to walk.
   */
  lemma StepsFall(s: State, t: nat, choice: Ptr)
    requires Inv(s) && t < |s.pcs| && !s.pcs[t].Idle? && Ready(s.sh, s.pcs[t]) && !Retries(s.pcs[t])
    ensures
      var s' := After(s, t, choice);
      var pc, pc' := s.pcs[t], s'.pcs[t];
      && |s'.sh.chains| == |s'.sh.slots| > 0 && 0 <= ToWalk(s.sh, pc)
      && (Stage(pc') < Stage(pc) || (Stage(pc') == Stage(pc) && ToWalk(s'.sh, pc') < ToWalk(s.sh, pc)))
  {
    One(s, t);
    WalkBounded(s, t);
    ChainsAfter(s, t, choice);
    var pc := s.pcs[t];
    if pc.Storing? && pc.at.Walking? {
      WalkFalls(s.sh, pc, choice);
    } else if pc.Storing? {
      StoreFalls(s.sh, pc, choice);
    } else if pc.Finding? {
      FindFalls(s.sh, pc, s.protect);
    } else {
      InfoFalls(s.sh, pc);
    }
  }

  /**
   * The steps of other threads leave a call where it is, and do not lengthen its way, except that a lookup may have to
   * pass an entry that is bound meanwhile under another lock.
   */
  lemma OthersWait(s: State, s': State, u: nat, choice: Ptr, call: Call, t: nat)
    requires Inv(s) && Steps(s, s', u, choice, call) && t < |s.pcs| && t != u
    ensures s'.pcs[t] == s.pcs[t] && |s'.sh.chains| == |s'.sh.slots| > 0
    ensures
      || ToWalk(s'.sh, s.pcs[t]) == ToWalk(s.sh, s.pcs[t])
      || (s.pcs[t].Finding? && s.pcs[u].Storing? && s.pcs[u].at.Linking? && s.pcs[u].k !in s.sh.table
          && ToWalk(s'.sh, s.pcs[t]) == ToWalk(s.sh, s.pcs[t]) + 1)
  {
    if !s.pcs[u].Idle? {
      ChainsAfter(s, u, choice);
      if s.pcs[u].Storing? && s.pcs[u].at.Linking? {
        Others(s, u, t);
        One(s, u);
      }
    }
  }

  // ---- how long a lookup takes ----

  /** The steps that thread `t` has taken between moments `i` and `j`. */
  function OwnSteps(trace: seq<State>, t: nat, i: nat, j: nat): nat
    requires i <= j < |trace| && forall l {:trigger trace[l]} :: i <= l <= j ==> t < |trace[l].pcs|
    decreases j
  {
    if i == j then 0
    else OwnSteps(trace, t, i, j - 1) + if trace[j].pcs[t] != trace[j - 1].pcs[t] then 1 else 0
  }

  /** Thread `t` is in one lookup from moment `i`, before it asks for the lock, to moment `j`. */
  ghost predicate OneLookup(trace: seq<State>, t: nat, i: nat, j: nat) {
    && i <= j < |trace|
    && (forall l {:trigger trace[l]} :: i <= l <= j ==> t < |trace[l].pcs| && trace[l].pcs[t].Finding?)
    && trace[i].pcs[t].find.FindWant? && trace[i].pcs[t].pos == 0
  }

  /** Each step of a lookup is one stage further, or one entry further down the chain. */
  lemma LookupStep(sh: Shared, pc: PC, protect: bool)
    requires Structure(sh) && pc.Finding? && FindOk(sh, pc) && Ready(sh, pc) && pc.pos <= |ChainFor(sh, pc.k)|
    requires pc.find.FindWant? || pc.find.FindLocked? ==> pc.pos == 0
    ensures
      var pc' := FindStep(sh, pc, protect).0;
      pc'.Finding? ==>
        && pc'.k == pc.k && pc'.pos <= |ChainFor(sh, pc'.k)|
        && (pc'.find.FindWant? || pc'.find.FindLocked? ==> pc'.pos == 0)
        && 1 + Stage(pc') + pc.pos <= Stage(pc) + pc'.pos
  {
  }

  /** How far a lookup has come, and how far down its chain. */
  ghost predicate Paced(s: State, t: nat, steps: nat) {
    && t < |s.pcs| && s.pcs[t].Finding? && |s.sh.chains| == |s.sh.slots| > 0
    && s.pcs[t].pos <= |ChainFor(s.sh, s.pcs[t].k)| && steps + Stage(s.pcs[t]) <= 7 + s.pcs[t].pos
    && (s.pcs[t].find.FindWant? || s.pcs[t].find.FindLocked? ==> s.pcs[t].pos == 0)
  }

  lemma PaceKept(s: State, s': State, t: nat, steps: nat)
    requires Inv(s) && Step(s, s') && Paced(s, t, steps) && t < |s'.pcs| && s'.pcs[t].Finding?
    ensures Paced(s', t, steps + if s'.pcs[t] != s.pcs[t] then 1 else 0) && s'.pcs[t].k == s.pcs[t].k
  {
    var u: nat, choice: Ptr, call: Call :| Steps(s, s', u, choice, call);
    ChainsAfter(s, u, choice);
    if u == t {
      One(s, t);
      LookupStep(s.sh, s.pcs[t], s.protect);
    }
  }

  /**
   * A lookup takes at most seven steps and one for each entry in the chain of its key, whatever other threads do
   * meanwhile.
   */
  lemma {:induction false} LookupEnds(trace: seq<State>, t: nat, i: nat, j: nat)
    requires Run(trace) && OneLookup(trace, t, i, j)
    ensures |trace[j].sh.chains| == |trace[j].sh.slots| > 0 && Paced(trace[j], t, OwnSteps(trace, t, i, j))
    ensures OwnSteps(trace, t, i, j) < 7 + |ChainFor(trace[j].sh, trace[i].pcs[t].k)|
    ensures trace[j].pcs[t].k == trace[i].pcs[t].k
    decreases j
  {
    assert |trace[j].sh.chains| == |trace[j].sh.slots| > 0 by {
      RunKeeps(trace, j);
    }
    if i < j {
      LookupEnds(trace, t, i, j - 1);
      LookupMoves(trace, t, j - 1, OwnSteps(trace, t, i, j - 1));
    }
  }

  lemma LookupMoves(trace: seq<State>, t: nat, l: nat, steps: nat)
    requires Run(trace) && l + 1 < |trace| && Paced(trace[l], t, steps)
    requires t < |trace[l + 1].pcs| && trace[l + 1].pcs[t].Finding?
    ensures Paced(trace[l + 1], t, steps + if trace[l + 1].pcs[t] != trace[l].pcs[t] then 1 else 0)
    ensures trace[l + 1].pcs[t].k == trace[l].pcs[t].k
  {
    RunKeeps(trace, l);
    assert Goes(trace, l);
    PaceKept(trace[l], trace[l + 1], t, steps);
  }
}
