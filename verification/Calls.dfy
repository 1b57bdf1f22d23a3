/** Whole calls to immutable_cache_cache_store, from the first step to the return. */
module Calls {
  import opened Focus
  import opened Values
  import opened Chains
  import opened Protocol
  import opened Invariants
  import opened Safety
  import opened Publishing
  import opened Runs

  /**
   * How far a store has come: nothing decided, its entry linked, turned down for a bound key, or no block to be had.
   */
  datatype Stage = Undecided | Won | Lost | NoBlock

  function StageOf(pc: PC): Stage
    requires pc.Storing?
  {
    match pc.at
    case WantAlloc => Undecided
    case Allocating => Undecided
    case Allocated => Undecided
    case Copying => Undecided
    case WantGlobal => Undecided
    case WantFine => Undecided
    case Walking => Undecided
    case Linking => Undecided
    case Returned => if pc.ok then Won else if pc.e == 0 then NoBlock else Lost
    case _ => if pc.ok then Won else Lost
  }

  /** Between moments `l` and `l + 1`, thread `t` stores the pointer that links its entry. */
  predicate Links(trace: seq<State>, t: nat, l: nat) {
    && l + 1 < |trace| && t < |trace[l].pcs| && t < |trace[l + 1].pcs|
    && trace[l].pcs[t].Storing? && trace[l].pcs[t].at.Linking? && trace[l + 1].pcs[t] != trace[l].pcs[t]
  }

  /** From moment `i`, when nothing has been decided yet, to moment `j`, thread `t` is in one call to store. */
  ghost predicate OneCall(trace: seq<State>, t: nat, i: nat, j: nat) {
    && i <= j < |trace|
    && (forall l {:trigger trace[l]} :: i <= l <= j ==> t < |trace[l].pcs| && trace[l].pcs[t].Storing?)
    && trace[i].pcs[t].at.WantAlloc?
  }

  /** The link decides for 1, a key found bound for 0, no other step decides, and nothing decided is undone. */
  predicate StageMoves(s: State, s': State, t: nat)
    requires t < |s.pcs| && t < |s'.pcs| && s.pcs[t].Storing? && s'.pcs[t].Storing?
  {
    var pc, pc' := s.pcs[t], s'.pcs[t];
    && pc'.k == pc.k
    && (!StageOf(pc).Undecided? ==> StageOf(pc') == StageOf(pc) && pc'.e == pc.e)
    && (pc.at.Linking? && pc' != pc ==>
      StageOf(pc').Won? && pc'.e == pc.e && pc.k !in s.sh.table && s'.sh.table == s.sh.table[pc.k := pc.e])
    && (!pc.at.Linking? && StageOf(pc).Undecided? ==>
      !StageOf(pc').Won? && (StageOf(pc').Lost? ==> pc.at.Walking? && pc.k in s.sh.table))
  }

  /** One step, as one storing thread sees it. */
  lemma StageStep(s: State, s': State, t: nat)
    requires Inv(s) && Step(s, s') && t < |s.pcs| && t < |s'.pcs| && s.pcs[t].Storing? && s'.pcs[t].Storing?
    ensures StageMoves(s, s', t)
  {
    var u: nat, choice: Ptr, call: Call :| Steps(s, s', u, choice, call);
    One(s, t);
    if u == t {
      OwnStage(s, t, choice);
    }
  }

  /** The walk finds the key bound, or goes on. */
  lemma WalkStage(s: State, t: nat, choice: Ptr)
    requires Inv(s) && t < |s.pcs| && s.pcs[t].Storing? && s.pcs[t].at.Walking?
    requires Ready(s.sh, s.pcs[t]) && ThreadOk(s.sh, s.pcs[t])
    ensures
      var pc, pc' := s.pcs[t], After(s, t, choice).pcs[t];
      !pc'.Storing? || StageOf(pc').Undecided? || (StageOf(pc').Lost? && pc.k in s.sh.table)
  {
    var pc := s.pcs[t];
    if Link(s.sh, pc.k, pc.prev) != 0 {
      LinkAt(s.sh, pc.k, pc.pos, pc.prev);
      EntryHere(s.sh, pc.k, pc.pos);
    }
  }

  lemma LinkStage(s: State, t: nat, choice: Ptr)
    requires Inv(s) && t < |s.pcs| && s.pcs[t].Storing? && s.pcs[t].at.Linking?
    requires Ready(s.sh, s.pcs[t]) && ThreadOk(s.sh, s.pcs[t])
    ensures
      var s' := After(s, t, choice);
      var pc, pc' := s.pcs[t], s'.pcs[t];
      pc'.Storing? && StageOf(pc').Won? && pc'.e == pc.e && pc.k !in s.sh.table &&
        s'.sh.table == s.sh.table[pc.k := pc.e]
  {
  }

  /** Elsewhere nothing is decided, and nothing decided is undone. */
  lemma OtherStage(sh: Shared, pc: PC, choice: Ptr)
    requires pc.Storing? && !pc.at.Walking? && !pc.at.Linking? && Ready(sh, pc) && StoreOk(sh, pc)
    ensures
      var pc' := StoreStep(sh, pc, choice).0;
      pc'.Storing? ==>
        if StageOf(pc).Undecided? then StageOf(pc').Undecided? || StageOf(pc').NoBlock?
        else StageOf(pc') == StageOf(pc) && pc'.e == pc.e
  {
  }

  lemma OwnStage(s: State, t: nat, choice: Ptr)
    requires Inv(s) && t < |s.pcs| && s.pcs[t].Storing? && Ready(s.sh, s.pcs[t]) && ThreadOk(s.sh, s.pcs[t])
    ensures
      var s' := After(s, t, choice);
      var pc, pc' := s.pcs[t], s'.pcs[t];
      && (pc'.Storing? && !StageOf(pc).Undecided? ==> StageOf(pc') == StageOf(pc) && pc'.e == pc.e)
      && (pc.at.Linking? ==>
        StageOf(pc').Won? && pc'.e == pc.e && pc.k !in s.sh.table &&
        s'.sh.table == s.sh.table[pc.k := pc.e])
      && (pc'.Storing? && !pc.at.Linking? && StageOf(pc).Undecided? ==>
        !StageOf(pc').Won? && (StageOf(pc').Lost? ==> pc.at.Walking? && pc.k in s.sh.table))
  {
    if s.pcs[t].at.Walking? {
      WalkStage(s, t, choice);
    } else if s.pcs[t].at.Linking? {
      LinkStage(s, t, choice);
    } else {
      OtherStage(s.sh, s.pcs[t], choice);
    }
  }

  /** What has happened in a call so far; `w` is the moment of the decision, if it has been made. */
  ghost predicate SoFar(trace: seq<State>, t: nat, i: nat, l: nat, w: nat)
    requires i <= l < |trace| && t < |trace[l].pcs| && trace[l].pcs[t].Storing?
  {
    var pc := trace[l].pcs[t];
    match StageOf(pc)
    case Undecided => Quiet(trace, t, i, l)
    case NoBlock => Quiet(trace, t, i, l)
    case Lost => Quiet(trace, t, i, l) && i <= w < l && pc.k in trace[w].sh.table
    case Won => WinsAt(trace, t, i, l, w, pc.k, pc.e)
  }

  /** Thread `t` links nothing from moment `i` to moment `l`. */
  ghost predicate Quiet(trace: seq<State>, t: nat, i: nat, l: nat) {
    forall x {:trigger Links(trace, t, x)} :: i <= x < l ==> !Links(trace, t, x)
  }

  /** Its one linking step in that time is at moment `w`: key `k` was unbound before, and bound to `e` by it. */
  ghost predicate WinsAt(trace: seq<State>, t: nat, i: nat, l: nat, w: nat, k: Bytes, e: Ptr)
    requires i <= l < |trace|
  {
    && i <= w < l && Links(trace, t, w) &&
      (forall x {:trigger Links(trace, t, x)} :: i <= x < l && Links(trace, t, x) ==> x == w)
    && k !in trace[w].sh.table && trace[w + 1].sh.table == trace[w].sh.table[k := e]
  }

  lemma QuietMore(trace: seq<State>, t: nat, i: nat, l: nat)
    requires Quiet(trace, t, i, l) && !Links(trace, t, l)
    ensures Quiet(trace, t, i, l + 1)
  {
  }

  lemma WinsMore(trace: seq<State>, t: nat, i: nat, l: nat, w: nat, k: Bytes, e: Ptr)
    requires i <= l && l + 1 < |trace| && WinsAt(trace, t, i, l, w, k, e) && !Links(trace, t, l)
    ensures WinsAt(trace, t, i, l + 1, w, k, e)
  {
  }

  lemma WinsFirst(trace: seq<State>, t: nat, i: nat, l: nat, k: Bytes, e: Ptr)
    requires i <= l && l + 1 < |trace| && Quiet(trace, t, i, l) && Links(trace, t, l)
    requires k !in trace[l].sh.table && trace[l + 1].sh.table == trace[l].sh.table[k := e]
    ensures WinsAt(trace, t, i, l + 1, l, k, e)
  {
  }

  lemma StageAt(trace: seq<State>, t: nat, l: nat)
    requires Run(trace) && l + 1 < |trace| && t < |trace[l].pcs| && t < |trace[l + 1].pcs|
    requires trace[l].pcs[t].Storing? && trace[l + 1].pcs[t].Storing?
    ensures StageMoves(trace[l], trace[l + 1], t)
  {
    RunKeeps(trace, l);
    assert Goes(trace, l);
    StageStep(trace[l], trace[l + 1], t);
  }

  lemma StepSoFar(trace: seq<State>, t: nat, i: nat, l: nat, before: nat, w: nat)
    requires Run(trace) && OneCall(trace, t, i, l) && i < l && SoFar(trace, t, i, l - 1, before)
    requires w == if StageOf(trace[l - 1].pcs[t]).Undecided? then l - 1 else before
    ensures trace[l].pcs[t].k == trace[l - 1].pcs[t].k && SoFar(trace, t, i, l, w)
  {
    StageAt(trace, t, l - 1);
    var pc := trace[l - 1].pcs[t];
    if Links(trace, t, l - 1) {
      WinsFirst(trace, t, i, l - 1, pc.k, pc.e);
    } else if StageOf(pc).Won? {
      WinsMore(trace, t, i, l - 1, w, pc.k, pc.e);
    } else {
      QuietMore(trace, t, i, l - 1);
    }
  }

  lemma {:induction false} CallSoFar(trace: seq<State>, t: nat, i: nat, l: nat) returns (w: nat)
    requires Run(trace) && OneCall(trace, t, i, l)
    ensures trace[l].pcs[t].k == trace[i].pcs[t].k && SoFar(trace, t, i, l, w)
    decreases l
  {
    w := 0;
    if l > i {
      var before := CallSoFar(trace, t, i, l - 1);
      w := if StageOf(trace[l - 1].pcs[t]).Undecided? then l - 1 else before;
      StepSoFar(trace, t, i, l, before, w);
    }
  }

  // ---- giving the block back ----

  /** Between moments `f` and `f + 1`, thread `t` gives block `e` back. */
  predicate Drops(trace: seq<State>, t: nat, f: nat, e: Ptr) {
    && f + 1 < |trace| && t < |trace[f].pcs| && trace[f].pcs[t].Storing? && trace[f].pcs[t].at.Freeing?
    && e in trace[f].sh.mem && trace[f + 1].sh.mem == trace[f].sh.mem - {e}
  }

  /** The block of a rejected store has gone back by now. */
  predicate GivenBack(pc: PC) {
    pc.Storing? && (pc.at.Freed? || (pc.at.Returned? && !pc.ok && pc.e != 0))
  }

  lemma OwnBack(sh: Shared, pc: PC, choice: Ptr)
    requires pc.Storing? && Ready(sh, pc) && |sh.chains| == |sh.slots| > 0 && StoreOk(sh, pc)
    requires GivenBack(StoreStep(sh, pc, choice).0)
    ensures
      var (pc', sh') := StoreStep(sh, pc, choice);
      pc'.e == pc.e && (!GivenBack(pc) ==> pc.at.Freeing? && pc.e in sh.mem && sh'.mem == sh.mem - {pc.e})
  {
  }

  /** A rejected store comes to that point by giving its block back, and in no other way. */
  lemma BackStep(s: State, s': State, t: nat)
    requires Inv(s) && Step(s, s') && t < |s.pcs| && t < |s'.pcs| && s.pcs[t].Storing? && GivenBack(s'.pcs[t])
    ensures s'.pcs[t].e == s.pcs[t].e
    ensures !GivenBack(s.pcs[t]) ==>
      s.pcs[t].at.Freeing? && s.pcs[t].e in s.sh.mem && s'.sh.mem == s.sh.mem - {s.pcs[t].e}
  {
    var u: nat, choice: Ptr, call: Call :| Steps(s, s', u, choice, call);
    if u == t {
      One(s, t);
      OwnBack(s.sh, s.pcs[t], choice);
    }
  }

  lemma {:induction false} GaveBack(trace: seq<State>, t: nat, i: nat, l: nat) returns (f: nat)
    requires Run(trace) && OneCall(trace, t, i, l)
    ensures GivenBack(trace[l].pcs[t]) ==> i <= f < l && Drops(trace, t, f, trace[l].pcs[t].e)
    decreases l
  {
    f := 0;
    if l > i {
      f := GaveBack(trace, t, i, l - 1);
      if GivenBack(trace[l].pcs[t]) {
        RunKeeps(trace, l - 1);
        assert Goes(trace, l - 1);
        BackStep(trace[l - 1], trace[l], t);
        f := if GivenBack(trace[l - 1].pcs[t]) then f else l - 1;
      }
    }
  }

  /**
   * A store that returns 1 has linked exactly one entry, its own, at a moment when the key was unbound. One that
   * returns 0 has linked none: it got no block, or found the key bound and gave its block back.
   */
  lemma StoreOutcome(trace: seq<State>, t: nat, i: nat, j: nat) returns (w: nat)
    requires Run(trace) && OneCall(trace, t, i, j) && trace[j].pcs[t].at.Returned?
    ensures
      var pc := trace[j].pcs[t];
      && pc.k == trace[i].pcs[t].k
      && (pc.ok ==>
        WinsAt(trace, t, i, j, w, pc.k, pc.e) && pc.k in trace[j].sh.table &&
        trace[j].sh.table[pc.k] == pc.e)
      && (!pc.ok ==> Quiet(trace, t, i, j))
      && (!pc.ok && pc.e != 0 ==> i <= w < j && pc.k in trace[w].sh.table && pc.k in trace[j].sh.table)
      && (!pc.ok && pc.e != 0 ==>
        exists f {:trigger Drops(trace, t, f, pc.e)} :: i <= f < j && Drops(trace, t, f, pc.e))
  {
    w := CallSoFar(trace, t, i, j);
    var f := GaveBack(trace, t, i, j);
    RunKeeps(trace, j);
    One(trace[j], t);
  }

  lemma StillBound(trace: seq<State>, i: nat, j: nat, k: Bytes)
    requires Run(trace) && i <= j < |trace| && k in trace[i].sh.table
    ensures k in trace[j].sh.table
  {
    BoundForever(trace, i, j);
    assert LeftAlone(trace[i].sh, trace[j].sh, k);
  }

  /** A link store is a step of one thread only, and happens once for each key. */
  lemma OneLink(trace: seq<State>, t: nat, w: nat, t': nat, w': nat, k: Bytes, e: Ptr, e': Ptr)
    requires Run(trace) && Links(trace, t, w) && Links(trace, t', w') && w <= w'
    requires k !in trace[w'].sh.table && trace[w + 1].sh.table == trace[w].sh.table[k := e]
    ensures w == w' && t == t'
  {
    if w < w' {
      StillBound(trace, w + 1, w', k);
    }
    RunKeeps(trace, w);
    if t != t' {
      Others(trace[w], t, t');
    }
  }

  /** Of all calls that store under one key, at most one returns 1: two that do are the same call. */
  lemma OneCallWins(trace: seq<State>, t: nat, i: nat, j: nat, t': nat, i': nat, j': nat)
    requires Run(trace) && OneCall(trace, t, i, j) && trace[j].pcs[t].at.Returned? && trace[j].pcs[t].ok
    requires OneCall(trace, t', i', j') && trace[j'].pcs[t'].at.Returned? && trace[j'].pcs[t'].ok
    requires trace[j].pcs[t].k == trace[j'].pcs[t'].k
    ensures t == t' && exists w {:trigger Links(trace, t, w)} :: i <= w < j && i' <= w < j' && Links(trace, t, w)
  {
    var w := StoreOutcome(trace, t, i, j);
    var w' := StoreOutcome(trace, t', i', j');
    var k := trace[j].pcs[t].k;
    if w <= w' {
      OneLink(trace, t, w, t', w', k, trace[j].pcs[t].e, trace[j'].pcs[t'].e);
    } else {
      OneLink(trace, t', w', t, w, k, trace[j'].pcs[t'].e, trace[j].pcs[t].e);
    }
  }
}
