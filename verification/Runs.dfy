/** Theorems about every run of the protocol, from an empty table, with any number of threads. */
module Runs {
  import opened Focus
  import opened Sequences
  import opened Tiles
  import opened Values
  import opened Chains
  import opened Protocol
  import opened Invariants
  import opened Safety
  import opened Progress
  import opened Publishing

  // ---- the invariant holds throughout ----

  lemma InitKeeps(s: State)
    requires Init(s)
    ensures Inv(s)
  {
    forall sl | 0 <= sl < |s.sh.slots| ensures ChainGood(s.sh, sl, s.sh.chains[sl]) {
      assert s.sh.chains[sl] == [];
    }
    NoneBetween(s.pcs);
  }

  lemma {:induction false} NoneBetween(pcs: seq<PC>)
    requires forall t :: 0 <= t < |pcs| ==> !InHit(pcs[t])
    ensures Between(pcs) == 0
  {
    if pcs != [] {
      NoneBetween(pcs[..|pcs| - 1]);
    }
  }

  lemma StepKeeps(s: State, s': State)
    requires Inv(s) && Step(s, s')
    ensures Inv(s')
  {
    var t: nat, choice: Ptr, call: Call :| Steps(s, s', t, choice, call);
    var pc := s.pcs[t];
    match pc
    case Idle => StartKeeps(s, t, call);
    case Storing(at, _, _, _, _, _, _, ok) =>
      if at.Allocating? {
        AllocKeeps(s, t, choice);
      } else if at.Copying? {
        CopyKeeps(s, t, choice);
      } else if at.Walking? {
        WalkKeeps(s, t, choice);
      } else if at.Linking? {
        LinkKeeps(s, t, choice);
      } else if Tallying(pc) {
        TallyKeeps(s, t, choice);
      } else if at.DropGlobal? && ok {
        WinKeeps(s, t, choice);
      } else if at.Freeing? {
        FreeKeeps(s, t, choice);
      } else if at.WantAlloc? || at.WantGlobal? || at.WantFine? || at.WantFree? {
        StoreLocks(s, t, choice);
      } else {
        StoreQuiet(s, t, choice);
      }
    case Finding(find, _, _, _, _, _) =>
      if find.Hit1? || find.Hit2? {
        HitKeeps(s, t, choice);
      } else if find.FindDrop? {
        HandKeeps(s, t, choice);
      } else {
        FindQuiet(s, t, choice);
      }
    case Listing(info, _, _, _, _, _) =>
      if info.InfoDrop? {
        ReportKeeps(s, t, choice);
      } else {
        InfoKeeps(s, t, choice);
      }
  }

  ghost predicate Run(trace: seq<State>) {
    && |trace| > 0 && Init(trace[0])
    && forall i {:trigger Goes(trace, i)} :: 0 <= i < |trace| - 1 ==> Goes(trace, i)
  }

  ghost predicate Goes(trace: seq<State>, i: nat) {
    i + 1 < |trace| && Step(trace[i], trace[i + 1])
  }

  lemma {:induction false} RunKeeps(trace: seq<State>, i: nat)
    requires Run(trace) && i < |trace|
    ensures Inv(trace[i])
    decreases i
  {
    if i == 0 {
      InitKeeps(trace[0]);
    } else {
      RunKeeps(trace, i - 1);
      assert Goes(trace, i - 1);
      StepKeeps(trace[i - 1], trace[i]);
    }
  }

  // ---- a binding is for ever ----

  /** Key `k` is bound as before, to an entry that says the same. */
  predicate LeftAlone(a: Shared, b: Shared, k: Bytes)
    requires k in a.table
  {
    var p := a.table[k];
    && p in a.mem && p in b.mem && k in b.table && b.table[k] == p
    && b.mem[p].key == k && b.mem[p].val == a.mem[p].val && b.mem[p].memSize == a.mem[p].memSize
  }

  /** Everything bound in `a` is bound to the same entry in `b`, with the same key, value and size. */
  ghost predicate BindingsStay(a: Shared, b: Shared) {
    forall k :: k in a.table ==> LeftAlone(a, b, k)
  }

  /** Every step leaves every binding, and the block behind it, alone. */
  lemma StepBinds(s: State, s': State)
    requires Inv(s) && Step(s, s')
    ensures BindingsStay(s.sh, s'.sh)
  {
    var t: nat, choice: Ptr, call: Call :| Steps(s, s', t, choice, call);
    var pc := s.pcs[t];
    One(s, t);
    if pc.Storing? && pc.at.Linking? {
      LinkLeaves(s.sh, pc, s'.sh);
    } else {
      forall k | k in s.sh.table ensures LeftAlone(s.sh, s'.sh, k) {
        OldBinding(s.sh, k);
        ZeroUnbound(s.sh);
        if pc.Storing? {
          StoreLeaves(s.sh, pc, choice, k);
        } else if pc.Finding? {
          FindLeaves(s.sh, pc, s.protect, k);
        }
      }
    }
  }

  lemma LinkLeaves(sh: Shared, pc: PC, sh': Shared)
    requires Structure(sh) && pc.Storing? && pc.at.Linking?
    requires StoreOk(sh, pc) && AllLinked(sh, pc.v.uses) && Ready(sh, pc)
    requires sh' == Published(sh, pc.k, pc.e, pc.prev)
    ensures BindingsStay(sh, sh')
  {
    assert AtTail(sh, pc.k, pc.v, pc.n, pc.e, pc.prev);
    forall k | k in sh.table ensures LeftAlone(sh, sh', k) {
      OldBinding(sh, k);
      var p := sh.table[k];
      OldCell(sh, pc.k, pc.v, pc.n, pc.e, pc.prev, p);
      var x, y := sh.mem[p].(next := 0), sh'.mem[p].(next := 0);
      assert x == y && x.val == sh.mem[p].val && y.val == sh'.mem[p].val;
    }
  }

  lemma StoreLeaves(sh: Shared, pc: PC, choice: Ptr, k: Bytes)
    requires Structure(sh) && pc.Storing? && !pc.at.Linking? && StoreOk(sh, pc) && Ready(sh, pc)
    requires pc.at.Allocating? ==> choice == 0 || choice !in sh.mem
    requires k in sh.table && Linked(sh, sh.table[k]) && sh.mem[sh.table[k]].key == k
    ensures LeftAlone(sh, StoreStep(sh, pc, choice).1, k)
  {
  }

  lemma FindLeaves(sh: Shared, pc: PC, protect: bool, k: Bytes)
    requires Structure(sh) && pc.Finding? && Ready(sh, pc)
    requires k in sh.table && Linked(sh, sh.table[k]) && sh.mem[sh.table[k]].key == k
    ensures LeftAlone(sh, FindStep(sh, pc, protect).1, k)
  {
  }

  lemma {:induction false} BoundForever(trace: seq<State>, i: nat, j: nat)
    requires Run(trace) && i <= j < |trace|
    ensures BindingsStay(trace[i].sh, trace[j].sh)
    decreases j
  {
    if i == j {
      RunKeeps(trace, i);
      forall k | k in trace[i].sh.table
        ensures trace[i].sh.table[k] in trace[i].sh.mem && trace[i].sh.mem[trace[i].sh.table[k]].key == k
      {
        OldBinding(trace[i].sh, k);
      }
    } else {
      BoundForever(trace, i, j - 1);
      RunKeeps(trace, j - 1);
      assert Goes(trace, j - 1);
      StepBinds(trace[j - 1], trace[j]);
    }
  }

  // ---- a store binds its key exactly when the key is not bound ----

  /** The step that would link an entry is reached only while its key is unbound, and binds it. */
  lemma LinkBindsAbsent(s: State, t: nat, choice: Ptr)
    requires Inv(s) && t < |s.pcs| && s.pcs[t].Storing? && s.pcs[t].at.Linking?
    ensures s.pcs[t].k !in s.sh.table && Ready(s.sh, s.pcs[t])
    ensures After(s, t, choice).sh.table == s.sh.table[s.pcs[t].k := s.pcs[t].e]
    ensures After(s, t, choice).sh.mem[s.pcs[t].e].val == s.pcs[t].v
  {
    One(s, t);
    AlwaysReady(s, t);
    assert AtTail(s.sh, s.pcs[t].k, s.pcs[t].v, s.pcs[t].n, s.pcs[t].e, s.pcs[t].prev);
    NewCell(s.sh, s.pcs[t].k, s.pcs[t].v, s.pcs[t].n, s.pcs[t].e, s.pcs[t].prev);
  }

  /** A store that has decided: 1 means that its own entry is bound, 0 that the key was bound already. */
  lemma Decisions(trace: seq<State>, i: nat, t: nat)
    requires Run(trace) && i < |trace| && t < |trace[i].pcs| && trace[i].pcs[t].Storing?
    requires trace[i].pcs[t].at.DropFine? || trace[i].pcs[t].at.DropGlobal?
    ensures trace[i].pcs[t].k in trace[i].sh.table
    ensures trace[i].pcs[t].ok <==> trace[i].sh.table[trace[i].pcs[t].k] == trace[i].pcs[t].e
  {
    RunKeeps(trace, i);
    One(trace[i], t);
  }

  /** Of all the stores of one key, at most one returns 1. */
  lemma OneWinPerKey(trace: seq<State>, m: nat, i: nat, j: nat)
    requires Run(trace) && m < |trace| && i < j < |trace[m].sh.wins|
    ensures
      var sh := trace[m].sh;
      KeyAt(sh, sh.wins[i]) != KeyAt(sh, sh.wins[j]) && Now(sh, KeyAt(sh, sh.wins[i])) == sh.wins[i]
  {
    RunKeeps(trace, m);
    assert LookInside(0);
    var wins := trace[m].sh.wins;
    assert wins[i] in wins && wins[j] in wins;
  }

  // ---- lookups ----

  /** A lookup that is done reports the binding there is now; it is also the one there was when it took its lock. */
  lemma LookupAnswers(trace: seq<State>, i: nat, t: nat)
    requires Run(trace) && i < |trace| && t < |trace[i].pcs| && FineRead(trace[i].pcs[t])
    ensures
      var pc := trace[i].pcs[t];
      && Now(trace[i].sh, pc.k) == pc.had
      && (!pc.find.FindLocked? && !pc.find.FindWalking? ==> pc.cur == pc.had)
  {
    RunKeeps(trace, i);
    One(trace[i], t);
  }

  /** From the step that takes the lock to the one that gives it back, the answer does not change. */
  lemma {:induction false} LookupStable(trace: seq<State>, t: nat, i: nat, j: nat, m: nat)
    requires Run(trace) && i < j < |trace| && i <= m <= j
    requires forall l {:trigger trace[l]} :: i <= l <= j ==> t < |trace[l].pcs|
    requires trace[i].pcs[t].Finding? && trace[i].pcs[t].find.FindWant? && trace[i + 1].pcs[t] != trace[i].pcs[t]
    requires forall l {:trigger trace[l]} :: i < l <= j ==> FineRead(trace[l].pcs[t])
    requires FineRead(trace[j].pcs[t]) && !trace[j].pcs[t].find.FindLocked? && !trace[j].pcs[t].find.FindWalking?
    ensures trace[j].pcs[t].k == trace[i].pcs[t].k
    ensures trace[j].pcs[t].cur == Now(trace[m].sh, trace[i].pcs[t].k)
  {
    LookupAnswers(trace, j, t);
    HadStays(trace, t, i, j);
    HadStays(trace, t, i, if m == i then j else m);
    if m > i {
      LookupAnswers(trace, m, t);
    }
  }

  lemma {:induction false} HadStays(trace: seq<State>, t: nat, i: nat, m: nat)
    requires Run(trace) && i < m < |trace|
    requires forall l {:trigger trace[l]} :: i <= l <= m ==> t < |trace[l].pcs|
    requires trace[i].pcs[t].Finding? && trace[i].pcs[t].find.FindWant? && trace[i + 1].pcs[t] != trace[i].pcs[t]
    requires forall l {:trigger trace[l]} :: i < l <= m ==> FineRead(trace[l].pcs[t])
    requires FineRead(trace[m].pcs[t])
    ensures trace[m].pcs[t].k == trace[i].pcs[t].k && trace[m].pcs[t].had == Now(trace[i].sh, trace[i].pcs[t].k)
    decreases m
  {
    assert Goes(trace, m - 1);
    if m > i + 1 {
      HadStays(trace, t, i, m - 1);
    }
    HadStep(trace[m - 1], trace[m], t);
  }

  /** A step changes what a lookup noted only by taking its lock. */
  lemma HadStep(s: State, s': State, t: nat)
    requires Step(s, s') && t < |s.pcs| && t < |s'.pcs| && s.pcs[t].Finding? && FineRead(s'.pcs[t])
    ensures s'.pcs[t].k == s.pcs[t].k
    ensures !s.pcs[t].find.FindWant? ==> s'.pcs[t].had == s.pcs[t].had
    ensures s.pcs[t].find.FindWant? ==> s'.pcs[t].had == Now(s.sh, s.pcs[t].k)
  {
  }

  // ---- nothing dangles ----

  /** Entries that a thread points to, or into: those it follows, has been given, or copies pointers to. */
  function Pointers(pc: PC): set<Ptr> {
    match pc
    case Idle => {}
    case Storing(at, _, v, _, _, _, prev, _) => v.uses + if at.Walking? || at.Linking? then {prev} - {0} else {}
    case Finding(find, _, _, _, cur, _) => if find.FindWant? || find.FindLocked? then {} else {cur} - {0}
    case Listing(info, _, _, here, list, _) =>
      if info.InfoWant? || info.InfoLocked? then {}
      else if info.InfoWalking? then {here} - {0} + (set p | p in list)
      else set p | p in list
  }

  lemma PointersLinked(s: State, t: nat)
    requires Inv(s) && t < |s.pcs|
    ensures forall p :: p in Pointers(s.pcs[t]) ==> Linked(s.sh, p)
  {
    One(s, t);
    var pc, sh := s.pcs[t], s.sh;
    match pc
    case Idle =>
    case Storing(at, _, _, _, _, _, _, _) =>
      if (at.Walking? || at.Linking?) && pc.pos > 0 {
        EntryHere(sh, pc.k, pc.pos - 1);
      }
    case Finding(find, _, _, _, _, _) =>
      if find.FindWalking? && pc.cur != 0 {
        EntryHere(sh, pc.k, pc.pos);
      } else if !find.FindWant? && !find.FindLocked? && pc.cur != 0 {
        OldBinding(sh, pc.k);
      }
    case Listing(info, _, _, _, _, _) =>
      if info.InfoWalking? && pc.slot < |sh.slots| {
        FlatLinked(sh, pc.slot);
        ChainLinked(sh, pc.slot);
      } else if info.InfoWalking? || info.InfoDrop? {
        FlatLinked(sh, |sh.slots|);
      }
  }

  lemma ChainLinked(sh: Shared, sl: nat)
    requires Structure(sh) && sl < |sh.slots|
    ensures forall p :: p in sh.chains[sl] ==> p != 0 && Linked(sh, p)
  {
    assert ChainGood(sh, sl, sh.chains[sl]) by {
      assert LookAtState(0);
    }
  }

  /**
   * The block that a rejected store gives back is not bound, has not been handed to any reader, hangs in no
   * chain, and no other thread has a pointer to it. No value leads into it either: not that of a bound entry,
   * nor of one handed to a reader, nor one that a thread is storing.
   */
  lemma FreeIsSafe(s: State, t: nat)
    requires Inv(s) && t < |s.pcs| && s.pcs[t].Storing? && s.pcs[t].at.Freeing?
    ensures
      var e := s.pcs[t].e;
      && e in s.sh.mem && !Linked(s.sh, e) && e !in s.sh.held && e !in s.sh.wins
      && (forall sl :: 0 <= sl < |s.sh.slots| ==> s.sh.slots[sl] != e && e !in s.sh.chains[sl])
      && (forall p :: Linked(s.sh, p) ==> s.sh.mem[p].next != e && e !in s.sh.mem[p].val.uses)
      && (forall p :: p in s.sh.held ==> p in s.sh.mem && e !in s.sh.mem[p].val.uses)
      && (forall u {:trigger s.pcs[u]} :: 0 <= u < |s.pcs| && s.pcs[u].Storing? ==> e !in s.pcs[u].v.uses)
      && (forall u {:trigger s.pcs[u]} ::
        0 <= u < |s.pcs| && u != t ==> Block(s.pcs[u]) != e && e !in Pointers(s.pcs[u]))
  {
    One(s, t);
    var e := s.pcs[t].e;
    assert e !in s.sh.held && e !in s.sh.wins && forall p :: p in s.sh.held ==> Linked(s.sh, p) by {
      assert LookInside(0);
    }
    forall u | 0 <= u < |s.pcs| && s.pcs[u].Storing? ensures e !in s.pcs[u].v.uses {
      One(s, u);
    }
    forall sl | 0 <= sl < |s.sh.slots| ensures s.sh.slots[sl] != e && e !in s.sh.chains[sl] {
      ChainLinked(s.sh, sl);
      HeadAt(s.sh, sl);
    }
    forall p | Linked(s.sh, p) ensures s.sh.mem[p].next != e && e !in s.sh.mem[p].val.uses {
      NoUse(s.sh, p, e);
      var i := LinkedChained(s.sh, p);
      var sl := SlotOf(s.sh.mem[p].key, |s.sh.slots|);
      ChainLinked(s.sh, sl);
      LinkInChain(s.sh, sl, i);
    }
    forall u | 0 <= u < |s.pcs| && u != t ensures Block(s.pcs[u]) != e && e !in Pointers(s.pcs[u]) {
      Others(s, t, u);
      PointersLinked(s, u);
    }
  }

  lemma NoUse(sh: Shared, p: Ptr, e: Ptr)
    requires Structure(sh) && Linked(sh, p) && !Linked(sh, e)
    ensures e !in sh.mem[p].val.uses
  {
    assert LookAtUses(0);
    assert AllLinked(sh, sh.mem[p].val.uses);
  }

  /** A chain of entries, each leading into the block of the next. */
  ghost predicate UsePath(sh: Shared, path: seq<Ptr>) {
    && |path| > 0
    && forall k: nat, l: nat {:trigger Adjacent(k, l)} :: l < |path| && Adjacent(k, l) ==>
      path[k] in sh.mem && path[l] in sh.mem[path[k]].val.uses
  }

  /** Every entry on such a chain is bound if the first one is. */
  lemma {:induction false} PathLinked(sh: Shared, path: seq<Ptr>, k: nat)
    requires Structure(sh) && UsePath(sh, path) && Linked(sh, path[0]) && k < |path|
    ensures Linked(sh, path[k])
    decreases k
  {
    if k > 0 {
      PathLinked(sh, path, k - 1);
      assert Adjacent(k - 1, k);
      assert LookAtUses(0);
      assert AllLinked(sh, sh.mem[path[k - 1]].val.uses);
    }
  }

  /**
   * Everything that a bound entry, or one handed to a reader, leads into, directly or through other entries, is
   * bound and stays so: at every later moment the same blocks hold the same values and lead on to the same blocks.
   */
  lemma UsesStay(trace: seq<State>, i: nat, j: nat, path: seq<Ptr>)
    requires Run(trace) && i <= j < |trace| && UsePath(trace[i].sh, path)
    requires Linked(trace[i].sh, path[0]) || path[0] in trace[i].sh.held
    ensures UsePath(trace[j].sh, path)
    ensures forall p {:trigger p in path} :: p in path ==>
      && Linked(trace[i].sh, p) && Linked(trace[j].sh, p) && trace[j].sh.mem[p].key == trace[i].sh.mem[p].key
      && trace[j].sh.mem[p].val == trace[i].sh.mem[p].val && trace[j].sh.mem[p].memSize == trace[i].sh.mem[p].memSize
  {
    RunKeeps(trace, i);
    assert Linked(trace[i].sh, path[0]) by {
      assert LookInside(0);
    }
    BoundForever(trace, i, j);
    forall k: nat | k < |path| ensures Linked(trace[i].sh, path[k]) && SameCell(trace[i].sh, trace[j].sh, path[k]) {
      PathLinked(trace[i].sh, path, k);
      assert LeftAlone(trace[i].sh, trace[j].sh, trace[i].sh.mem[path[k]].key);
    }
  }

  /** The entry is bound in both, with the same key, value and size. */
  predicate SameCell(a: Shared, b: Shared, p: Ptr) {
    && Linked(a, p) && Linked(b, p)
    && b.mem[p].key == a.mem[p].key && b.mem[p].val == a.mem[p].val && b.mem[p].memSize == a.mem[p].memSize
  }

  /** Whatever a reader was ever handed is still there, bound to its key. */
  lemma HeldStays(trace: seq<State>, i: nat, j: nat, p: Ptr)
    requires Run(trace) && i <= j < |trace| && p in trace[i].sh.held
    ensures Linked(trace[i].sh, p) && Linked(trace[j].sh, p)
    ensures trace[j].sh.mem[p].key == trace[i].sh.mem[p].key && trace[j].sh.mem[p].val == trace[i].sh.mem[p].val
  {
    RunKeeps(trace, i);
    assert LookInside(0);
    BoundForever(trace, i, j);
    assert LeftAlone(trace[i].sh, trace[j].sh, trace[i].sh.mem[p].key);
  }

  // ---- no deadlock ----

  /** While some call is unfinished, some thread in a call can take its next step. */
  lemma NoDeadlock(s: State, t: nat) returns (u: nat, choice: Ptr)
    requires Inv(s) && t < |s.pcs| && !s.pcs[t].Idle?
    ensures u < |s.pcs| && !s.pcs[u].Idle? && Ready(s.sh, s.pcs[u]) && CanStep(s, s.pcs[u], choice)
  {
    choice := 0;
    if w: nat :| w < |s.pcs| && GlobalWrite(s.pcs[w]) {
      OneTallies(s, w);
      u := w;
      if s.pcs[w].at.WantFine? && !NoFineReader(s, s.pcs[w].k) {
        var r: nat :| r < |s.pcs| && FineRead(s.pcs[r]) && FineLock(s.pcs[r].k) == FineLock(s.pcs[w].k);
        u := r;
      }
    } else if r: nat :| r < |s.pcs| && GlobalRead(s.pcs[r]) {
      u := r;
    } else {
      u := t;
    }
    AlwaysReady(s, u);
  }

  // ---- counters ----

  /** Away from an insertion's bookkeeping, the counters count the bindings and add up their sizes. */
  lemma CountersAgree(trace: seq<State>, i: nat)
    requires Run(trace) && i < |trace| && forall t :: 0 <= t < |trace[i].pcs| ==> !Tallying(trace[i].pcs[t])
    ensures trace[i].sh.entries == trace[i].sh.inserts == |trace[i].sh.table|
    ensures trace[i].sh.memSize == MemTotal(trace[i].sh.mem, trace[i].sh.order)
  {
    RunKeeps(trace, i);
    assert LookAtSlots(0);
    assert Lag(trace[i].sh, 0, 0, 0);
    BindingsListed(trace[i].sh);
  }

  /** There are as many bindings as entries in link order. */
  lemma BindingsListed(sh: Shared)
    requires Structure(sh) && History(sh)
    ensures |sh.order| == |sh.table|
  {
    assert LookInside(0);
    var keys := KeysListed(sh, |sh.order|);
    forall k | k in sh.table ensures k in keys {
      OldBinding(sh, k);
      assert sh.table[k] in sh.order;
    }
    assert keys == sh.table.Keys;
  }

  lemma {:induction false} KeysListed(sh: Shared, n: nat) returns (keys: set<Bytes>)
    requires History(sh) && n <= |sh.order|
    ensures |keys| == n && keys <= sh.table.Keys
    ensures forall i :: 0 <= i < n ==> sh.order[i] in sh.mem && sh.mem[sh.order[i]].key in keys
    ensures forall k :: k in keys ==> exists i :: 0 <= i < n && sh.order[i] in sh.mem && sh.mem[sh.order[i]].key == k
  {
    if n == 0 {
      return {};
    }
    assert LookInside(0);
    keys := KeysListed(sh, n - 1);
    var p := sh.order[n - 1];
    assert p in sh.order && Linked(sh, p);
    forall i | 0 <= i < n - 1 ensures sh.mem[sh.order[i]].key != sh.mem[p].key {
      assert sh.order[i] in sh.order && sh.order[i] != p;
    }
    keys := keys + {sh.mem[p].key};
  }

  /** At every moment the header's hits are those of the entries, plus the readers between the two increments. */
  lemma HitsCounted(trace: seq<State>, i: nat)
    requires Run(trace) && i < |trace|
    ensures trace[i].sh.hits == HitTotal(trace[i].sh.mem, trace[i].sh.order) + Between(trace[i].pcs)
  {
    RunKeeps(trace, i);
    assert LookAtProgress(0);
  }

  // ---- whole-table walks ----

  /** A finished walk has met every bound entry, and nothing has been bound since it began. */
  lemma InfoSeesAll(s: State, t: nat)
    requires Inv(s) && t < |s.pcs| && s.pcs[t].Listing? && s.pcs[t].info.InfoDrop?
    ensures s.pcs[t].was == s.sh.table
    ensures forall p :: p in s.pcs[t].list <==> Linked(s.sh, p)
    ensures Unrepeated(s.pcs[t].list)
  {
    One(s, t);
    FlatLinked(s.sh, |s.sh.chains|);
    FlatApart(s.sh, |s.sh.chains|);
    forall p | Linked(s.sh, p) ensures p in s.pcs[t].list {
      var i := LinkedChained(s.sh, p);
      FlatHas(s.sh.chains, |s.sh.chains|, p);
      assert p in s.sh.chains[SlotOf(s.sh.mem[p].key, |s.sh.slots|)];
    }
  }

  lemma {:induction false} FlatApart(sh: Shared, n: nat)
    requires Structure(sh) && n <= |sh.chains|
    ensures Unrepeated(Flat(sh.chains, n))
  {
    if n > 0 {
      FlatApart(sh, n - 1);
      var a, b := Flat(sh.chains, n - 1), sh.chains[n - 1];
      ChainAt(sh, n - 1);
      forall p | p in a ensures p !in b {
        FlatHas(sh.chains, n - 1, p);
        var sl :| 0 <= sl < n - 1 && p in sh.chains[sl];
        ChainsApart(sh, sl, n - 1, p);
      }
      UnrepeatedJoin(a, b);
    }
  }

  lemma ChainAt(sh: Shared, sl: nat)
    requires Structure(sh) && sl < |sh.chains|
    ensures ChainGood(sh, sl, sh.chains[sl])
  {
    assert LookAtState(0);
  }

  /** An entry hangs in the chain of its own slot only. */
  lemma ChainsApart(sh: Shared, a: nat, b: nat, p: Ptr)
    requires Structure(sh) && a < |sh.chains| && b < |sh.chains| && a != b && p in sh.chains[a]
    ensures p !in sh.chains[b]
  {
    ChainAt(sh, a);
    ChainAt(sh, b);
    SlotOfMember(sh, a, p);
    if p in sh.chains[b] {
      SlotOfMember(sh, b, p);
    }
  }

  lemma SlotOfMember(sh: Shared, sl: nat, p: Ptr)
    requires Structure(sh) && sl < |sh.chains| && ChainGood(sh, sl, sh.chains[sl]) && p in sh.chains[sl]
    ensures p in sh.mem && SlotOf(sh.mem[p].key, |sh.slots|) == sl
  {
    var i :| 0 <= i < |sh.chains[sl]| && sh.chains[sl][i] == p;
  }
}
