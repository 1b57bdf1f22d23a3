/** The interleaved protocol, seen as the table of one process at a time. */
module Refinement {
  import opened Focus
  import opened Sequences
  import opened Tiles
  import opened Values
  import opened Chains
  import opened Protocol
  import opened Invariants
  import opened Safety
  import opened Progress
  import opened Publishing
  import opened Runs

  // ---- the table that shared memory stands for ----

  /** Key strings, here at the addresses of their entries. */
  function KeyHeap(sh: Shared): Heap {
    map p | p in sh.mem :: ShmStr(sh.mem[p].key)
  }

  /** The bound entries and those in `more`, as entries of the table. */
  ghost function EntriesOf(sh: Shared, more: set<Ptr>): Entries {
    map p | p in sh.mem && (Linked(sh, p) || p in more) ::
      Entry(p, sh.mem[p].val.val, sh.mem[p].next, sh.mem[p].hits, 0, 0, sh.mem[p].memSize)
  }

  function CountersOf(sh: Shared): Counters {
    Counters(HitTotal(sh.mem, sh.order), sh.misses, sh.inserts, sh.entries, sh.memSize)
  }

  /** Memory `h` and entries `es` hold what the bound cells hold. */
  ghost predicate Mirrors(sh: Shared, h: Heap, es: Entries) {
    forall p {:trigger Linked(sh, p)} :: Linked(sh, p) ==>
      && p in es && KeyReady(h, es[p]) && NameOf(h, es, p) == sh.mem[p].key
      && es[p].next == sh.mem[p].next && es[p].nhits == sh.mem[p].hits && es[p].memSize == sh.mem[p].memSize
  }

  lemma EntriesMirror(sh: Shared, more: set<Ptr>)
    ensures Mirrors(sh, KeyHeap(sh), EntriesOf(sh, more))
  {
  }

  // ---- at every moment it is a table in order ----

  lemma ChainMirrors(sh: Shared, h: Heap, es: Entries, sl: nat)
    requires Structure(sh) && Mirrors(sh, h, es) && sl < |sh.slots|
    ensures ChainOf(h, es, |sh.slots|, sl, sh.slots[sl], sh.chains[sl])
  {
    var c := sh.chains[sl];
    ChainAt(sh, sl);
    assert NextLinks(es, c) by {
      forall i: nat, j: nat | j < |c| && Adjacent(i, j) ensures es[c[i]].next == c[j] {
        assert Linked(sh, c[i]);
      }
    }
    assert TextsApart(h, es, c) by {
      forall i, j | 0 <= i < j < |c| ensures NameOf(h, es, c[i]) != NameOf(h, es, c[j]) {
        assert LookInside(0) && Linked(sh, c[i]) && Linked(sh, c[j]);
      }
    }
  }

  lemma BindingsMirror(sh: Shared, h: Heap, es: Entries)
    requires Structure(sh) && Mirrors(sh, h, es)
    ensures Binds(h, es, sh.chains, sh.table)
  {
    forall k | k in sh.table
      ensures sh.table[k] in sh.chains[SlotOf(k, |sh.chains|)] && NameOf(h, es, sh.table[k]) == k
    {
      OldBinding(sh, k);
    }
    forall s, i | 0 <= s < |sh.chains| && 0 <= i < |sh.chains[s]|
      ensures NameOf(h, es, sh.chains[s][i]) in sh.table && sh.table[NameOf(h, es, sh.chains[s][i])] == sh.chains[s][i]
    {
      ChainAt(sh, s);
      assert Linked(sh, sh.chains[s][i]);
    }
  }

  lemma OrderMirrors(sh: Shared, h: Heap, es: Entries)
    requires Structure(sh) && History(sh) && Mirrors(sh, h, es)
    ensures Lists(h, es, sh.table, sh.order)
  {
    BindingsListed(sh);
    assert LookInside(0);
    forall k | k in sh.table ensures sh.table[k] in sh.order && NameOf(h, es, sh.table[k]) == k {
      OldBinding(sh, k);
    }
    forall i | 0 <= i < |sh.order|
      ensures NameOf(h, es, sh.order[i]) in sh.table && sh.table[NameOf(h, es, sh.order[i])] == sh.order[i]
    {
      assert sh.order[i] in sh.order && Linked(sh, sh.order[i]);
    }
  }

  lemma {:induction false} TotalsMirror(sh: Shared, h: Heap, es: Entries, ps: seq<Ptr>)
    requires Mirrors(sh, h, es) && forall p :: p in ps ==> Linked(sh, p)
    ensures MemOf(es, ps) == MemTotal(sh.mem, ps) && HitsOf(es, ps) == HitTotal(sh.mem, ps)
  {
    if ps != [] {
      assert ps[|ps| - 1] in ps;
      TotalsMirror(sh, h, es, ps[..|ps| - 1]);
    }
  }

  lemma InvTable(s: State, h: Heap, es: Entries)
    requires Inv(s) && Mirrors(s.sh, h, es)
    requires forall t {:trigger s.pcs[t]} :: 0 <= t < |s.pcs| ==> !Tallying(s.pcs[t])
    ensures InOrder(h, es, s.sh.slots, s.sh.chains, s.sh.table, s.sh.order, CountersOf(s.sh))
  {
    var sh := s.sh;
    assert Tabled(h, es, sh.slots, sh.chains, sh.table, sh.order) by {
      forall sl | 0 <= sl < |sh.slots| ensures ChainOf(h, es, |sh.slots|, sl, sh.slots[sl], sh.chains[sl]) {
        ChainMirrors(sh, h, es, sl);
      }
      BindingsMirror(sh, h, es);
      OrderMirrors(sh, h, es);
    }
    assert Lag(sh, 0, 0, 0) by {
      assert LookAtSlots(0);
    }
    OrderLinked(sh);
    TotalsMirror(sh, h, es, sh.order);
  }

  /**
   * At every moment of a run at which no insertion is in the middle of its counters, shared memory is a table that
   * satisfies the invariant of the sequential one; hits being counted at the moment are left out.
   */
  lemma AlwaysTable(trace: seq<State>, i: nat, h: Heap, es: Entries)
    requires Run(trace) && i < |trace| && Mirrors(trace[i].sh, h, es)
    requires forall t {:trigger trace[i].pcs[t]} :: 0 <= t < |trace[i].pcs| ==> !Tallying(trace[i].pcs[t])
    ensures
      var sh := trace[i].sh;
      InOrder(h, es, sh.slots, sh.chains, sh.table, sh.order, CountersOf(sh))
  {
    RunKeeps(trace, i);
    InvTable(trace[i], h, es);
  }

  lemma OrderLinked(sh: Shared)
    requires History(sh)
    ensures forall p :: p in sh.order ==> Linked(sh, p)
  {
    assert LookInside(0);
  }

  // ---- an insertion, step by step, is the insertion of the sequential table ----

  /** Inside immutable_cache_cache_wlocked_insert_exclusive. */
  predicate Working(pc: PC) {
    pc.Storing? && (pc.at.Walking? || pc.at.Linking? || pc.at.Tally0? || pc.at.Tally1? || pc.at.Tally2?)
  }

  /** Thread `t` enters at moment `i` and is done at moment `j`. */
  ghost predicate OneInsertion(trace: seq<State>, t: nat, i: nat, j: nat) {
    && i < j < |trace| && (forall l {:trigger trace[l]} :: i <= l <= j ==> t < |trace[l].pcs|)
    && (forall l {:trigger trace[l]} :: i <= l < j ==> Working(trace[l].pcs[t]))
    && trace[i].pcs[t].at.Walking? && trace[j].pcs[t].Storing? && trace[j].pcs[t].at.DropFine?
  }

  /** The thread has linked its entry. */
  predicate HasLinked(pc: PC) {
    pc.Storing? && (pc.at.Tally0? || pc.at.Tally1? || pc.at.Tally2? || (pc.at.DropFine? && pc.ok))
  }

  /** How far shared memory `b` has come from `a`, when the inserting thread stands at `pc`. */
  ghost predicate SoFar(a: Shared, b: Shared, pc: PC)
    requires pc.Storing? && |a.slots| > 0
  {
    && |b.slots| == |a.slots| && pc.e in a.mem && pc.e in b.mem
    && (if HasLinked(pc) then
          && pc.k !in a.table && b.table == a.table[pc.k := pc.e] && b.order == a.order + [pc.e]
          && b.chains == Tailed(a.chains, SlotOf(pc.k, |a.slots|), pc.e)
        else b.table == a.table && b.order == a.order && b.chains == a.chains)
    && (pc.at.Linking? ==> pc.k !in a.table) && (pc.at.DropFine? && !pc.ok ==> pc.k in a.table)
    && b.memSize == a.memSize + (if HasLinked(pc) && !pc.at.Tally0? then pc.n else 0)
    && b.entries == a.entries + (if HasLinked(pc) && !pc.at.Tally0? && !pc.at.Tally1? then 1 else 0)
    && b.inserts == a.inserts + (if HasLinked(pc) && pc.at.DropFine? then 1 else 0)
    && SameCells(a, b, pc.e)
  }

  /** Bound cells and the one at `e` hold the same, links and hits aside. */
  ghost predicate SameCells(a: Shared, b: Shared, e: Ptr) {
    forall p {:trigger p in a.mem} {:trigger p in b.mem} :: p in a.mem && (Linked(a, p) || p == e) ==>
      p in b.mem && b.mem[p].(next := 0, hits := 0) == a.mem[p].(next := 0, hits := 0)
  }

  /** The fields that only the holder of the global write lock changes. */
  predicate SameTable(a: Shared, b: Shared) {
    && b.slots == a.slots && b.chains == a.chains && b.table == a.table && b.order == a.order
    && b.memSize == a.memSize && b.entries == a.entries && b.inserts == a.inserts
  }

  lemma StoreElsewhere(sh: Shared, pc: PC, choice: Ptr)
    requires pc.Storing? && Ready(sh, pc) && !GlobalWrite(pc)
    ensures SameTable(sh, StoreStep(sh, pc, choice).1)
    ensures forall p :: p in sh.mem && !(pc.at.Copying? && p == pc.e) ==>
      p in StoreStep(sh, pc, choice).1.mem && StoreStep(sh, pc, choice).1.mem[p] == sh.mem[p]
  {
  }

  lemma FindElsewhere(sh: Shared, pc: PC, protect: bool)
    requires pc.Finding? && Ready(sh, pc)
    ensures SameTable(sh, FindStep(sh, pc, protect).1)
    ensures forall p :: p in sh.mem ==>
      p in FindStep(sh, pc, protect).1.mem && FindStep(sh, pc, protect).1.mem[p].(hits := 0) == sh.mem[p].(hits := 0)
  {
  }

  /** While one thread holds the global write lock, the steps of all others leave the table alone. */
  lemma OthersStutter(s: State, s': State, t: nat, u: nat, choice: Ptr, call: Call, p: Ptr)
    requires Inv(s) && Steps(s, s', u, choice, call) && t < |s.pcs| && u != t && GlobalWrite(s.pcs[t])
    requires p in s.sh.mem && (Linked(s.sh, p) || p == Block(s.pcs[t]))
    ensures SameTable(s.sh, s'.sh)
    ensures p in s'.sh.mem && s'.sh.mem[p].(hits := 0) == s.sh.mem[p].(hits := 0)
  {
    Others(s, t, u);
    One(s, u);
    ZeroUnbound(s.sh);
    if s.pcs[u].Storing? {
      StoreElsewhere(s.sh, s.pcs[u], choice);
    } else if s.pcs[u].Finding? {
      FindElsewhere(s.sh, s.pcs[u], s.protect);
    }
  }

  /** The same call of the same thread. */
  predicate SameCall(x: PC, y: PC) {
    x.Storing? && y.Storing? && y.k == x.k && y.e == x.e && y.n == x.n && y.v == x.v
  }

  lemma {:induction false} InsertionSoFar(trace: seq<State>, t: nat, i: nat, l: nat)
    requires Run(trace) && i <= l < |trace| && (forall m {:trigger trace[m]} :: i <= m <= l ==> t < |trace[m].pcs|)
    requires forall m {:trigger trace[m]} :: i <= m < l ==> Working(trace[m].pcs[t])
    requires trace[i].pcs[t].Storing? && trace[i].pcs[t].at.Walking? && trace[l].pcs[t].Storing?
    requires Working(trace[l].pcs[t]) || trace[l].pcs[t].at.DropFine?
    ensures |trace[i].sh.slots| > 0 && SoFar(trace[i].sh, trace[l].sh, trace[l].pcs[t])
    ensures SameCall(trace[i].pcs[t], trace[l].pcs[t])
    decreases l
  {
    RunKeeps(trace, i);
    if l == i {
      One(trace[i], t);
    } else {
      assert Working(trace[l - 1].pcs[t]);
      InsertionSoFar(trace, t, i, l - 1);
      RunKeeps(trace, l - 1);
      assert Goes(trace, l - 1);
      InsertionStep(trace[i].sh, trace[l - 1], trace[l], t);
    }
  }

  lemma InsertionStep(a: Shared, s: State, s': State, t: nat)
    requires Inv(s) && Step(s, s') && t < |s.pcs| && t < |s'.pcs| && Working(s.pcs[t]) && |a.slots| > 0
    requires SoFar(a, s.sh, s.pcs[t]) && s'.pcs[t].Storing?
    ensures SoFar(a, s'.sh, s'.pcs[t]) && SameCall(s.pcs[t], s'.pcs[t])
  {
    var u: nat, choice: Ptr, call: Call :| Steps(s, s', u, choice, call);
    if u != t {
      OtherStep(a, s, s', t, u, choice, call);
    } else {
      OwnStep(a, s, t, choice);
    }
  }

  lemma OwnStep(a: Shared, s: State, t: nat, choice: Ptr)
    requires Inv(s) && t < |s.pcs| && Working(s.pcs[t]) && Ready(s.sh, s.pcs[t])
    requires |a.slots| > 0 && SoFar(a, s.sh, s.pcs[t])
    ensures
      var next := StoreStep(s.sh, s.pcs[t], choice);
      next.0.Storing? && SoFar(a, next.1, next.0) && SameCall(s.pcs[t], next.0)
  {
    var pc := s.pcs[t];
    GoesOn(s.sh, pc, choice);
    if pc.at.Walking? {
      WalkStep(a, s, t, choice);
    } else if pc.at.Linking? {
      LinkStep(a, s, t, choice);
    } else {
      One(s, t);
      CountStep(a, s.sh, pc, choice);
    }
  }

  lemma GoesOn(sh: Shared, pc: PC, choice: Ptr)
    requires Working(pc) && Ready(sh, pc)
    ensures SameCall(pc, StoreStep(sh, pc, choice).0)
  {
  }

  lemma OtherStep(a: Shared, s: State, s': State, t: nat, u: nat, choice: Ptr, call: Call)
    requires Inv(s) && Steps(s, s', u, choice, call) && t < |s.pcs| && u != t && Working(s.pcs[t]) && |a.slots| > 0
    requires SoFar(a, s.sh, s.pcs[t])
    ensures SoFar(a, s'.sh, s.pcs[t])
  {
    var pc := s.pcs[t];
    One(s, t);
    OthersStutter(s, s', t, u, choice, call, pc.e);
    forall p | p in a.mem && (Linked(a, p) || p == pc.e)
      ensures p in s'.sh.mem && s'.sh.mem[p].(next := 0, hits := 0) == a.mem[p].(next := 0, hits := 0)
    {
      assert p == pc.e || Linked(s.sh, p);
      OthersStutter(s, s', t, u, choice, call, p);
      NoHits(s.sh.mem[p], s'.sh.mem[p]);
    }
  }

  lemma NoHits(c: Cell, d: Cell)
    requires d.(hits := 0) == c.(hits := 0)
    ensures d.(next := 0, hits := 0) == c.(next := 0, hits := 0)
  {
    assert d.(hits := 0).(next := 0) == d.(next := 0, hits := 0);
    assert c.(hits := 0).(next := 0) == c.(next := 0, hits := 0);
  }

  lemma WalkStep(a: Shared, s: State, t: nat, choice: Ptr)
    requires Inv(s) && t < |s.pcs| && s.pcs[t].Storing? && s.pcs[t].at.Walking? && |a.slots| > 0
    requires SoFar(a, s.sh, s.pcs[t]) && Ready(s.sh, s.pcs[t])
    ensures SoFar(a, s.sh, StoreStep(s.sh, s.pcs[t], choice).0) && StoreStep(s.sh, s.pcs[t], choice).1 == s.sh
  {
    var pc := s.pcs[t];
    One(s, t);
    LinkAt(s.sh, pc.k, pc.pos, pc.prev);
    if pc.pos < |ChainFor(s.sh, pc.k)| {
      EntryHere(s.sh, pc.k, pc.pos);
    } else {
      NoneBound(s.sh, pc.k);
    }
  }

  lemma LinkStep(a: Shared, s: State, t: nat, choice: Ptr)
    requires Inv(s) && t < |s.pcs| && s.pcs[t].Storing? && s.pcs[t].at.Linking? && |a.slots| > 0
    requires SoFar(a, s.sh, s.pcs[t]) && Ready(s.sh, s.pcs[t])
    ensures SoFar(a, StoreStep(s.sh, s.pcs[t], choice).1, StoreStep(s.sh, s.pcs[t], choice).0)
  {
    var pc := s.pcs[t];
    One(s, t);
    assert AtTail(s.sh, pc.k, pc.v, pc.n, pc.e, pc.prev);
    var sh' := Published(s.sh, pc.k, pc.e, pc.prev);
    NewCell(s.sh, pc.k, pc.v, pc.n, pc.e, pc.prev);
    forall p | p in a.mem && (Linked(a, p) || p == pc.e)
      ensures p in sh'.mem && sh'.mem[p].(next := 0, hits := 0) == a.mem[p].(next := 0, hits := 0)
    {
      if p != pc.e {
        OldCell(s.sh, pc.k, pc.v, pc.n, pc.e, pc.prev, p);
      }
      NoLink(s.sh.mem[p], sh'.mem[p]);
    }
  }

  lemma NoLink(c: Cell, d: Cell)
    requires d.(next := 0) == c.(next := 0)
    ensures d.(next := 0, hits := 0) == c.(next := 0, hits := 0)
  {
    assert d.(next := 0).(hits := 0) == d.(next := 0, hits := 0);
    assert c.(next := 0).(hits := 0) == c.(next := 0, hits := 0);
  }

  lemma CountStep(a: Shared, sh: Shared, pc: PC, choice: Ptr)
    requires pc.Storing? && (pc.at.Tally0? || pc.at.Tally1? || pc.at.Tally2?) && pc.ok && |a.slots| > 0
    requires SoFar(a, sh, pc) && Ready(sh, pc)
    ensures SoFar(a, StoreStep(sh, pc, choice).1, StoreStep(sh, pc, choice).0)
  {
  }

  /**
   * From entering the insertion to leaving it, whatever other threads do meanwhile, the table that shared memory
   * stands for changes as the sequential insertion changes it.
   */
  lemma InsertionRefines(trace: seq<State>, t: nat, i: nat, j: nat)
    requires Run(trace) && OneInsertion(trace, t, i, j)
    ensures
      var a, b, pc := trace[i].sh, trace[j].sh, trace[j].pcs[t];
      && pc.k == trace[i].pcs[t].k && NameOf(KeyHeap(a), EntriesOf(a, {pc.e}), pc.e) == pc.k
      && InsertsExclusive(KeyHeap(a), EntriesOf(a, {pc.e}), EntriesOf(b, {pc.e}), a.table, b.table, a.chains, b.chains,
                          a.order, b.order, CountersOf(a), CountersOf(b), pc.e, pc.ok)
  {
    var a, b, pc := trace[i].sh, trace[j].sh, trace[j].pcs[t];
    InsertionSoFar(trace, t, i, j);
    RunKeeps(trace, i);
    RunKeeps(trace, j);
    One(trace[i], t);
    BoundForever(trace, i, j);
    SameRecord(a, b, pc);
    SoFarRefines(a, b, pc);
  }

  lemma SoFarRefines(a: Shared, b: Shared, pc: PC)
    requires pc.Storing? && pc.at.DropFine? && |a.chains| == |a.slots| > 0 && SoFar(a, b, pc)
    requires Written(a, pc.k, pc.v, pc.n, pc.e) && SameRecords(EntriesOf(a, {pc.e}), EntriesOf(b, {pc.e}))
    ensures
      && NameOf(KeyHeap(a), EntriesOf(a, {pc.e}), pc.e) == pc.k
      && InsertsExclusive(KeyHeap(a), EntriesOf(a, {pc.e}), EntriesOf(b, {pc.e}), a.table, b.table, a.chains, b.chains,
                          a.order, b.order, CountersOf(a), CountersOf(b), pc.e, pc.ok)
  {
    assert pc.e in EntriesOf(a, {pc.e}) && EntriesOf(a, {pc.e})[pc.e].memSize == pc.n;
  }

  lemma SameRecord(a: Shared, b: Shared, pc: PC)
    requires pc.Storing? && pc.at.DropFine? && |a.slots| > 0 && SoFar(a, b, pc) && BindingsStay(a, b)
    requires Structure(a) && Structure(b) && pc.e != 0
    ensures SameRecords(EntriesOf(a, {pc.e}), EntriesOf(b, {pc.e}))
  {
    var x, y := EntriesOf(a, {pc.e}), EntriesOf(b, {pc.e});
    forall p | p in x
      ensures p in y && y[p].key == x[p].key && y[p].val == x[p].val && y[p].memSize == x[p].memSize
    {
      if Linked(a, p) {
        assert LeftAlone(a, b, a.mem[p].key);
      }
      CellFields(a.mem[p], b.mem[p]);
    }
    forall p | p in y ensures p in x {
      if p != pc.e {
        OldBinding(a, b.mem[p].key);
      }
    }
  }

  lemma CellFields(c: Cell, d: Cell)
    requires d.(next := 0, hits := 0) == c.(next := 0, hits := 0)
    ensures d.key == c.key && d.val == c.val && d.memSize == c.memSize
  {
    var x, y := c.(next := 0, hits := 0), d.(next := 0, hits := 0);
    assert x.key == c.key && y.key == d.key && x.val == c.val && y.val == d.val && x.memSize == c.memSize &&
      y.memSize == d.memSize;
  }
}
