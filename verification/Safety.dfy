/** Every step of the protocol keeps its invariant. */
module Safety {
  import opened Focus
  import opened Sequences
  import opened Tiles
  import opened Values
  import opened Chains
  import opened Protocol
  import opened Invariants

  // ---- one thread moves ----

  lemma PairwiseMoves(pcs: seq<PC>, t: nat, pc: PC)
    requires Pairwise(pcs) && t < |pcs|
    requires forall u {:trigger pcs[u]} :: 0 <= u < |pcs| && u != t ==> Apart2(pc, pcs[u])
    ensures Pairwise(pcs[t := pc])
  {
  }

  /** Letting go of locks and blocks never conflicts with anyone. */
  predicate Narrower(a: PC, b: PC) {
    && (GlobalWrite(b) ==> GlobalWrite(a))
    && (GlobalRead(b) ==> GlobalRead(a))
    && (Inserting(b) ==> Inserting(a) && b.k == a.k)
    && (FineRead(b) ==> FineRead(a) && b.k == a.k)
    && (Block(b) != 0 ==> Block(b) == Block(a))
  }

  lemma NarrowerMoves(pcs: seq<PC>, t: nat, pc: PC)
    requires Pairwise(pcs) && t < |pcs| && Narrower(pcs[t], pc)
    ensures forall u {:trigger pcs[u]} :: 0 <= u < |pcs| && u != t ==> Apart2(pc, pcs[u])
  {
    assert LookAtLayout(0);
    forall u | 0 <= u < |pcs| && u != t ensures Apart2(pc, pcs[u]) {
      assert Apart2(pcs[t], pcs[u]);
    }
  }

  lemma Others(s: State, t: nat, u: nat)
    requires Pairwise(s.pcs) && t < |s.pcs| && u < |s.pcs| && t != u
    ensures Apart2(s.pcs[t], s.pcs[u])
  {
    assert LookAtLayout(0);
  }

  lemma One(s: State, t: nat)
    requires Structure(s.sh) && Threads(s) && t < |s.pcs|
    ensures ThreadOk(s.sh, s.pcs[t])
  {
    assert LookAtWalk(0);
  }

  // ---- steps that leave chains and bindings alone ----

  /** Nothing changed but hits and block `x`, which is bound neither before nor after. */
  ghost predicate Calm(sh: Shared, sh': Shared, x: Ptr) {
    && sh'.slots == sh.slots && sh'.chains == sh.chains && sh'.table == sh.table && sh'.order == sh.order
    && !Linked(sh, x) && !Linked(sh', x)
    && (forall p {:trigger p in sh.mem} {:trigger p in sh'.mem} :: p != x ==> (p in sh.mem <==> p in sh'.mem))
    && (forall p {:trigger sh'.mem[p]} {:trigger sh.mem[p]} :: p != x && p in sh.mem ==>
      sh'.mem[p].(hits := 0) == sh.mem[p].(hits := 0) && (Linked(sh, p) || sh'.mem[p] == sh.mem[p]))
  }

  lemma CalmLinked(sh: Shared, sh': Shared, x: Ptr, p: Ptr)
    requires Calm(sh, sh', x)
    ensures Linked(sh', p) <==> Linked(sh, p)
    ensures Linked(sh, p) ==> p != x && sh'.mem[p].(hits := 0) == sh.mem[p].(hits := 0)
  {
  }

  /** Bound entries are in their chain, and none of them is NULL. */
  lemma LinkedChained(sh: Shared, p: Ptr) returns (i: nat)
    requires Structure(sh) && Linked(sh, p)
    ensures p != 0 && i < |ChainFor(sh, sh.mem[p].key)| && ChainFor(sh, sh.mem[p].key)[i] == p
  {
    assert LookAtState(0);
    var k := sh.mem[p].key;
    var c := ChainFor(sh, k);
    assert k in sh.table && sh.table[k] in c;
    assert ChainGood(sh, SlotOf(k, |sh.slots|), c);
    i :| 0 <= i < |c| && c[i] == p;
  }

  lemma ZeroUnbound(sh: Shared)
    requires Structure(sh)
    ensures !Linked(sh, 0)
  {
    if Linked(sh, 0) {
      var i := LinkedChained(sh, 0);
    }
  }

  lemma CalmAll(sh: Shared, sh': Shared, x: Ptr, ps: set<Ptr>)
    requires Calm(sh, sh', x) && AllLinked(sh, ps)
    ensures AllLinked(sh', ps)
  {
    forall q | q in ps ensures Linked(sh', q) {
      CalmLinked(sh, sh', x, q);
    }
  }

  lemma CalmGrounded(sh: Shared, sh': Shared, x: Ptr)
    requires Calm(sh, sh', x) && Grounded(sh)
    ensures Grounded(sh')
  {
    assert LookAtUses(0);
    forall p | Linked(sh', p) ensures AllLinked(sh', sh'.mem[p].val.uses) {
      CalmLinked(sh, sh', x, p);
      CalmCell(sh, sh', x, p);
      CalmAll(sh, sh', x, sh.mem[p].val.uses);
    }
  }

  lemma CalmStructure(sh: Shared, sh': Shared, x: Ptr)
    requires Structure(sh) && Calm(sh, sh', x)
    ensures Structure(sh')
  {
    CalmGrounded(sh, sh', x);
    assert LookAtState(0);
    forall sl | 0 <= sl < |sh'.slots| ensures ChainGood(sh', sl, sh'.chains[sl]) {
      CalmChain(sh, sh', x, sl, sh.chains[sl]);
    }
    forall k | k in sh'.table
      ensures sh'.table[k] in sh'.mem && sh'.mem[sh'.table[k]].key == k && sh'.table[k] in ChainFor(sh', k)
    {
      assert k in sh.table;
      CalmCell(sh, sh', x, sh.table[k]);
    }
  }

  lemma CalmChain(sh: Shared, sh': Shared, x: Ptr, sl: nat, c: seq<Ptr>)
    requires Calm(sh, sh', x) && sl < |sh.slots| && ChainGood(sh, sl, c)
    ensures ChainGood(sh', sl, c)
  {
  }

  lemma CalmCell(sh: Shared, sh': Shared, x: Ptr, p: Ptr)
    requires Calm(sh, sh', x) && Linked(sh, p)
    ensures Linked(sh', p) && p != x
    ensures sh'.mem[p].key == sh.mem[p].key && sh'.mem[p].val == sh.mem[p].val
    ensures sh'.mem[p].next == sh.mem[p].next && sh'.mem[p].memSize == sh.mem[p].memSize
  {
  }

  lemma CalmThread(sh: Shared, sh': Shared, x: Ptr, pc: PC)
    requires Structure(sh) && Calm(sh, sh', x) && ThreadOk(sh, pc) && (x != 0 ==> Block(pc) != x)
    requires Block(pc) != 0 && Block(pc) in sh'.wins ==> Block(pc) in sh.wins
    ensures ThreadOk(sh', pc)
  {
    ZeroUnbound(sh);
    match pc
    case Idle =>
    case Storing(_, _, _, _, _, _, _, _) =>
      CalmStore(sh, sh', x, pc);
      CalmAll(sh, sh', x, pc.v.uses);
    case Finding(_, _, _, _, _, _) => CalmFind(sh, sh', x, pc);
    case Listing(_, _, _, _, _, _) =>
      forall p | Linked(sh, p) ensures Linked(sh', p) {
        CalmLinked(sh, sh', x, p);
      }
  }

  lemma CalmKeys(sh: Shared, sh': Shared, x: Ptr, k: Bytes)
    requires Structure(sh) && Calm(sh, sh', x)
    ensures |sh'.chains| == |sh'.slots| > 0 && ChainFor(sh', k) == ChainFor(sh, k)
    ensures forall j {:trigger ChainFor(sh, k)[j]} ::
      0 <= j < |ChainFor(sh, k)| ==> KeyAt(sh', ChainFor(sh, k)[j]) == KeyAt(sh, ChainFor(sh, k)[j])
  {
    var sl := SlotOf(k, |sh.slots|);
    var c := sh.chains[sl];
    assert ChainGood(sh, sl, c) by {
      assert LookAtState(0);
    }
    forall j | 0 <= j < |c| ensures KeyAt(sh', c[j]) == KeyAt(sh, c[j]) {
      CalmCell(sh, sh', x, c[j]);
    }
  }

  lemma CalmStore(sh: Shared, sh': Shared, x: Ptr, pc: PC)
    requires Structure(sh) && Calm(sh, sh', x) && pc.Storing? && StoreOk(sh, pc) && (x != 0 ==> Block(pc) != x)
    requires Block(pc) != 0 && Block(pc) in sh'.wins ==> Block(pc) in sh.wins
    ensures |sh'.chains| == |sh'.slots| > 0 && StoreOk(sh', pc)
  {
    CalmKeys(sh, sh', x, pc.k);
    CalmLinked(sh, sh', x, pc.e);
    if Linked(sh, pc.e) {
      CalmCell(sh, sh', x, pc.e);
    }
  }

  lemma CalmFind(sh: Shared, sh': Shared, x: Ptr, pc: PC)
    requires Structure(sh) && Calm(sh, sh', x) && pc.Finding? && FindOk(sh, pc)
    ensures |sh'.chains| == |sh'.slots| > 0 && FindOk(sh', pc)
  {
    CalmKeys(sh, sh', x, pc.k);
  }

  // ---- counters ----

  lemma {:induction false} BetweenMoves(pcs: seq<PC>, t: nat, pc: PC)
    requires t < |pcs|
    ensures Between(pcs[t := pc]) == Between(pcs) - (if InHit(pcs[t]) then 1 else 0) + (if InHit(pc) then 1 else 0)
    decreases |pcs|
  {
    var pcs' := pcs[t := pc];
    if t < |pcs| - 1 {
      BetweenMoves(pcs[..|pcs| - 1], t, pc);
      assert pcs'[..|pcs| - 1] == pcs[..|pcs| - 1][t := pc];
    } else {
      assert pcs'[..|pcs| - 1] == pcs[..|pcs| - 1];
    }
  }

  predicate InHit(pc: PC) {
    pc.Finding? && pc.find.Hit2?
  }

  lemma {:induction false} TotalsSame(mem: Cells, mem': Cells, ps: seq<Ptr>)
    requires forall p :: p in ps ==> p in mem && p in mem' && mem'[p].memSize == mem[p].memSize
    ensures MemTotal(mem', ps) == MemTotal(mem, ps)
    ensures (forall p :: p in ps ==> mem'[p].hits == mem[p].hits) ==> HitTotal(mem', ps) == HitTotal(mem, ps)
  {
    if ps != [] {
      assert ps[|ps| - 1] in ps;
      TotalsSame(mem, mem', ps[..|ps| - 1]);
    }
  }

  /** One more hit on one listed entry. */
  lemma {:induction false} HitTotalMore(mem: Cells, mem': Cells, ps: seq<Ptr>, p: Ptr)
    requires p in ps && Distinct(ps)
    requires (forall q :: q in ps ==> q in mem) && mem' == mem[p := mem[p].(hits := mem[p].hits + 1)]
    ensures HitTotal(mem', ps) == HitTotal(mem, ps) + 1
  {
    var rest := ps[..|ps| - 1];
    if ps[|ps| - 1] == p {
      TotalsSame(mem, mem', rest);
    } else {
      HitTotalMore(mem, mem', rest, p);
    }
  }

  // ---- calm steps keep the invariant ----

  /** Thread `t` has moved on to `pc`, and shared memory is `sh'`. */
  function Moved(s: State, t: nat, pc: PC, sh': Shared): State
    requires t < |s.pcs|
  {
    s.(pcs := s.pcs[t := pc], sh := sh')
  }

  lemma CalmThreads(s: State, t: nat, pc: PC, sh': Shared, x: Ptr)
    requires Structure(s.sh) && Threads(s) && Pairwise(s.pcs) && t < |s.pcs| && Calm(s.sh, sh', x)
    requires x != 0 ==> x !in s.sh.mem || Block(s.pcs[t]) == x
    requires forall p :: p in sh'.wins ==> p in s.sh.wins || p == Block(s.pcs[t])
    requires |sh'.chains| == |sh'.slots| > 0 && ThreadOk(sh', pc)
    ensures Threads(Moved(s, t, pc, sh'))
  {
    var s' := Moved(s, t, pc, sh');
    forall u | 0 <= u < |s'.pcs| ensures ThreadOk(sh', s'.pcs[u]) {
      if u != t {
        One(s, u);
        Others(s, t, u);
        BlockThere(s.sh, s.pcs[u]);
        CalmThread(s.sh, sh', x, s.pcs[u]);
      }
    }
  }

  /** A block that a thread is responsible for exists. */
  lemma BlockThere(sh: Shared, pc: PC)
    requires |sh.chains| == |sh.slots| > 0 && ThreadOk(sh, pc)
    ensures Block(pc) != 0 ==> Block(pc) in sh.mem
  {
  }

  lemma CalmHistory(sh: Shared, sh': Shared, x: Ptr)
    requires History(sh) && Calm(sh, sh', x) && sh'.wins == sh.wins && sh'.held == sh.held
    ensures History(sh')
  {
  }

  lemma CalmTotals(sh: Shared, sh': Shared, x: Ptr)
    requires History(sh) && Calm(sh, sh', x)
    ensures MemTotal(sh'.mem, sh.order) == MemTotal(sh.mem, sh.order)
    ensures (forall p :: p in sh.mem && p != x ==> p in sh'.mem && sh'.mem[p].hits == sh.mem[p].hits) ==>
      HitTotal(sh'.mem, sh.order) == HitTotal(sh.mem, sh.order)
  {
    assert LookInside(0);
    forall p | p in sh.order ensures p in sh.mem && p in sh'.mem && p != x && sh'.mem[p].memSize == sh.mem[p].memSize {
      CalmCell(sh, sh', x, p);
    }
    TotalsSame(sh.mem, sh'.mem, sh.order);
  }

  lemma CalmTally(s: State, t: nat, pc: PC, sh': Shared, x: Ptr)
    requires Tally(s) && History(s.sh) && t < |s.pcs| && Calm(s.sh, sh', x)
    requires !Tallying(s.pcs[t]) && !Tallying(pc)
    requires sh'.memSize == s.sh.memSize && sh'.entries == s.sh.entries && sh'.inserts == s.sh.inserts
    ensures Tally(Moved(s, t, pc, sh'))
  {
    assert LookAtSlots(0);
    CalmTotals(s.sh, sh', x);
    var s' := Moved(s, t, pc, sh');
    if forall u {:trigger s'.pcs[u]} :: 0 <= u < |s'.pcs| ==> !Tallying(s'.pcs[u]) {
      forall u {:trigger s.pcs[u]} | 0 <= u < |s.pcs| ensures !Tallying(s.pcs[u]) {
        assert u != t ==> s'.pcs[u] == s.pcs[u];
      }
    }
  }

  /** A calm step outside the counters keeps the whole invariant. */
  lemma CalmKeeps(s: State, t: nat, pc: PC, sh': Shared, x: Ptr)
    requires Inv(s) && t < |s.pcs| && Calm(s.sh, sh', x)
    requires x != 0 ==> x !in s.sh.mem || Block(s.pcs[t]) == x
    requires forall u {:trigger s.pcs[u]} :: 0 <= u < |s.pcs| && u != t ==> Apart2(pc, s.pcs[u])
    requires |sh'.chains| == |sh'.slots| > 0 && ThreadOk(sh', pc)
    requires !Tallying(s.pcs[t]) && !Tallying(pc) && !InHit(s.pcs[t]) && !InHit(pc)
    requires sh' == s.sh.(mem := sh'.mem, misses := sh'.misses)
    requires forall p {:trigger sh'.mem[p]} :: p in s.sh.mem && p != x ==> sh'.mem[p].hits == s.sh.mem[p].hits
    ensures Inv(Moved(s, t, pc, sh'))
  {
    CalmStructure(s.sh, sh', x);
    CalmThreads(s, t, pc, sh', x);
    PairwiseMoves(s.pcs, t, pc);
    CalmTally(s, t, pc, sh', x);
    CalmHistory(s.sh, sh', x);
    assert HitsAgree(Moved(s, t, pc, sh')) by {
      assert LookAtProgress(0);
      CalmTotals(s.sh, sh', x);
      BetweenMoves(s.pcs, t, pc);
    }
  }

  /** A step that touches nothing shared. */
  lemma QuietKeeps(s: State, t: nat, pc: PC)
    requires Inv(s) && t < |s.pcs|
    requires forall u {:trigger s.pcs[u]} :: 0 <= u < |s.pcs| && u != t ==> Apart2(pc, s.pcs[u])
    requires ThreadOk(s.sh, pc) && !Tallying(s.pcs[t]) && !Tallying(pc) && !InHit(s.pcs[t]) && !InHit(pc)
    ensures Inv(Moved(s, t, pc, s.sh))
  {
    ZeroUnbound(s.sh);
    CalmKeeps(s, t, pc, s.sh, 0);
  }

  // ---- walking a chain ----

  lemma ChainHere(sh: Shared, k: Bytes)
    requires Structure(sh)
    ensures ChainGood(sh, SlotOf(k, |sh.slots|), ChainFor(sh, k))
  {
    assert LookAtState(0);
  }

  lemma LinkAt(sh: Shared, k: Bytes, pos: nat, prev: Ptr)
    requires Structure(sh) && pos <= |ChainFor(sh, k)| && prev == (if pos == 0 then 0 else ChainFor(sh, k)[pos - 1])
    ensures Link(sh, k, prev) == if pos < |ChainFor(sh, k)| then ChainFor(sh, k)[pos] else 0
    ensures prev != 0 ==> prev in sh.mem
  {
    ChainHere(sh, k);
    assert pos > 0 ==> Adjacent(pos - 1, pos);
  }

  /** The whole chain passed without a match: the key is not bound. */
  lemma NoneBound(sh: Shared, k: Bytes)
    requires Structure(sh)
    requires forall j {:trigger ChainFor(sh, k)[j]} :: 0 <= j < |ChainFor(sh, k)| ==> KeyAt(sh, ChainFor(sh, k)[j]) != k
    ensures k !in sh.table
  {
    assert LookAtState(0);
  }

  lemma EntryHere(sh: Shared, k: Bytes, pos: nat)
    requires Structure(sh) && pos < |ChainFor(sh, k)|
    ensures ChainFor(sh, k)[pos] != 0 && Linked(sh, ChainFor(sh, k)[pos])
  {
    ChainHere(sh, k);
  }

  /** The pointers the next step of any thread follows are good. */
  lemma AlwaysReady(s: State, t: nat)
    requires Inv(s) && t < |s.pcs|
    ensures Ready(s.sh, s.pcs[t])
  {
    One(s, t);
    var pc := s.pcs[t];
    match pc
    case Idle =>
    case Storing(at, _, _, _, _, _, _, _) =>
      if at.Walking? || at.Linking? {
        LinkAt(s.sh, pc.k, pc.pos, pc.prev);
        if pc.pos < |ChainFor(s.sh, pc.k)| {
          EntryHere(s.sh, pc.k, pc.pos);
        }
      }
    case Finding(find, _, _, _, _, _) =>
      if find.FindWalking? && pc.cur != 0 {
        EntryHere(s.sh, pc.k, pc.pos);
      } else if find.Hit2? || find.Using? {
        assert LookAtState(0);
      }
    case Listing(info, _, _, _, _, _) =>
      if info.InfoWalking? && pc.here != 0 {
        assert LookAtState(0);
        assert ChainGood(s.sh, pc.slot, s.sh.chains[pc.slot]);
      }
  }
}
