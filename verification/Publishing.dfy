/** The one step that adds a binding: the store of a pointer at the tail of a chain. */
module Publishing {
  import opened Focus
  import opened Sequences
  import opened Tiles
  import opened Values
  import opened Chains
  import opened Protocol
  import opened Invariants
  import opened Safety
  import opened Progress

  /** A written entry stands ready behind the last entry of its chain. */
  ghost predicate AtTail(sh: Shared, k: Bytes, v: Content, n: nat, e: Ptr, prev: Ptr) {
    && Structure(sh) && Written(sh, k, v, n, e) && k !in sh.table && AllLinked(sh, v.uses)
    && prev == (if ChainFor(sh, k) == [] then 0 else ChainFor(sh, k)[|ChainFor(sh, k)| - 1])
    && (prev != 0 ==> prev in sh.mem)
  }

  lemma TailLinked(sh: Shared, k: Bytes, v: Content, n: nat, e: Ptr, prev: Ptr)
    requires AtTail(sh, k, v, n, e, prev)
    ensures prev != 0 ==> Linked(sh, prev) && SlotOf(sh.mem[prev].key, |sh.slots|) == SlotOf(k, |sh.slots|)
    ensures prev != e && (prev == 0 <==> ChainFor(sh, k) == [])
  {
    ChainHere(sh, k);
  }

  /** What becomes of the other cells. */
  lemma OldCell(sh: Shared, k: Bytes, v: Content, n: nat, e: Ptr, prev: Ptr, p: Ptr)
    requires AtTail(sh, k, v, n, e, prev) && p in sh.mem && p != e
    ensures
      var sh' := Published(sh, k, e, prev);
      && p in sh'.mem && sh'.mem[p].(next := 0) == sh.mem[p].(next := 0) && (p != prev ==> sh'.mem[p] == sh.mem[p])
      && sh'.mem[p].key == sh.mem[p].key && sh'.mem[p].val == sh.mem[p].val && sh'.mem[p].hits == sh.mem[p].hits &&
        sh'.mem[p].memSize == sh.mem[p].memSize
      && (Linked(sh', p) <==> Linked(sh, p))
  {
  }

  lemma NewCell(sh: Shared, k: Bytes, v: Content, n: nat, e: Ptr, prev: Ptr)
    requires AtTail(sh, k, v, n, e, prev)
    ensures
      var sh' := Published(sh, k, e, prev);
      && e in sh'.mem && sh'.mem[e] == Cell(k, v, 0, 0, n) && Linked(sh', e)
      && (prev != 0 ==> sh'.mem[prev].next == e)
  {
    TailLinked(sh, k, v, n, e, prev);
  }

  lemma OwnChain(sh: Shared, k: Bytes, v: Content, n: nat, e: Ptr, prev: Ptr, sh': Shared)
    requires AtTail(sh, k, v, n, e, prev) && sh' == Published(sh, k, e, prev)
    ensures ChainGood(sh', SlotOf(k, |sh.slots|), ChainFor(sh, k) + [e])
  {
    var c := ChainFor(sh, k);
    var c' := c + [e];
    ChainHere(sh, k);
    NewCell(sh, k, v, n, e, prev);
    TailLinked(sh, k, v, n, e, prev);
    assert e !in c;
    forall i | 0 <= i < |c'|
      ensures c'[i] != 0 && Linked(sh', c'[i]) && SlotOf(sh'.mem[c'[i]].key, |sh'.slots|) == SlotOf(k, |sh.slots|) {
      if i < |c| {
        OldCell(sh, k, v, n, e, prev, c[i]);
      }
    }
    UnrepeatedMore(c, e);
    assert NextCells(sh'.mem, c') by {
      forall i: nat, j: nat | j < |c'| && Adjacent(i, j) ensures sh'.mem[c'[i]].next == c'[j] {
        OldCell(sh, k, v, n, e, prev, c[i]);
        assert LookInside(0);
        assert c'[i] == c[i];
        if j < |c| {
          assert c[i] != c[|c| - 1] && sh.mem[c[i]].next == c[j];
        }
      }
    }
  }

  lemma OtherChain(sh: Shared, k: Bytes, v: Content, n: nat, e: Ptr, prev: Ptr, sh': Shared, sl: nat, c: seq<Ptr>)
    requires AtTail(sh, k, v, n, e, prev) && sh' == Published(sh, k, e, prev)
    requires sl < |sh.slots| && sl != SlotOf(k, |sh.slots|) && ChainGood(sh, sl, c)
    ensures ChainGood(sh', sl, c)
  {
    TailLinked(sh, k, v, n, e, prev);
    forall i | 0 <= i < |c| ensures Linked(sh', c[i]) && sh'.mem[c[i]] == sh.mem[c[i]] {
      assert Linked(sh, c[i]);
      OldCell(sh, k, v, n, e, prev, c[i]);
    }
  }

  /** Linking unlinks nothing. */
  lemma PublishAll(sh: Shared, k: Bytes, v: Content, n: nat, e: Ptr, prev: Ptr, sh': Shared, ps: set<Ptr>)
    requires AtTail(sh, k, v, n, e, prev) && sh' == Published(sh, k, e, prev) && AllLinked(sh, ps)
    ensures AllLinked(sh', ps)
  {
    forall q | q in ps ensures Linked(sh', q) {
      OldCell(sh, k, v, n, e, prev, q);
    }
  }

  /** The new entry leads into the blocks of bound entries only, as all others do. */
  lemma PublishGrounded(sh: Shared, k: Bytes, v: Content, n: nat, e: Ptr, prev: Ptr, sh': Shared)
    requires AtTail(sh, k, v, n, e, prev) && sh' == Published(sh, k, e, prev)
    ensures Grounded(sh')
  {
    NewCell(sh, k, v, n, e, prev);
    forall p | Linked(sh', p) ensures AllLinked(sh', sh'.mem[p].val.uses) {
      if p == e {
        PublishAll(sh, k, v, n, e, prev, sh', v.uses);
      } else {
        assert p in sh.mem;
        OldCell(sh, k, v, n, e, prev, p);
        assert LookAtUses(0);
        assert AllLinked(sh, sh.mem[p].val.uses);
        PublishAll(sh, k, v, n, e, prev, sh', sh.mem[p].val.uses);
      }
    }
  }

  lemma PublishStructure(sh: Shared, k: Bytes, v: Content, n: nat, e: Ptr, prev: Ptr, sh': Shared)
    requires AtTail(sh, k, v, n, e, prev) && sh' == Published(sh, k, e, prev)
    ensures Structure(sh')
  {
    var sl := SlotOf(k, |sh.slots|);
    OwnChain(sh, k, v, n, e, prev, sh');
    PublishGrounded(sh, k, v, n, e, prev, sh');
    NewCell(sh, k, v, n, e, prev);
    forall s | 0 <= s < |sh'.slots| ensures ChainGood(sh', s, sh'.chains[s]) {
      if s != sl {
        assert ChainGood(sh, s, sh.chains[s]) by {
          assert LookAtState(0);
        }
        OtherChain(sh, k, v, n, e, prev, sh', s, sh.chains[s]);
      }
    }
    forall q | q in sh'.table
      ensures sh'.table[q] in sh'.mem && sh'.mem[sh'.table[q]].key == q && sh'.table[q] in ChainFor(sh', q)
    {
      if q == k {
        assert (ChainFor(sh, k) + [e])[|ChainFor(sh, k)|] == e;
      } else {
        OldBinding(sh, q);
        OldCell(sh, k, v, n, e, prev, sh.table[q]);
      }
    }
  }

  lemma OldBinding(sh: Shared, q: Bytes)
    requires Structure(sh) && q in sh.table
    ensures sh.table[q] in sh.mem && sh.mem[sh.table[q]].key == q
    ensures sh.table[q] in ChainFor(sh, q) && Linked(sh, sh.table[q])
  {
    assert LookAtState(0);
  }

  // ---- the other threads ----

  /** A reader under another fine-grained lock does not notice, even on the same chain. */
  lemma ReaderUndisturbed(sh: Shared, k: Bytes, v: Content, n: nat, e: Ptr, prev: Ptr, sh': Shared, pc: PC)
    requires AtTail(sh, k, v, n, e, prev) && sh' == Published(sh, k, e, prev)
    requires pc.Finding? && FindOk(sh, pc) && (FineRead(pc) ==> FineLock(pc.k) != FineLock(k))
    ensures |sh'.chains| == |sh'.slots| > 0 && FindOk(sh', pc)
  {
  }

  lemma StorerUndisturbed(sh: Shared, k: Bytes, v: Content, n: nat, e: Ptr, prev: Ptr, sh': Shared, pc: PC)
    requires AtTail(sh, k, v, n, e, prev) && sh' == Published(sh, k, e, prev)
    requires pc.Storing? && StoreOk(sh, pc) && !GlobalWrite(pc) && Block(pc) != e
    ensures |sh'.chains| == |sh'.slots| > 0 && StoreOk(sh', pc)
  {
    TailLinked(sh, k, v, n, e, prev);
    if Block(pc) != 0 {
      OldCell(sh, k, v, n, e, prev, pc.e);
    }
  }

  lemma PublishThread(sh: Shared, k: Bytes, v: Content, n: nat, e: Ptr, prev: Ptr, sh': Shared, pc: PC)
    requires AtTail(sh, k, v, n, e, prev) && sh' == Published(sh, k, e, prev)
    requires ThreadOk(sh, pc) && !GlobalWrite(pc) && !GlobalRead(pc) && Block(pc) != e
    requires FineRead(pc) ==> FineLock(pc.k) != FineLock(k)
    ensures |sh'.chains| == |sh'.slots| > 0 && ThreadOk(sh', pc)
  {
    match pc
    case Idle =>
    case Storing(_, _, _, _, _, _, _, _) =>
      StorerUndisturbed(sh, k, v, n, e, prev, sh', pc);
      PublishAll(sh, k, v, n, e, prev, sh', pc.v.uses);
    case Finding(_, _, _, _, _, _) => ReaderUndisturbed(sh, k, v, n, e, prev, sh', pc);
    case Listing(_, _, _, _, _, _) =>
      forall p | Linked(sh, p) ensures Linked(sh', p) {
        OldCell(sh, k, v, n, e, prev, p);
      }
  }

  // ---- history and counters ----

  lemma PublishHistory(sh: Shared, k: Bytes, v: Content, n: nat, e: Ptr, prev: Ptr, sh': Shared)
    requires AtTail(sh, k, v, n, e, prev) && sh' == Published(sh, k, e, prev) && History(sh)
    ensures History(sh') && e !in sh.wins
    ensures MemTotal(sh'.mem, sh'.order) == MemTotal(sh.mem, sh.order) + n
    ensures HitTotal(sh'.mem, sh'.order) == HitTotal(sh.mem, sh.order)
  {
    assert LookInside(0);
    NewCell(sh, k, v, n, e, prev);
    assert e !in sh.order;
    forall p ensures Linked(sh', p) <==> Linked(sh, p) || p == e {
      if p in sh.mem && p != e {
        OldCell(sh, k, v, n, e, prev, p);
      }
    }
    forall p | p in sh.order
      ensures p in sh.mem && p in sh'.mem && sh'.mem[p].memSize == sh.mem[p].memSize
      ensures sh'.mem[p].hits == sh.mem[p].hits
    {
      OldCell(sh, k, v, n, e, prev, p);
    }
    TotalsSame(sh.mem, sh'.mem, sh.order);
    assert sh'.order[..|sh.order|] == sh.order;
    assert forall p :: p in sh'.order <==> p in sh.order || p == e;
  }

  /** Linking an entry keeps the invariant. */
  lemma LinkKeeps(s: State, t: nat, choice: Ptr)
    requires Inv(s) && t < |s.pcs| && s.pcs[t].Storing? && s.pcs[t].at.Linking? && Ready(s.sh, s.pcs[t])
    ensures Inv(After(s, t, choice))
  {
    One(s, t);
    var s' := After(s, t, choice);
    var pc, pc', sh, sh' := s.pcs[t], s'.pcs[t], s.sh, s'.sh;
    var k, v, n, e, prev := pc.k, pc.v, pc.n, pc.e, pc.prev;
    assert AtTail(sh, k, v, n, e, prev);
    PublishStructure(sh, k, v, n, e, prev, sh');
    PublishHistory(sh, k, v, n, e, prev, sh');
    PublishAll(sh, k, v, n, e, prev, sh', v.uses);
    NewCell(sh, k, v, n, e, prev);
    NarrowerMoves(s.pcs, t, pc');
    PairwiseMoves(s.pcs, t, pc');
    BetweenMoves(s.pcs, t, pc');
    assert HitsAgree(s') by {
      assert LookAtProgress(0);
    }
    OneTallies(s, t);
    assert Threads(s') by {
      forall u | 0 <= u < |s'.pcs| ensures ThreadOk(sh', s'.pcs[u]) {
        if u != t {
          One(s, u);
          Others(s, t, u);
          PublishThread(sh, k, v, n, e, prev, sh', s.pcs[u]);
        }
      }
    }
    assert Tally(s') by {
      PublishTally(s, t, s');
    }
  }

  lemma PublishTally(s: State, t: nat, s': State)
    requires Inv(s) && t < |s.pcs| && s.pcs[t].Storing? && s.pcs[t].at.Linking? && Ready(s.sh, s.pcs[t])
    requires s'.pcs == s.pcs[t := s.pcs[t].(at := Tally0, ok := true)]
    requires s'.sh.memSize == s.sh.memSize && s'.sh.entries == s.sh.entries && s'.sh.inserts == s.sh.inserts
    requires MemTotal(s'.sh.mem, s'.sh.order) == MemTotal(s.sh.mem, s.sh.order) + s.pcs[t].n
    requires |s'.sh.order| == |s.sh.order| + 1
    ensures Tally(s')
  {
    OneTallies(s, t);
    assert LookAtSlots(0);
    assert Lag(s.sh, 0, 0, 0);
    forall u {:trigger s'.pcs[u]} | 0 <= u < |s'.pcs| && u != t ensures s'.pcs[u] == s.pcs[u] && !Tallying(s.pcs[u]) {
    }
    assert s'.pcs[t].at.Tally0?;
  }
}
