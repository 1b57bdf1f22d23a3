/** The steps one by one. */
module Progress {
  import opened Focus
  import opened Tiles
  import opened Values
  import opened Chains
  import opened Protocol
  import opened Invariants
  import opened Safety

  // ---- taking locks ----

  lemma TakesGlobal(s: State, t: nat, pc: PC)
    requires Pairwise(s.pcs) && t < |s.pcs| && GlobalFree(s)
    requires !Inserting(pc) && !FineRead(pc) && !GlobalRead(pc) && (Block(pc) != 0 ==> Block(pc) == Block(s.pcs[t]))
    ensures forall u {:trigger s.pcs[u]} :: 0 <= u < |s.pcs| && u != t ==> Apart2(pc, s.pcs[u])
  {
    forall u | 0 <= u < |s.pcs| && u != t ensures Apart2(pc, s.pcs[u]) {
      Others(s, t, u);
    }
  }

  lemma TakesFine(s: State, t: nat, pc: PC)
    requires Pairwise(s.pcs) && t < |s.pcs| && pc.Storing? && NoFineReader(s, pc.k) && NoFineWriter(s, pc.k)
    requires GlobalWrite(s.pcs[t]) && (Block(pc) != 0 ==> Block(pc) == Block(s.pcs[t]))
    ensures forall u {:trigger s.pcs[u]} :: 0 <= u < |s.pcs| && u != t ==> Apart2(pc, s.pcs[u])
  {
    forall u | 0 <= u < |s.pcs| && u != t ensures Apart2(pc, s.pcs[u]) {
      Others(s, t, u);
    }
  }

  lemma TakesFineRead(s: State, t: nat, pc: PC)
    requires t < |s.pcs| && pc.Finding? && NoFineWriter(s, pc.k)
    ensures forall u {:trigger s.pcs[u]} :: 0 <= u < |s.pcs| && u != t ==> Apart2(pc, s.pcs[u])
  {
  }

  lemma TakesGlobalRead(s: State, t: nat, pc: PC)
    requires t < |s.pcs| && pc.Listing? && NoGlobalWriter(s)
    ensures forall u {:trigger s.pcs[u]} :: 0 <= u < |s.pcs| && u != t ==> Apart2(pc, s.pcs[u])
  {
  }

  // ---- starting a call ----

  lemma StartKeeps(s: State, t: nat, call: Call)
    requires Inv(s) && t < |s.pcs| && s.pcs[t].Idle? && MayStart(s.sh, call)
    ensures Inv(Moved(s, t, Started(call), s.sh))
  {
    assert ThreadOk(s.sh, Started(call)) by {
      assert LookInside(0);
    }
    NarrowerMoves(s.pcs, t, Started(call));
    QuietKeeps(s, t, Started(call));
  }

  // ---- a store, up to the link ----

  lemma AllocKeeps(s: State, t: nat, choice: Ptr)
    requires Inv(s) && t < |s.pcs| && s.pcs[t].Storing?
    requires s.pcs[t].at.Allocating? && (choice == 0 || choice !in s.sh.mem)
    requires Ready(s.sh, s.pcs[t])
    ensures Inv(After(s, t, choice))
  {
    One(s, t);
    var pc, sh, s' := s.pcs[t], s.sh, After(s, t, choice);
    var pc' := s'.pcs[t];
    forall u | 0 <= u < |s.pcs| && u != t ensures Apart2(pc', s.pcs[u]) {
      Others(s, t, u);
      One(s, u);
      BlockThere(sh, s.pcs[u]);
    }
    if choice == 0 {
      QuietKeeps(s, t, pc');
    } else {
      var sh' := sh.(mem := sh.mem[choice := BLANK]);
      FreshUnbound(sh, choice);
      CalmKeeps(s, t, pc', sh', choice);
      assert s' == Moved(s, t, pc', sh');
    }
  }

  lemma FreshUnbound(sh: Shared, p: Ptr)
    requires Structure(sh) && p !in sh.mem
    ensures forall k :: k in sh.table ==> sh.table[k] != p
  {
    assert LookAtState(0);
  }

  lemma CopyKeeps(s: State, t: nat, choice: Ptr)
    requires Inv(s) && t < |s.pcs| && s.pcs[t].Storing? && s.pcs[t].at.Copying? && Ready(s.sh, s.pcs[t])
    ensures Inv(After(s, t, choice))
  {
    One(s, t);
    var pc, sh, s' := s.pcs[t], s.sh, After(s, t, choice);
    var pc', sh' := s'.pcs[t], s'.sh;
    OwnUnbound(sh, pc.e);
    NarrowerMoves(s.pcs, t, pc');
    CalmKeeps(s, t, pc', sh', pc.e);
  }

  lemma OwnUnbound(sh: Shared, p: Ptr)
    requires Structure(sh) && Own(sh, p)
    ensures forall k :: k in sh.table ==> sh.table[k] != p
  {
    assert LookAtState(0);
  }

  lemma FreeKeeps(s: State, t: nat, choice: Ptr)
    requires Inv(s) && t < |s.pcs| && s.pcs[t].Storing? && s.pcs[t].at.Freeing? && Ready(s.sh, s.pcs[t])
    ensures Inv(After(s, t, choice))
  {
    One(s, t);
    var pc, sh, s' := s.pcs[t], s.sh, After(s, t, choice);
    var pc', sh' := s'.pcs[t], s'.sh;
    OwnUnbound(sh, pc.e);
    NarrowerMoves(s.pcs, t, pc');
    CalmKeeps(s, t, pc', sh', pc.e);
  }

  lemma WalkKeeps(s: State, t: nat, choice: Ptr)
    requires Inv(s) && t < |s.pcs| && s.pcs[t].Storing? && s.pcs[t].at.Walking? && Ready(s.sh, s.pcs[t])
    ensures Inv(After(s, t, choice))
  {
    One(s, t);
    var pc, sh, s' := s.pcs[t], s.sh, After(s, t, choice);
    var pc' := s'.pcs[t];
    LinkAt(sh, pc.k, pc.pos, pc.prev);
    if pc.pos < |ChainFor(sh, pc.k)| {
      EntryHere(sh, pc.k, pc.pos);
    } else {
      NoneBound(sh, pc.k);
    }
    NarrowerMoves(s.pcs, t, pc');
    QuietKeeps(s, t, pc');
    assert s' == Moved(s, t, pc', sh);
  }

  /** A store takes a lock. */
  lemma StoreLocks(s: State, t: nat, choice: Ptr)
    requires Inv(s) && t < |s.pcs| && s.pcs[t].Storing? && Ready(s.sh, s.pcs[t]) && CanStep(s, s.pcs[t], choice)
    requires s.pcs[t].at.WantAlloc? || s.pcs[t].at.WantGlobal? || s.pcs[t].at.WantFine? || s.pcs[t].at.WantFree?
    ensures Inv(After(s, t, choice))
  {
    One(s, t);
    var s' := After(s, t, choice);
    var pc, pc' := s.pcs[t], s'.pcs[t];
    if pc.at.WantFine? {
      TakesFine(s, t, pc');
    } else {
      TakesGlobal(s, t, pc');
    }
    QuietKeeps(s, t, pc');
    assert s' == Moved(s, t, pc', s.sh);
  }

  /** The other steps of a store that touch nothing shared. */
  lemma StoreQuiet(s: State, t: nat, choice: Ptr)
    requires Inv(s) && t < |s.pcs| && s.pcs[t].Storing? && Ready(s.sh, s.pcs[t])
    requires
      var pc := s.pcs[t];
      pc.at.Allocated? || pc.at.DropFine? || (pc.at.DropGlobal? && !pc.ok) || pc.at.Freed? || pc.at.Returned?
    ensures Inv(After(s, t, choice))
  {
    One(s, t);
    var s' := After(s, t, choice);
    var pc, pc' := s.pcs[t], s'.pcs[t];
    NarrowerMoves(s.pcs, t, pc');
    QuietKeeps(s, t, pc');
    assert s' == Moved(s, t, pc', s.sh);
  }

  // ---- lookups ----

  lemma FindQuiet(s: State, t: nat, choice: Ptr)
    requires Inv(s) && t < |s.pcs| && s.pcs[t].Finding? && Ready(s.sh, s.pcs[t]) && CanStep(s, s.pcs[t], choice)
    requires s.pcs[t].find.FindWant? || s.pcs[t].find.FindLocked? || s.pcs[t].find.FindWalking? ||
      s.pcs[t].find.Missing? || s.pcs[t].find.Using?
    ensures Inv(After(s, t, choice))
  {
    One(s, t);
    var s' := After(s, t, choice);
    var pc, pc', sh := s.pcs[t], s'.pcs[t], s.sh;
    if pc.find.FindWant? {
      TakesFineRead(s, t, pc');
    } else {
      if pc.find.FindLocked? {
        LinkAt(sh, pc.k, 0, 0);
        if ChainFor(sh, pc.k) == [] {
          NoneBound(sh, pc.k);
        } else {
          EntryHere(sh, pc.k, 0);
        }
      } else if pc.find.FindWalking? && pc.cur != 0 {
        EntryHere(sh, pc.k, pc.pos);
        LinkAt(sh, pc.k, pc.pos + 1, pc.cur);
        if KeyAt(sh, pc.cur) != pc.k {
          if pc.pos + 1 < |ChainFor(sh, pc.k)| {
            EntryHere(sh, pc.k, pc.pos + 1);
          } else {
            NoneBound(sh, pc.k);
          }
        }
      }
      NarrowerMoves(s.pcs, t, pc');
    }
    ZeroUnbound(sh);
    CalmKeeps(s, t, pc', s'.sh, 0);
    assert s' == Moved(s, t, pc', s'.sh);
  }

  // ---- whole-table walks ----

  lemma InfoKeeps(s: State, t: nat, choice: Ptr)
    requires Inv(s) && t < |s.pcs| && s.pcs[t].Listing? && !s.pcs[t].info.InfoDrop?
    requires Ready(s.sh, s.pcs[t]) && CanStep(s, s.pcs[t], choice)
    ensures Inv(After(s, t, choice))
  {
    One(s, t);
    var s' := After(s, t, choice);
    var pc, pc', sh := s.pcs[t], s'.pcs[t], s.sh;
    if pc.info.InfoWant? {
      TakesGlobalRead(s, t, pc');
    } else {
      if pc.info.InfoLocked? {
        HeadAt(sh, 0);
      } else if pc.info.InfoWalking? {
        HeadAt(sh, pc.slot);
        HeadAt(sh, pc.slot + 1);
        if pc.slot < |sh.slots| {
          LinkInChain(sh, pc.slot, pc.spot);
          assert sh.chains[pc.slot][..|sh.chains[pc.slot]|] == sh.chains[pc.slot];
        }
      }
      NarrowerMoves(s.pcs, t, pc');
    }
    QuietKeeps(s, t, pc');
    assert s' == Moved(s, t, pc', sh);
  }

  lemma HeadAt(sh: Shared, slot: nat)
    requires Structure(sh)
    ensures slot < |sh.slots| ==> Head(sh, slot) == First(sh.chains[slot])
  {
    assert LookAtState(0);
    if slot < |sh.slots| {
      assert ChainGood(sh, slot, sh.chains[slot]);
    }
  }

  lemma LinkInChain(sh: Shared, slot: nat, spot: nat)
    requires Structure(sh) && slot < |sh.slots|
    ensures spot < |sh.chains[slot]| ==>
      && sh.chains[slot][spot] != 0
      && Link(sh, [], sh.chains[slot][spot]) == (if spot + 1 < |sh.chains[slot]| then sh.chains[slot][spot + 1] else 0)
  {
    assert LookAtState(0);
    assert ChainGood(sh, slot, sh.chains[slot]);
    assert spot + 1 < |sh.chains[slot]| ==> Adjacent(spot, spot + 1);
  }

  lemma {:induction false} FlatLinked(sh: Shared, n: nat)
    requires Structure(sh) && n <= |sh.chains|
    ensures forall p :: p in Flat(sh.chains, n) ==> Linked(sh, p)
  {
    if n > 0 {
      FlatLinked(sh, n - 1);
      var c := sh.chains[n - 1];
      assert ChainGood(sh, n - 1, c) by {
        assert LookAtState(0);
      }
      forall p | p in c ensures Linked(sh, p) {
        var i :| 0 <= i < |c| && c[i] == p;
      }
    }
  }

  // ---- counting hits ----

  /** The header's increment opens the gap that the entry's increment closes. */
  lemma HitKeeps(s: State, t: nat, choice: Ptr)
    requires Inv(s) && t < |s.pcs| && s.pcs[t].Finding?
    requires (s.pcs[t].find.Hit1? || s.pcs[t].find.Hit2?) && Ready(s.sh, s.pcs[t])
    ensures Inv(After(s, t, choice))
  {
    One(s, t);
    ZeroUnbound(s.sh);
    var s' := After(s, t, choice);
    var pc, pc', sh, sh' := s.pcs[t], s'.pcs[t], s.sh, s'.sh;
    assert Linked(sh, pc.cur) by {
      assert LookAtState(0);
    }
    assert Calm(sh, sh', 0);
    NarrowerMoves(s.pcs, t, pc');
    CalmStructure(sh, sh', 0);
    CalmFind(sh, sh', 0, pc);
    CalmThreads(s, t, pc', sh', 0);
    PairwiseMoves(s.pcs, t, pc');
    CalmTally(s, t, pc', sh', 0);
    CalmHistory(sh, sh', 0);
    BetweenMoves(s.pcs, t, pc');
    assert HitsAgree(s') by {
      HitSum(s, pc.cur, sh');
    }
  }

  lemma HitSum(s: State, p: Ptr, sh': Shared)
    requires History(s.sh) && Linked(s.sh, p)
    ensures HitTotal(s.sh.mem[p := s.sh.mem[p].(hits := s.sh.mem[p].hits + 1)], s.sh.order) ==
      HitTotal(s.sh.mem, s.sh.order) + 1
    ensures HitsAgree(s) ==> s.sh.hits == HitTotal(s.sh.mem, s.sh.order) + Between(s.pcs)
  {
    assert LookInside(0) && LookAtProgress(0);
    assert p in s.sh.order;
    HitTotalMore(s.sh.mem, s.sh.mem[p := s.sh.mem[p].(hits := s.sh.mem[p].hits + 1)], s.sh.order, p);
  }

  // ---- handing an entry to the reader, and returning 1 ----

  /** Bound entries are handed out, with all that they lead into. */
  lemma HeldKeeps(s: State, t: nat, pc: PC, sh': Shared)
    requires Inv(s) && t < |s.pcs| && Narrower(s.pcs[t], pc) && ThreadOk(s.sh, pc)
    requires !Tallying(s.pcs[t]) && !Tallying(pc) && !InHit(s.pcs[t]) && !InHit(pc)
    requires sh' == s.sh.(held := sh'.held) && forall p :: p in sh'.held ==>
      p in s.sh.held || (p != 0 && Linked(s.sh, p))
    ensures Inv(Moved(s, t, pc, sh'))
  {
    ZeroUnbound(s.sh);
    var s' := Moved(s, t, pc, sh');
    NarrowerMoves(s.pcs, t, pc);
    CalmStructure(s.sh, sh', 0);
    CalmOwn(s.sh, sh', pc);
    CalmThreads(s, t, pc, sh', 0);
    PairwiseMoves(s.pcs, t, pc);
    CalmTally(s, t, pc, sh', 0);
    BetweenMoves(s.pcs, t, pc);
    assert HitsAgree(s') by {
      assert LookAtProgress(0);
    }
    assert History(sh') by {
      assert LookInside(0);
    }
  }

  lemma CalmOwn(sh: Shared, sh': Shared, pc: PC)
    requires Structure(sh) && ThreadOk(sh, pc) && sh' == sh.(held := sh'.held) && !Linked(sh, 0)
    ensures |sh'.chains| == |sh'.slots| > 0 && ThreadOk(sh', pc)
  {
    CalmThread(sh, sh', 0, pc);
  }

  /** What bound entries lead into is bound. */
  lemma ReachedLinked(sh: Shared, ps: set<Ptr>)
    requires Structure(sh) && forall p :: p in ps ==> Linked(sh, p)
    ensures forall q :: q in Reached(sh.mem, ps) ==> q != 0 && Linked(sh, q)
  {
    ZeroUnbound(sh);
    forall q | q in Reached(sh.mem, ps) ensures Linked(sh, q) {
      if q !in ps {
        var p :| p in ps && p in sh.mem && q in sh.mem[p].val.uses;
        assert LookAtUses(0);
        assert AllLinked(sh, sh.mem[p].val.uses);
      }
    }
  }

  /** The entry found is given to the reader as its lock is released. */
  lemma HandKeeps(s: State, t: nat, choice: Ptr)
    requires Inv(s) && t < |s.pcs| && s.pcs[t].Finding? && s.pcs[t].find.FindDrop? && Ready(s.sh, s.pcs[t])
    ensures Inv(After(s, t, choice))
  {
    One(s, t);
    var s' := After(s, t, choice);
    var pc := s.pcs[t];
    if pc.cur != 0 {
      OldBound(s.sh, pc.k);
      ReachedLinked(s.sh, {pc.cur});
    }
    HeldKeeps(s, t, s'.pcs[t], s'.sh);
    assert s' == Moved(s, t, s'.pcs[t], s'.sh);
  }

  lemma OldBound(sh: Shared, k: Bytes)
    requires Structure(sh) && k in sh.table
    ensures Linked(sh, sh.table[k])
  {
    assert LookAtState(0);
  }

  /** The keys of a finished walk's entries are given to the caller as the lock is released. */
  lemma ReportKeeps(s: State, t: nat, choice: Ptr)
    requires Inv(s) && t < |s.pcs| && s.pcs[t].Listing? && s.pcs[t].info.InfoDrop? && Ready(s.sh, s.pcs[t])
    ensures Inv(After(s, t, choice))
  {
    One(s, t);
    var s' := After(s, t, choice);
    var pc := s.pcs[t];
    FlatLinked(s.sh, |s.sh.chains|);
    ReachedLinked(s.sh, set p | p in pc.list);
    HeldKeeps(s, t, s'.pcs[t], s'.sh);
    assert s' == Moved(s, t, s'.pcs[t], s'.sh);
  }

  lemma WinKeeps(s: State, t: nat, choice: Ptr)
    requires Inv(s) && t < |s.pcs| && s.pcs[t].Storing?
    requires s.pcs[t].at.DropGlobal? && s.pcs[t].ok && Ready(s.sh, s.pcs[t])
    ensures Inv(After(s, t, choice))
  {
    One(s, t);
    ZeroUnbound(s.sh);
    var s' := After(s, t, choice);
    var pc, pc', sh, sh' := s.pcs[t], s'.pcs[t], s.sh, s'.sh;
    NarrowerMoves(s.pcs, t, pc');
    CalmStructure(sh, sh', 0);
    CalmThreads(s, t, pc', sh', 0);
    PairwiseMoves(s.pcs, t, pc');
    CalmTally(s, t, pc', sh', 0);
    BetweenMoves(s.pcs, t, pc');
    assert HitsAgree(s') by {
      assert LookAtProgress(0);
    }
    assert History(sh') by {
      assert LookInside(0);
    }
  }

  // ---- bringing the counters up to date ----

  /** A counter has been raised: everything but the equations about counters is as before. */
  lemma CounterKeeps(s: State, t: nat, pc: PC, sh': Shared)
    requires Inv(s) && t < |s.pcs| && Tallying(s.pcs[t]) && pc.Storing?
    requires pc == s.pcs[t].(at := pc.at) && (Tallying(pc) || pc.at.DropFine?)
    requires sh' == s.sh.(memSize := sh'.memSize, entries := sh'.entries, inserts := sh'.inserts)
    requires Tally(Moved(s, t, pc, sh'))
    ensures Inv(Moved(s, t, pc, sh'))
  {
    One(s, t);
    ZeroUnbound(s.sh);
    NarrowerMoves(s.pcs, t, pc);
    CalmStructure(s.sh, sh', 0);
    CalmThread(s.sh, sh', 0, s.pcs[t]);
    CalmThreads(s, t, pc, sh', 0);
    PairwiseMoves(s.pcs, t, pc);
    CalmHistory(s.sh, sh', 0);
    BetweenMoves(s.pcs, t, pc);
    assert HitsAgree(Moved(s, t, pc, sh')) by {
      assert LookAtProgress(0);
    }
  }

  /** The counters' lag is that of the one thread that updates them. */
  lemma TallyMoves(s: State, t: nat, pc: PC, sh': Shared)
    requires Inv(s) && t < |s.pcs| && Tallying(s.pcs[t]) && pc.Storing?
    requires
      if Tallying(pc) then Lag(sh', if pc.at.Tally0? then pc.n else 0, if pc.at.Tally2? then 0 else 1, 1)
      else Lag(sh', 0, 0, 0)
    ensures Tally(Moved(s, t, pc, sh'))
  {
    OneTallies(s, t);
    var s' := Moved(s, t, pc, sh');
    assert LookAtSlots(0);
    forall u {:trigger s'.pcs[u]} | 0 <= u < |s'.pcs| && u != t ensures s'.pcs[u] == s.pcs[u] && !Tallying(s.pcs[u]) {
    }
    assert s'.pcs[t] == pc;
  }

  lemma LagNow(s: State, t: nat)
    requires Inv(s) && t < |s.pcs| && Tallying(s.pcs[t])
    ensures Lag(s.sh, if s.pcs[t].at.Tally0? then s.pcs[t].n else 0, if s.pcs[t].at.Tally2? then 0 else 1, 1)
  {
    assert LookAtSlots(0);
  }

  /** mem_size, then nentries, then ninserts. */
  lemma TallyKeeps(s: State, t: nat, choice: Ptr)
    requires Inv(s) && t < |s.pcs| && Tallying(s.pcs[t]) && Ready(s.sh, s.pcs[t])
    ensures Inv(After(s, t, choice))
  {
    var s' := After(s, t, choice);
    var pc', sh' := s'.pcs[t], s'.sh;
    LagNow(s, t);
    TallyMoves(s, t, pc', sh');
    CounterKeeps(s, t, pc', sh');
    assert s' == Moved(s, t, pc', sh');
  }

  /** Only the holder of the global lock updates counters. */
  lemma OneTallies(s: State, t: nat)
    requires Pairwise(s.pcs) && t < |s.pcs| && GlobalWrite(s.pcs[t])
    ensures forall u {:trigger s.pcs[u]} ::
      0 <= u < |s.pcs| && u != t ==> !GlobalWrite(s.pcs[u]) && !GlobalRead(s.pcs[u])
    ensures forall u {:trigger s.pcs[u]} :: 0 <= u < |s.pcs| && u != t ==> !Tallying(s.pcs[u])
  {
    forall u | 0 <= u < |s.pcs| && u != t ensures !GlobalWrite(s.pcs[u]) && !GlobalRead(s.pcs[u]) {
      Others(s, t, u);
    }
  }
}
