/** The steps that write and drop nodes: the copy into a private block, the release of a rejected one, private work. */
module WorldEffects {
  import opened Focus
  import opened Layout
  import opened Tiles
  import opened FreeList
  import opened Segment
  import opened Pool
  import opened Values
  import opened Traversal
  import opened Copies
  import opened Outcomes
  import opened Leads
  import opened Housing
  import opened Store
  import opened Chains
  import opened Ownership
  import opened Protocol
  import opened Invariants
  import opened Safety
  import opened Progress
  import opened Publishing
  import opened Runs
  import opened Worlds
  import opened WorldSafety
  import opened WorldSteps

  // ---- the copy ----

  /** Thread `t` copies the string at `key` and its value. */
  ghost predicate MakesCopy(a: Arena, w: World, w': World, t: nat, choice: Ptr, call: Call, key: Ptr, plan: Plan) {
    && Stepped(a, w, w', t, choice, call) && w.s.pcs[t].Storing? && w.s.pcs[t].at.Copying?
    && CopyOf(a, w, w', w.s.pcs[t], key, plan)
  }

  /** Before the copy the block is the thread's own, and nothing is in it. */
  lemma CopyStarts(a: Arena, w: World, w': World, t: nat, choice: Ptr, call: Call, key: Ptr, plan: Plan)
    requires MakesCopy(a, w, w', t, choice, call, key, plan)
    ensures
      var pc := w.s.pcs[t];
      && pc.e in w.sizes && w.sizes[pc.e] == pc.n && pc.e !in w.stored && !Linked(w.s.sh, pc.e)
      && AllLinked(w'.s.sh, pc.v.uses) && BlockIn(a.Shm(), pc.e, pc.n)
      && pc.e in w'.s.sh.mem && w'.s.sh.mem[pc.e] == Cell(pc.k, pc.v, 0, 0, pc.n)
  {
    StageAt(w, t);
    One(w.s, t);
    assert Step(w.s, w'.s);
    AllStay(w.s, w'.s, w.s.pcs[t].v.uses);
    HomeAt(a, w, w.s.pcs[t].e);
    HomeIn(a.base, a.size, w.rows, w.s.pcs[t].e, w.s.pcs[t].n);
  }

  lemma CopyPlaced(a: Arena, w: World, w': World, t: nat, choice: Ptr, call: Call, key: Ptr, plan: Plan)
    requires MakesCopy(a, w, w', t, choice, call, key, plan)
    ensures Placed(a, w')
  {
    CopyStarts(a, w, w', t, choice, call, key, plan);
    var e := w.s.pcs[t].e;
    forall p | p in w'.heap && a.Shm().Contains(p) ensures HasOwner(w', p) {
      if p in w.heap {
        var o := OwnerAt(a, w, p);
        assert Within(w', o, p);
      } else {
        assert Within(w', e, p);
      }
    }
  }

  /** Entries filled in earlier are as they were. */
  lemma CopyOthers(a: Arena, w: World, w': World, t: nat, choice: Ptr, call: Call, key: Ptr, plan: Plan, o: Ptr)
    requires MakesCopy(a, w, w', t, choice, call, key, plan) && o in w.stored
    ensures Tied(a, w', o)
  {
    CopyStarts(a, w, w', t, choice, call, key, plan);
    TiedAt(a, w, o);
    CellStays(w.s, w'.s, t, choice, call, o);
    assert Step(w.s, w'.s);
    AllStay(w.s, w'.s, w.s.sh.mem[o].val.uses);
    SameWithin(w, w', a.Shm(), Around(w, o), Roots(w.stored[o].key, w.stored[o].val));
    forall p | p in w'.heap && a.Shm().Contains(p) && Within(w', o, p)
      ensures LeadTo(w', a.Shm(), Around(w', o), Items(w'.heap[p]))
    {
      if p !in w.heap {
        assert Within(w, w.s.pcs[t].e, p) && Within(w, o, p);
        OneOwner(a, w, w.s.pcs[t].e, o, p);
      } else {
        assert Within(w, o, p);
        SameWithin(w, w', a.Shm(), Around(w, o), Items(w.heap[p]));
      }
    }
  }

  /** Pointers of the new entry and its nodes lead into its block, or to blocks that its key and value led into. */
  lemma NewTarget(a: Arena, w: World, w': World, t: nat, choice: Ptr, call: Call, key: Ptr, plan: Plan, q: Ptr)
    requires MakesCopy(a, w, w', t, choice, call, key, plan) && q in w'.heap && a.Shm().Contains(q)
    requires q in w.heap ==> Reaches(w.heap, ANYWHERE, [Str(key), w.s.pcs[t].v.val], q)
    ensures InBlocks(w', Around(w', w.s.pcs[t].e), q)
  {
    CopyStarts(a, w, w', t, choice, call, key, plan);
    var e, uses := w.s.pcs[t].e, w.s.pcs[t].v.uses;
    if q in w.heap {
      assert InBlocks(w, uses, q);
      var o :| o in uses && Within(w, o, q);
      assert o in Around(w', e) && Within(w', o, q);
    } else {
      assert e in Around(w', e) && Within(w', e, q);
    }
  }

  lemma CopyRoots(a: Arena, w: World, w': World, t: nat, choice: Ptr, call: Call, key: Ptr, plan: Plan)
    requires MakesCopy(a, w, w', t, choice, call, key, plan)
    ensures
      var e := w.s.pcs[t].e;
      LeadTo(w', a.Shm(), Around(w', e), Roots(w'.stored[e].key, w'.stored[e].val))
  {
    var e := w.s.pcs[t].e;
    var from, to := [Str(key), w.s.pcs[t].v.val], Roots(w'.stored[e].key, w'.stored[e].val);
    forall v | v in to && Follows(v) && a.Shm().Contains(v.p) ensures InBlocks(w', Around(w', e), v.p) {
      assert v.p in w'.heap;
      StepReaches(w'.heap, ANYWHERE, to, v);
      assert v.p in w.heap ==> Reaches(w.heap, ANYWHERE, from, v.p);
      NewTarget(a, w, w', t, choice, call, key, plan, v.p);
    }
  }

  lemma CopyNodes(a: Arena, w: World, w': World, t: nat, choice: Ptr, call: Call, key: Ptr, plan: Plan, p: Ptr)
    requires MakesCopy(a, w, w', t, choice, call, key, plan)
    requires p in w'.heap && a.Shm().Contains(p) && Within(w', w.s.pcs[t].e, p)
    ensures LeadTo(w', a.Shm(), Around(w', w.s.pcs[t].e), Items(w'.heap[p]))
  {
    CopyStarts(a, w, w', t, choice, call, key, plan);
    assert p !in w.heap by {
      if p in w.heap {
        var o := OwnerAt(a, w, p);
        OneOwner(a, w, o, w.s.pcs[t].e, p);
      }
    }
    forall v | v in Items(w'.heap[p]) && Follows(v) && a.Shm().Contains(v.p)
      ensures InBlocks(w', Around(w', w.s.pcs[t].e), v.p)
    {
      assert NodeTyped(w'.heap, w'.heap[p]);
      assert Typed(w'.heap, v) by {
        ItemsTyped(w'.heap, p, v);
      }
      NewTarget(a, w, w', t, choice, call, key, plan, v.p);
    }
  }

  lemma ItemsTyped(h: Heap, p: Ptr, v: Zval)
    requires WellFormed(h) && p in h && v in Items(h[p])
    ensures Typed(h, v)
  {
    assert NodeTyped(h, h[p]);
  }

  lemma CopyTied(a: Arena, w: World, w': World, t: nat, choice: Ptr, call: Call, key: Ptr, plan: Plan)
    requires MakesCopy(a, w, w', t, choice, call, key, plan)
    ensures Tied(a, w', w.s.pcs[t].e)
  {
    CopyStarts(a, w, w', t, choice, call, key, plan);
    CopyRoots(a, w, w', t, choice, call, key, plan);
    forall p | p in w'.heap && a.Shm().Contains(p) && Within(w', w.s.pcs[t].e, p)
      ensures LeadTo(w', a.Shm(), Around(w', w.s.pcs[t].e), Items(w'.heap[p]))
    {
      CopyNodes(a, w, w', t, choice, call, key, plan, p);
    }
  }

  lemma CopyHeld(a: Arena, w: World, w': World, t: nat, choice: Ptr, call: Call, key: Ptr, plan: Plan)
    requires MakesCopy(a, w, w', t, choice, call, key, plan)
    ensures PrivateHeld(a, w')
  {
    CopyStarts(a, w, w', t, choice, call, key, plan);
    HeldGrows(w.s, w'.s, t, choice, call);
    forall p | p in w'.heap && !a.Shm().Contains(p) ensures LeadTo(w', a.Shm(), w'.s.sh.held, Parts(w'.heap[p])) {
      assert p in w.heap;
      assert LookAtUses(0);
      SameWithin(w, w', a.Shm(), w.s.sh.held, Parts(w.heap[p]));
      LeadToMore(w', a.Shm(), w.s.sh.held, w'.s.sh.held, Parts(w.heap[p]));
    }
  }

  lemma CopyStages(a: Arena, w: World, w': World, t: nat, choice: Ptr, call: Call, key: Ptr, plan: Plan)
    requires MakesCopy(a, w, w', t, choice, call, key, plan)
    ensures Stages(w')
  {
    StageAt(w, t);
    forall u | 0 <= u < |w'.s.pcs| ensures StageNodes(w', w'.s.pcs[u]) {
      if u != t {
        StageAt(w, u);
        Others(w.s, t, u);
      }
    }
  }

  lemma CopyWorld(a: Arena, w: World, w': World, t: nat, choice: Ptr, call: Call)
    requires Stepped(a, w, w', t, choice, call)
    requires w.s.pcs[t].Storing? && w.s.pcs[t].at.Copying? && Copied(a, w, w', w.s.pcs[t])
    ensures WorldInv(a, w')
  {
    var key, plan :| CopyOf(a, w, w', w.s.pcs[t], key, plan);
    CopyStarts(a, w, w', t, choice, call, key, plan);
    CopyPlaced(a, w, w', t, choice, call, key, plan);
    CopyTied(a, w, w', t, choice, call, key, plan);
    CopyHeld(a, w, w', t, choice, call, key, plan);
    CopyStages(a, w, w', t, choice, call, key, plan);
    assert AllTied(a, w') by {
      forall o | o in w'.stored ensures Tied(a, w', o) {
        if o != w.s.pcs[t].e {
          CopyOthers(a, w, w', t, choice, call, key, plan, o);
        }
      }
      forall o | Linked(w'.s.sh, o) ensures o in w'.stored {
        LinkingStored(a, w, w', t, choice, call, o);
      }
    }
    assert Homes(a, w') by {
      CopyKeys(w.s.sh, w.s.pcs[t], choice);
      assert LookAtSlots(0);
    }
  }

  lemma CopyKeys(sh: Shared, pc: PC, choice: Ptr)
    requires pc.Storing? && pc.at.Copying? && Ready(sh, pc)
    ensures StoreStep(sh, pc, choice).1.mem.Keys == sh.mem.Keys
  {
  }

  // ---- what processes do with memory of their own ----

  lemma ElsewhereWorld(a: Arena, w: World, w': World)
    requires WorldInv(a, w) && Elsewhere(a, w, w')
    ensures WorldInv(a, w')
  {
    var r := a.Shm();
    assert ShmClosed(w'.heap, r) by {
      forall p | p in w'.heap && r.Contains(p) ensures ShmNode(r, p, w'.heap[p]) {
        assert ShmNode(r, p, w.heap[p]);
      }
    }
    forall p | p in w'.heap && r.Contains(p) ensures HasOwner(w', p) {
      var e := OwnerAt(a, w, p);
      assert Within(w', e, p);
    }
    forall e | e in w'.stored ensures Tied(a, w', e) {
      ElsewhereTied(a, w, w', e);
    }
    assert AllTied(a, w') by {
      assert LookAtWalk(0);
    }
    assert Homes(a, w') by {
      assert LookAtSlots(0);
    }
    assert Stages(w') by {
      forall u | 0 <= u < |w'.s.pcs| ensures StageNodes(w', w'.s.pcs[u]) {
        StageAt(w, u);
      }
    }
  }

  lemma ElsewhereTied(a: Arena, w: World, w': World, e: Ptr)
    requires WorldInv(a, w) && Elsewhere(a, w, w') && e in w.stored
    ensures Tied(a, w', e)
  {
    TiedAt(a, w, e);
    SameWithin(w, w', a.Shm(), Around(w, e), Roots(w.stored[e].key, w.stored[e].val));
    forall p | p in w'.heap && a.Shm().Contains(p) && Within(w', e, p)
      ensures LeadTo(w', a.Shm(), Around(w', e), Items(w'.heap[p]))
    {
      assert Within(w, e, p);
      SameWithin(w, w', a.Shm(), Around(w, e), Items(w.heap[p]));
    }
  }
}
