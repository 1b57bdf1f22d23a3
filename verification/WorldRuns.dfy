/** Theorems about every run of the protocol and its memory together. */
module WorldRuns {
  import opened Focus
  import opened Layout
  import opened Tiles
  import opened Segment
  import opened Pool
  import opened Values
  import opened Traversal
  import opened Copies
  import opened Outcomes
  import opened Leads
  import opened Housing
  import opened Store
  import opened Chains
  import opened Ownership
  import opened Protocol
  import opened Invariants
  import opened Safety
  import opened Progress
  import opened Publishing
  import opened Runs
  import opened Refinement
  import opened Worlds
  import opened WorldSafety
  import opened WorldSteps
  import opened WorldEffects
  import opened WorldFrees

  // ---- the invariant holds throughout ----

  lemma WorldStarts(a: Arena, w: World)
    requires WorldInit(a, w)
    ensures WorldInv(a, w)
  {
    InitKeeps(w.s);
  }

  lemma MoveKeeps(a: Arena, w: World, w': World, t: nat, choice: Ptr, call: Call)
    requires WorldInv(a, w) && Moves(a, w, w', t, choice, call)
    ensures WorldInv(a, w')
  {
    assert Step(w.s, w'.s);
    StepKeeps(w.s, w'.s);
    var pc := w.s.pcs[t];
    if pc.Storing? && pc.at.Allocating? && choice != 0 {
      TakeWorld(a, w, w', t, choice, call);
    } else if pc.Storing? && pc.at.Copying? {
      CopyWorld(a, w, w', t, choice, call);
    } else if pc.Storing? && pc.at.Freeing? {
      FreeWorld(a, w, w', t, choice, call);
    } else {
      QuietWorld(a, w, w', t, choice, call);
    }
  }

  lemma WorldStepKeeps(a: Arena, w: World, w': World)
    requires WorldInv(a, w) && WorldStep(a, w, w')
    ensures WorldInv(a, w')
  {
    if Elsewhere(a, w, w') {
      ElsewhereWorld(a, w, w');
    } else {
      var t: nat, choice: Ptr, call: Call :| Moves(a, w, w', t, choice, call);
      MoveKeeps(a, w, w', t, choice, call);
    }
  }

  ghost predicate WorldGoes(a: Arena, trace: seq<World>, i: nat) {
    i + 1 < |trace| && WorldStep(a, trace[i], trace[i + 1])
  }

  ghost predicate WorldRun(a: Arena, trace: seq<World>) {
    && |trace| > 0 && WorldInit(a, trace[0])
    && forall i {:trigger WorldGoes(a, trace, i)} :: 0 <= i < |trace| - 1 ==> WorldGoes(a, trace, i)
  }

  lemma {:induction false} WorldKeeps(a: Arena, trace: seq<World>, i: nat)
    requires WorldRun(a, trace) && i < |trace|
    ensures WorldInv(a, trace[i])
    decreases i
  {
    if i == 0 {
      WorldStarts(a, trace[0]);
    } else {
      WorldKeeps(a, trace, i - 1);
      assert WorldGoes(a, trace, i - 1);
      WorldStepKeeps(a, trace[i - 1], trace[i]);
    }
  }

  // ---- nodes of an entry and of bound entries ----

  ghost predicate BoundOwner(w: World, p: Ptr) {
    exists e {:trigger Within(w, e, p)} :: Linked(w.s.sh, e) && Within(w, e, p)
  }

  /** The nodes in the block of `e` and in those of bound entries. */
  ghost function NodesFor(a: Arena, w: World, e: Ptr): Heap {
    map p | p in w.heap && a.Shm().Contains(p) && (Within(w, e, p) || BoundOwner(w, p)) :: w.heap[p]
  }

  /** Whatever lies around an entry is in its block or in that of a bound entry. */
  lemma AroundBound(a: Arena, w: World, e: Ptr, p: Ptr)
    requires WorldInv(a, w) && e in w.stored && InBlocks(w, Around(w, e), p)
    ensures Within(w, e, p) || BoundOwner(w, p)
  {
    TiedAt(a, w, e);
    var o :| o in Around(w, e) && Within(w, o, p);
    if o != e {
      assert Linked(w.s.sh, o);
    }
  }

  /** These nodes point at each other only: they are well formed on their own. */
  lemma NodesClosed(a: Arena, w: World, e: Ptr)
    requires WorldInv(a, w) && e in w.stored
    ensures WellFormed(NodesFor(a, w, e)) && ShmClosed(NodesFor(a, w, e), a.Shm())
    ensures SharedKept(NodesFor(a, w, e), w.heap, a.Shm())
  {
    var h := NodesFor(a, w, e);
    forall p | p in h ensures 0 < p < SIZE_LIMIT && NodeTyped(h, h[p]) && ShmNode(a.Shm(), p, h[p]) {
      NodeClosed(a, w, e, p);
    }
  }

  lemma NodeClosed(a: Arena, w: World, e: Ptr, p: Ptr)
    requires WorldInv(a, w) && e in w.stored && p in NodesFor(a, w, e)
    ensures 0 < p < SIZE_LIMIT && NodeTyped(NodesFor(a, w, e), w.heap[p]) && ShmNode(a.Shm(), p, w.heap[p])
  {
    var o := if Within(w, e, p) then e else OwnerBound(w, p);
    if o != e {
      LinkedStored(a, w, o);
    }
    TiedAt(a, w, o);
    SharedNode(w.heap, a.Shm(), p);
    assert NodeTyped(w.heap, w.heap[p]);
    forall v | v in Items(w.heap[p]) ensures Typed(NodesFor(a, w, e), v) {
      ItemsTyped(w.heap, p, v);
      if Follows(v) {
        AroundBound(a, w, o, v.p);
        if o != e && Within(w, o, v.p) {
          assert BoundOwner(w, v.p);
        }
      }
    }
  }

  ghost function OwnerBound(w: World, p: Ptr): (e: Ptr)
    requires BoundOwner(w, p)
    ensures Linked(w.s.sh, e) && Within(w, e, p)
  {
    var e :| Linked(w.s.sh, e) && Within(w, e, p);
    e
  }

  /** Key and value of the entry lead to such nodes. */
  lemma RootsClosed(a: Arena, w: World, e: Ptr)
    requires WorldInv(a, w) && e in w.stored
    ensures AllInside(NodesFor(a, w, e), a.Shm(), Roots(w.stored[e].key, w.stored[e].val))
  {
    TiedAt(a, w, e);
    var vs := Roots(w.stored[e].key, w.stored[e].val);
    forall v | v in vs ensures Inside(NodesFor(a, w, e), a.Shm(), v) {
      if Follows(v) {
        AroundBound(a, w, e, v.p);
      }
    }
  }

  /** Whatever a bound entry leads to lies in the block of a bound entry, at every moment of a run. */
  lemma NothingDangles(a: Arena, trace: seq<World>, i: nat, e: Ptr, p: Ptr)
    requires WorldRun(a, trace) && i < |trace| && Linked(trace[i].s.sh, e)
    requires e in trace[i].stored
    requires Reaches(trace[i].heap, ANYWHERE, Roots(trace[i].stored[e].key, trace[i].stored[e].val), p)
    ensures p in trace[i].heap && BoundOwner(trace[i], p)
  {
    var w := trace[i];
    WorldKeeps(a, trace, i);
    NodesClosed(a, w, e);
    RootsClosed(a, w, e);
    ReachesShared(NodesFor(a, w, e), w.heap, a.Shm(), Roots(w.stored[e].key, w.stored[e].val), p);
  }

  // ---- they never change ----

  /** The entry holds what it held, in the same block. */
  predicate SameStored(w: World, w': World, e: Ptr) {
    && e in w.stored && e in w'.stored && w'.stored[e] == w.stored[e]
    && e in w.sizes && e in w'.sizes && w'.sizes[e] == w.sizes[e]
  }

  lemma MoveStored(a: Arena, w: World, w': World, t: nat, choice: Ptr, call: Call, e: Ptr)
    requires Stepped(a, w, w', t, choice, call) && Effect(a, w, w', w.s.pcs[t], choice)
    requires e in w.stored && (e in w'.stored || Linked(w.s.sh, e))
    ensures SameStored(w, w', e)
  {
    var pc := w.s.pcs[t];
    assert e in w.sizes by {
      TiedAt(a, w, e);
    }
    if pc.Storing? && pc.at.Allocating? && choice != 0 {
      ServedFresh(a, w, w', pc.n, choice);
      HomeAt(a, w, e);
    } else if pc.Storing? && pc.at.Copying? {
      CopyStored(a, w, w', t, choice, call, e);
    } else if pc.Storing? && pc.at.Freeing? {
      FreeStarts(a, w, w', t, choice, call);
    }
  }

  lemma CopyStored(a: Arena, w: World, w': World, t: nat, choice: Ptr, call: Call, e: Ptr)
    requires Stepped(a, w, w', t, choice, call) && w.s.pcs[t].Storing? && w.s.pcs[t].at.Copying?
    requires Copied(a, w, w', w.s.pcs[t]) && e in w.stored && e in w.sizes
    ensures SameStored(w, w', e)
  {
    var key, plan :| CopyOf(a, w, w', w.s.pcs[t], key, plan);
    CopyStarts(a, w, w', t, choice, call, key, plan);
  }

  /** As long as an entry is there, it holds the same; and a bound entry stays. */
  lemma StepStored(a: Arena, w: World, w': World, e: Ptr)
    requires WorldInv(a, w) && WorldStep(a, w, w') && e in w.stored && (e in w'.stored || Linked(w.s.sh, e))
    ensures SameStored(w, w', e) && (Linked(w.s.sh, e) ==> Linked(w'.s.sh, e))
  {
    if Elsewhere(a, w, w') {
      TiedAt(a, w, e);
    } else {
      var t: nat, choice: Ptr, call: Call :| Moves(a, w, w', t, choice, call);
      assert Step(w.s, w'.s);
      StepKeeps(w.s, w'.s);
      if Linked(w.s.sh, e) {
        LinkedStays(w.s, w'.s, e);
      }
      MoveStored(a, w, w', t, choice, call, e);
    }
  }

  lemma MoveNodes(a: Arena, w: World, w': World, t: nat, choice: Ptr, call: Call, e: Ptr, p: Ptr)
    requires Stepped(a, w, w', t, choice, call) && Effect(a, w, w', w.s.pcs[t], choice)
    requires Within(w, e, p) && p in w.heap && SameStored(w, w', e)
    ensures p in w'.heap && w'.heap[p] == w.heap[p]
  {
    var pc := w.s.pcs[t];
    if pc.Storing? && pc.at.Copying? {
      var key, plan :| CopyOf(a, w, w', pc, key, plan);
    } else if pc.Storing? && pc.at.Freeing? {
      FreeStarts(a, w, w', t, choice, call);
      assert InBlocks(w, {e}, p);
      OwnedRemains(a, w, w', t, choice, call, {e}, p);
    }
  }

  /** No step changes or drops a node in the block of an entry that is still there. */
  lemma StepNode(a: Arena, w: World, w': World, e: Ptr, p: Ptr)
    requires WorldInv(a, w) && WorldStep(a, w, w') && p in w.heap && a.Shm().Contains(p) && Within(w, e, p)
    requires SameStored(w, w', e)
    ensures Within(w', e, p) && p in w'.heap && w'.heap[p] == w.heap[p]
  {
    if !Elsewhere(a, w, w') {
      var t: nat, choice: Ptr, call: Call :| Moves(a, w, w', t, choice, call);
      assert Step(w.s, w'.s);
      StepKeeps(w.s, w'.s);
      MoveNodes(a, w, w', t, choice, call, e, p);
    }
  }

  lemma StepNodes(a: Arena, w: World, w': World, e: Ptr, p: Ptr)
    requires WorldInv(a, w) && WorldStep(a, w, w') && e in w.stored && e in w'.stored && p in NodesFor(a, w, e)
    ensures p in NodesFor(a, w', e) && w'.heap[p] == w.heap[p]
    ensures BoundOwner(w, p) ==> BoundOwner(w', p)
  {
    if BoundOwner(w, p) {
      var o := OwnerBound(w, p);
      LinkedStored(a, w, o);
      StepStored(a, w, w', o);
      StepNode(a, w, w', o, p);
    } else {
      StepStored(a, w, w', e);
      StepNode(a, w, w', e, p);
    }
  }

  /** From moment `i` to moment `j` the entry at `e` has been filled in and not given back. */
  ghost predicate Lasts(trace: seq<World>, i: nat, j: nat, e: Ptr) {
    i <= j < |trace| && forall z {:trigger LookInside(z)} :: LookInside(z) ==>
      forall m {:trigger trace[m]} :: i <= m <= j ==> e in trace[m].stored
  }

  lemma LastsAt(trace: seq<World>, i: nat, j: nat, e: Ptr)
    requires Lasts(trace, i, j, e)
    ensures e in trace[i].stored && e in trace[j].stored
    ensures i < j ==> Lasts(trace, i, j - 1, e) && e in trace[j - 1].stored
  {
    assert LookInside(0);
  }

  lemma {:induction false} RunStored(a: Arena, trace: seq<World>, i: nat, j: nat, e: Ptr)
    requires WorldRun(a, trace) && Lasts(trace, i, j, e)
    ensures SameStored(trace[i], trace[j], e)
    decreases j
  {
    LastsAt(trace, i, j, e);
    if i == j {
      WorldKeeps(a, trace, i);
      TiedAt(a, trace[i], e);
    } else {
      RunStored(a, trace, i, j - 1, e);
      WorldKeeps(a, trace, j - 1);
      assert WorldGoes(a, trace, j - 1);
      StepStored(a, trace[j - 1], trace[j], e);
    }
  }

  /** A bound entry is never given back. */
  lemma {:induction false} BoundLasts(a: Arena, trace: seq<World>, i: nat, j: nat, e: Ptr)
    requires WorldRun(a, trace) && i <= j < |trace| && Linked(trace[i].s.sh, e)
    ensures Lasts(trace, i, j, e) && Linked(trace[j].s.sh, e)
    decreases j
  {
    if i == j {
      WorldKeeps(a, trace, i);
      LinkedStored(a, trace[i], e);
    } else {
      BoundLasts(a, trace, i, j - 1, e);
      LastsAt(trace, i, j - 1, e);
      WorldKeeps(a, trace, j - 1);
      assert WorldGoes(a, trace, j - 1);
      StepStored(a, trace[j - 1], trace[j], e);
    }
  }

  lemma StepOfRun(a: Arena, trace: seq<World>, m: nat, e: Ptr, p: Ptr)
    requires WorldRun(a, trace) && m + 1 < |trace| && e in trace[m].stored && e in trace[m + 1].stored
    requires p in NodesFor(a, trace[m], e)
    ensures p in NodesFor(a, trace[m + 1], e) && trace[m + 1].heap[p] == trace[m].heap[p]
    ensures BoundOwner(trace[m], p) ==> BoundOwner(trace[m + 1], p)
  {
    WorldKeeps(a, trace, m);
    assert WorldGoes(a, trace, m);
    StepNodes(a, trace[m], trace[m + 1], e, p);
  }

  lemma {:induction false} RunNodes(a: Arena, trace: seq<World>, i: nat, j: nat, e: Ptr, p: Ptr)
    requires WorldRun(a, trace) && Lasts(trace, i, j, e) && p in NodesFor(a, trace[i], e)
    ensures p in NodesFor(a, trace[j], e) && trace[j].heap[p] == trace[i].heap[p]
    ensures BoundOwner(trace[i], p) ==> BoundOwner(trace[j], p)
    decreases j
  {
    LastsAt(trace, i, j, e);
    if i < j {
      RunNodes(a, trace, i, j - 1, e, p);
      StepOfRun(a, trace, j - 1, e, p);
    }
  }

  /** The entry's key and value mean the same in both memories, and lead to the same nodes, none of which differs. */
  ghost predicate MeansSame(h: Heap, h': Heap, st: Stored) {
    && BytesAt(h', st.key) == BytesAt(h, st.key)
    && (st.val.Serialized? ==> BytesAt(h', st.val.p) == BytesAt(h, st.val.p))
    && (forall n :: Unfold(h', st.val, n) == Unfold(h, st.val, n))
    && forall p: nat {:trigger Reaches(h', ANYWHERE, Roots(st.key, st.val), p)} ::
      && (Reaches(h', ANYWHERE, Roots(st.key, st.val), p) <==> Reaches(h, ANYWHERE, Roots(st.key, st.val), p))
      && (Reaches(h', ANYWHERE, Roots(st.key, st.val), p) ==> p in h && p in h' && h'[p] == h[p])
  }

  /** Two memories with the same nodes for an entry. */
  lemma SameNodesMeanSame(b: Heap, h: Heap, h': Heap, r: Region, st: Stored)
    requires WellFormed(b) && ShmClosed(b, r) && SharedKept(b, h, r) && SharedKept(b, h', r)
    requires AllInside(b, r, Roots(st.key, st.val))
    ensures MeansSame(h, h', st)
  {
    var roots := Roots(st.key, st.val);
    assert roots[0] in roots && roots[1] in roots;
    forall n ensures Unfold(h', st.val, n) == Unfold(h, st.val, n) {
      if !st.val.Serialized? {
        UnfoldShared(b, h, r, st.val, n);
        UnfoldShared(b, h', r, st.val, n);
      }
    }
    forall p: nat
      ensures Reaches(h', ANYWHERE, roots, p) <==> Reaches(h, ANYWHERE, roots, p)
      ensures Reaches(h', ANYWHERE, roots, p) ==> p in h && p in h' && h'[p] == h[p]
    {
      ReachesShared(b, h, r, roots, p);
      ReachesShared(b, h', r, roots, p);
    }
  }

  /**
   * As long as an entry has not been given back, and a bound entry never is, its key and value mean the same and
   * lead to the same unchanged nodes: while any number of threads store, look up and give back rejected entries,
   * and processes change and free values of their own.
   */
  lemma Immutable(a: Arena, trace: seq<World>, i: nat, j: nat, e: Ptr)
    requires WorldRun(a, trace) && Lasts(trace, i, j, e)
    ensures e in trace[i].stored && e in trace[j].stored
    ensures trace[j].stored[e] == trace[i].stored[e] && MeansSame(trace[i].heap, trace[j].heap, trace[i].stored[e])
  {
    var b := NodesFor(a, trace[i], e);
    LastsAt(trace, i, j, e);
    WorldKeeps(a, trace, i);
    RunStored(a, trace, i, j, e);
    NodesClosed(a, trace[i], e);
    RootsClosed(a, trace[i], e);
    forall p | p in b ensures p in trace[j].heap && trace[j].heap[p] == b[p] {
      RunNodes(a, trace, i, j, e, p);
    }
    SameNodesMeanSame(b, trace[i].heap, trace[j].heap, a.Shm(), trace[i].stored[e]);
  }

  /** What is bound at one moment is bound, and means the same, at every later one. */
  lemma ImmutableForever(a: Arena, trace: seq<World>, i: nat, j: nat, e: Ptr)
    requires WorldRun(a, trace) && i <= j < |trace| && Linked(trace[i].s.sh, e)
    ensures e in trace[i].stored && e in trace[j].stored && Linked(trace[j].s.sh, e)
    ensures trace[j].stored[e] == trace[i].stored[e] && MeansSame(trace[i].heap, trace[j].heap, trace[i].stored[e])
  {
    BoundLasts(a, trace, i, j, e);
    LastsAt(trace, i, j, e);
    Immutable(a, trace, i, j, e);
  }

  // ---- what is stored is what was given ----

  /** Thread `t` makes its copy between moments `i` and `i + 1`. */
  ghost predicate CopiesAt(a: Arena, trace: seq<World>, i: nat, t: nat) {
    && i + 1 < |trace| && t < |trace[i].s.pcs| && trace[i].s.pcs[t].Storing? && trace[i].s.pcs[t].at.Copying?
    && Copied(a, trace[i], trace[i + 1], trace[i].s.pcs[t])
  }

  /**
   * From the copy on, and whether or not it has been bound yet, an entry holds the key it was stored under, and its
   * value means what the value given to the store meant when it was copied, whatever has become of that since; a
   * serialized value is kept as the bytes made then.
   */
  lemma StoredForever(a: Arena, trace: seq<World>, i: nat, j: nat, t: nat)
    requires WorldRun(a, trace) && CopiesAt(a, trace, i, t) && Lasts(trace, i + 1, j, trace[i].s.pcs[t].e)
    ensures
      var pc := trace[i].s.pcs[t];
      pc.e in trace[j].stored && var st := trace[j].stored[pc.e];
      && BytesAt(trace[j].heap, st.key) == pc.k
      && (!st.val.Serialized? ==> forall n :: Unfold(trace[j].heap, st.val, n) == Unfold(trace[i].heap, pc.v.val, n))
      && (st.val.Serialized? ==> BytesAt(trace[j].heap, st.val.p) == BytesAt(trace[i + 1].heap, st.val.p))
  {
    var pc := trace[i].s.pcs[t];
    var key, plan :| CopyOf(a, trace[i], trace[i + 1], pc, key, plan);
    Immutable(a, trace, i + 1, j, pc.e);
  }

  // ---- the steps can be taken as the persist engine and the allocator take them ----

  /** The block into which a thread is about to copy is as the copying pass wants it: shared, and without a node. */
  lemma CopyReady(a: Arena, w: World, t: nat)
    requires WorldInv(a, w) && t < |w.s.pcs| && w.s.pcs[t].Storing? && w.s.pcs[t].at.Copying?
    ensures
      var pc := w.s.pcs[t];
      BlockIn(a.Shm(), pc.e, pc.n) && forall q :: pc.e <= q < pc.e + pc.n ==> q !in w.heap
  {
    var pc := w.s.pcs[t];
    StageAt(w, t);
    One(w.s, t);
    HomeAt(a, w, pc.e);
    HomeIn(a.base, a.size, w.rows, pc.e, pc.n);
    forall q | pc.e <= q < pc.e + pc.n ensures q !in w.heap {
      if q in w.heap {
        var o := OwnerAt(a, w, q);
        HomeAt(a, w, o);
        HomesDisjoint(a.base, a.size, w.rows, pc.e, pc.n, o, w.sizes[o]);
      }
    }
  }

  /** The block that a thread is about to give back is an allocated one of the allocator's. */
  lemma FreeReady(a: Arena, w: World, t: nat) returns (i: nat, at: nat)
    requires WorldInv(a, w) && t < |w.s.pcs| && w.s.pcs[t].Storing? && w.s.pcs[t].at.Freeing?
    ensures i < |w.rows| == |a.base| && at < |w.rows[i]| && !w.rows[i][at].free
    ensures w.s.pcs[t].e == a.base[i] + w.rows[i][at].off + BLOCK && w.s.pcs[t].e in w.sizes
  {
    StageAt(w, t);
    One(w.s, t);
    HomeAt(a, w, w.s.pcs[t].e);
    i, at := HomeTile(a.base, w.rows, w.s.pcs[t].e, w.sizes[w.s.pcs[t].e]);
  }

  // ---- the table in memory ----

  /** Entries as they stand in memory. */
  function EntriesIn(w: World): Entries {
    map e | e in w.stored && e in w.s.sh.mem ::
      Entry(w.stored[e].key, w.stored[e].val, w.s.sh.mem[e].next, w.s.sh.mem[e].hits, 0, 0, w.s.sh.mem[e].memSize)
  }

  lemma EntriesMirrored(a: Arena, w: World)
    requires WorldInv(a, w)
    ensures Mirrors(w.s.sh, w.heap, EntriesIn(w))
  {
    forall p | Linked(w.s.sh, p)
      ensures p in EntriesIn(w) && KeyReady(w.heap, EntriesIn(w)[p])
      ensures NameOf(w.heap, EntriesIn(w), p) == w.s.sh.mem[p].key
    {
      LinkedStored(a, w, p);
      SharedNode(w.heap, a.Shm(), w.stored[p].key);
    }
  }

  /** With the keys and values there are in memory, shared memory is a table in order at every such moment. */
  lemma MemoryIsTable(a: Arena, trace: seq<World>, i: nat)
    requires WorldRun(a, trace) && i < |trace|
    requires forall t {:trigger trace[i].s.pcs[t]} :: 0 <= t < |trace[i].s.pcs| ==> !Tallying(trace[i].s.pcs[t])
    ensures
      var sh := trace[i].s.sh;
      InOrder(trace[i].heap, EntriesIn(trace[i]), sh.slots, sh.chains, sh.table, sh.order, CountersOf(sh))
  {
    WorldKeeps(a, trace, i);
    EntriesMirrored(a, trace[i]);
    InvTable(trace[i].s, trace[i].heap, EntriesIn(trace[i]));
  }
}
