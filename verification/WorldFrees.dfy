/** The release of a rejected entry's block: nothing that anyone can reach goes with it. */
module WorldFrees {
  import opened Focus
  import opened Layout
  import opened Tiles
  import opened FreeList
  import opened Segment
  import opened Pool
  import opened Values
  import opened Traversal
  import opened Copies
  import opened Outcomes
  import opened Leads
  import opened Housing
  import opened Store
  import opened Chains
  import opened Ownership
  import opened Protocol
  import opened Invariants
  import opened Safety
  import opened Progress
  import opened Publishing
  import opened Runs
  import opened Worlds
  import opened WorldSafety
  import opened WorldSteps

  // ---- rows ----

  lemma FreedTiles(ts: seq<Tile>, at: nat, k: nat)
    requires at < |ts| && k < |ts| && k != at && !ts[at].free && !ts[k].free
    ensures ts[k] in FreeAt(ts, at)
  {
    assert ts[k] in (if k < at then ts[..MergeLo(ts, at)] else ts[MergeHi(ts, at)..]);
  }

  /** Other blocks stay where they are. */
  lemma HomeFreed(base: seq<nat>, rows: seq<seq<Tile>>, i: nat, at: nat, o: Ptr, m: nat)
    requires i < |rows| && i < |base| && at < |rows[i]| && !rows[i][at].free && o != base[i] + rows[i][at].off + BLOCK
    requires HomeOf(base, rows, o, m)
    ensures HomeOf(base, rows[i := FreeAt(rows[i], at)], o, m)
  {
    var j, k := HomeTile(base, rows, o, m);
    if j == i {
      FreedTiles(rows[i], at, k);
    }
    TileHome(base, rows[i := FreeAt(rows[i], at)], j, rows[j][k], o, m);
  }

  lemma TiledFreed(rows: seq<seq<Tile>>, size: nat, i: nat, at: nat)
    requires Tiled(rows, size) && i < |rows| && at < |rows[i]| && !rows[i][at].free
    ensures Tiled(rows[i := FreeAt(rows[i], at)], size)
  {
    FreeAtWellTiled(rows[i], FIRST_BLOCK, size - 2 * BLOCK, at);
  }

  /** All blocks but the one given back are where they were. */
  lemma OthersHomed(a: Arena, w: World, i: nat, at: nat, rows': seq<seq<Tile>>)
    requires Homes(a, w) && i < |w.rows| && i < |a.base| && at < |w.rows[i]| && !w.rows[i][at].free
    requires rows' == w.rows[i := FreeAt(w.rows[i], at)]
    ensures forall o :: o in w.sizes && o != a.base[i] + w.rows[i][at].off + BLOCK ==>
      HomeOf(a.base, rows', o, w.sizes[o])
  {
    forall o | o in w.sizes && o != a.base[i] + w.rows[i][at].off + BLOCK
      ensures HomeOf(a.base, rows', o, w.sizes[o])
    {
      HomeAt(a, w, o);
      HomeFreed(a.base, w.rows, i, at, o, w.sizes[o]);
    }
  }

  lemma FreedRows(a: Arena, w: World, w': World, e: Ptr)
    requires SoundWorld(a, w) && Homes(a, w) && GivesBack(a, w, w', e)
    ensures Tiled(w'.rows, a.size) && |w'.rows| == |w.rows|
    ensures forall o :: o in w'.sizes ==> HomeOf(a.base, w'.rows, o, w'.sizes[o])
  {
    var i: nat, at: nat :| i < |w.rows| && i < |a.base| && at < |w.rows[i]| && !w.rows[i][at].free &&
      e == a.base[i] + w.rows[i][at].off + BLOCK && w'.rows == w.rows[i := FreeAt(w.rows[i], at)];
    TiledFreed(w.rows, a.size, i, at);
    OthersHomed(a, w, i, at, w'.rows);
  }

  // ---- nodes ----

  /** Thread `t` gives its block back. */
  ghost predicate Frees(a: Arena, w: World, w': World, t: nat, choice: Ptr, call: Call) {
    && Stepped(a, w, w', t, choice, call) && w.s.pcs[t].Storing? && w.s.pcs[t].at.Freeing?
    && GivesBack(a, w, w', w.s.pcs[t].e)
  }

  /** The block is no bound entry's, and lies in the data segments. */
  lemma FreeStarts(a: Arena, w: World, w': World, t: nat, choice: Ptr, call: Call)
    requires Frees(a, w, w', t, choice, call)
    ensures
      var e := w.s.pcs[t].e;
      && e in w.sizes && !Linked(w.s.sh, e) && BlockIn(a.Shm(), e, w.sizes[e])
      && w'.s.sh.mem == w.s.sh.mem - {e} && w'.s.sh.held == w.s.sh.held
  {
    One(w.s, t);
    HomeAt(a, w, w.s.pcs[t].e);
    HomeIn(a.base, a.size, w.rows, w.s.pcs[t].e, w.sizes[w.s.pcs[t].e]);
  }

  /** What lies in blocks of other entries remains. */
  lemma OwnedRemains(a: Arena, w: World, w': World, t: nat, choice: Ptr, call: Call, es: set<Ptr>, p: Ptr)
    requires Frees(a, w, w', t, choice, call) && w.s.pcs[t].e !in es && InBlocks(w, es, p)
    ensures InBlocks(w', es, p) && (p in w.heap ==> p in w'.heap && w'.heap[p] == w.heap[p])
  {
    var e := w.s.pcs[t].e;
    var o :| o in es && Within(w, o, p);
    HomeAt(a, w, e);
    HomeAt(a, w, o);
    HomesDisjoint(a.base, a.size, w.rows, e, w.sizes[e], o, w.sizes[o]);
    assert Within(w', o, p);
  }

  lemma PrivateRemains(a: Arena, w: World, w': World, t: nat, choice: Ptr, call: Call, p: Ptr)
    requires Frees(a, w, w', t, choice, call) && p in w.heap && !a.Shm().Contains(p)
    ensures p in w'.heap && w'.heap[p] == w.heap[p]
  {
    FreeStarts(a, w, w', t, choice, call);
  }

  /** A pointer leads to the node it led to before, unless that was in the block. */
  lemma TargetRemains(a: Arena, w: World, w': World, t: nat, choice: Ptr, call: Call, es: set<Ptr>, v: Zval)
    requires Frees(a, w, w', t, choice, call) && w.s.pcs[t].e !in es && Typed(w.heap, v)
    requires Follows(v) && a.Shm().Contains(v.p) ==> InBlocks(w, es, v.p)
    ensures Typed(w'.heap, v)
  {
    match v
    case Str(p) =>
      if a.Shm().Contains(p) {
        OwnedRemains(a, w, w', t, choice, call, es, p);
      } else {
        PrivateRemains(a, w, w', t, choice, call, p);
      }
    case Arr(p) =>
      if a.Shm().Contains(p) {
        OwnedRemains(a, w, w', t, choice, call, es, p);
      } else {
        PrivateRemains(a, w, w', t, choice, call, p);
      }
    case Obj(p) => BoxRemains(a, w, w', t, choice, call, p);
    case Ref(p) => BoxRemains(a, w, w', t, choice, call, p);
    case Indirect(p) => BoxRemains(a, w, w', t, choice, call, p);
    case _ =>
  }

  lemma SharedNode(h: Heap, r: Region, p: Ptr)
    requires ShmClosed(h, r) && p in h && r.Contains(p)
    ensures ShmNode(r, p, h[p])
  {
  }

  lemma BoxOutside(h: Heap, r: Region, p: Ptr)
    requires ShmClosed(h, r) && p in h && h[p].BoxNode?
    ensures !r.Contains(p)
  {
    if r.Contains(p) {
      SharedNode(h, r, p);
    }
  }

  /** Objects and references are never in shared memory. */
  lemma BoxRemains(a: Arena, w: World, w': World, t: nat, choice: Ptr, call: Call, p: Ptr)
    requires Frees(a, w, w', t, choice, call) && p in w.heap && w.heap[p].BoxNode?
    ensures p in w'.heap && w'.heap[p] == w.heap[p]
  {
    BoxOutside(w.heap, a.Shm(), p);
    PrivateRemains(a, w, w', t, choice, call, p);
  }

  /** A node whose pointers lead elsewhere is as well typed as before. */
  lemma NodeRemains(a: Arena, w: World, w': World, t: nat, choice: Ptr, call: Call, es: set<Ptr>, p: Ptr)
    requires Frees(a, w, w', t, choice, call) && w.s.pcs[t].e !in es && p in w.heap
    requires LeadTo(w, a.Shm(), es, Parts(w.heap[p]))
    ensures NodeTyped(w'.heap, w.heap[p])
  {
    assert NodeTyped(w.heap, w.heap[p]);
    forall v | v in Parts(w.heap[p]) ensures Typed(w'.heap, v) {
      TargetRemains(a, w, w', t, choice, call, es, v);
    }
  }

  /** The entry whose block holds a remaining node, and the blocks it leads into. */
  lemma RemainingOwner(a: Arena, w: World, w': World, t: nat, choice: Ptr, call: Call, p: Ptr) returns (o: Ptr)
    requires Frees(a, w, w', t, choice, call) && p in w'.heap && a.Shm().Contains(p)
    ensures o in w.stored && o != w.s.pcs[t].e && Within(w, o, p) && p + NodeBytes(w.heap[p]) <= o + w.sizes[o]
    ensures Tied(a, w, o) && w.s.pcs[t].e !in Around(w, o)
  {
    FreeStarts(a, w, w', t, choice, call);
    o := OwnerAt(a, w, p);
    TiedAt(a, w, o);
  }

  lemma FreeSound(a: Arena, w: World, w': World, t: nat, choice: Ptr, call: Call)
    requires Frees(a, w, w', t, choice, call)
    ensures WellFormed(w'.heap) && ShmClosed(w'.heap, a.Shm())
  {
    forall p | p in w'.heap ensures 0 < p < SIZE_LIMIT && NodeTyped(w'.heap, w'.heap[p]) {
      assert NodeTyped(w.heap, w.heap[p]);
      NodeStays(a, w, w', t, choice, call, p);
    }
    forall p | p in w'.heap && a.Shm().Contains(p) ensures ShmNode(a.Shm(), p, w'.heap[p]) {
      assert ShmNode(a.Shm(), p, w.heap[p]);
    }
  }

  lemma NodeStays(a: Arena, w: World, w': World, t: nat, choice: Ptr, call: Call, p: Ptr)
    requires Frees(a, w, w', t, choice, call) && p in w'.heap
    ensures NodeTyped(w'.heap, w.heap[p])
  {
    if a.Shm().Contains(p) {
      var o := RemainingOwner(a, w, w', t, choice, call, p);
      assert ShmNode(a.Shm(), p, w.heap[p]);
      NodeRemains(a, w, w', t, choice, call, Around(w, o), p);
    } else {
      FreeStarts(a, w, w', t, choice, call);
      HeldBound(w, w.s.pcs[t].e);
      assert LookAtUses(0);
      NodeRemains(a, w, w', t, choice, call, w.s.sh.held, p);
    }
  }

  lemma HeldBound(w: World, e: Ptr)
    requires Inv(w.s) && !Linked(w.s.sh, e)
    ensures e !in w.s.sh.held
  {
    assert LookInside(0);
  }

  lemma LeadsRemain(a: Arena, w: World, w': World, t: nat, choice: Ptr, call: Call, es: set<Ptr>, vs: seq<Zval>)
    requires Frees(a, w, w', t, choice, call) && w.s.pcs[t].e !in es && LeadTo(w, a.Shm(), es, vs)
    ensures LeadTo(w', a.Shm(), es, vs)
  {
    forall v | v in vs && Follows(v) && a.Shm().Contains(v.p) ensures InBlocks(w', es, v.p) {
      OwnedRemains(a, w, w', t, choice, call, es, v.p);
    }
  }

  lemma FreeTied(a: Arena, w: World, w': World, t: nat, choice: Ptr, call: Call, o: Ptr)
    requires Frees(a, w, w', t, choice, call) && o in w'.stored
    ensures Tied(a, w', o)
  {
    FreeStarts(a, w, w', t, choice, call);
    TiedAt(a, w, o);
    CellStays(w.s, w'.s, t, choice, call, o);
    assert Step(w.s, w'.s);
    AllStay(w.s, w'.s, w.s.sh.mem[o].val.uses);
    assert Around(w', o) == Around(w, o) && w.s.pcs[t].e !in Around(w, o);
    LeadsRemain(a, w, w', t, choice, call, Around(w, o), Roots(w.stored[o].key, w.stored[o].val));
    FreeAnchored(a, w, w', t, choice, call, o);
    forall p | p in w'.heap && a.Shm().Contains(p) && Within(w', o, p)
      ensures LeadTo(w', a.Shm(), Around(w', o), Items(w'.heap[p]))
    {
      assert Within(w, o, p);
      LeadsRemain(a, w, w', t, choice, call, Around(w, o), Items(w.heap[p]));
    }
  }

  /** Key and value of another entry are where they were. */
  lemma FreeAnchored(a: Arena, w: World, w': World, t: nat, choice: Ptr, call: Call, o: Ptr)
    requires Frees(a, w, w', t, choice, call) && Tied(a, w, o) && w.s.pcs[t].e !in Around(w, o)
    ensures Anchored(w'.heap, a.Shm(), w.stored[o])
    ensures BytesAt(w'.heap, w.stored[o].key) == BytesAt(w.heap, w.stored[o].key)
  {
    var st := w.stored[o];
    var vs := Roots(st.key, st.val);
    assert Str(st.key) == vs[0] && vs[0] in vs && vs[1] in vs;
    OwnedRemains(a, w, w', t, choice, call, Around(w, o), st.key);
    TargetRemains(a, w, w', t, choice, call, Around(w, o), vs[1]);
  }

  lemma FreeWorld(a: Arena, w: World, w': World, t: nat, choice: Ptr, call: Call)
    requires Frees(a, w, w', t, choice, call)
    ensures WorldInv(a, w')
  {
    FreeStarts(a, w, w', t, choice, call);
    FreedRows(a, w, w', w.s.pcs[t].e);
    FreeSound(a, w, w', t, choice, call);
    FreePlaced(a, w, w', t, choice, call);
    FreeHeld(a, w, w', t, choice, call);
    FreeStages(a, w, w', t, choice, call);
    assert AllTied(a, w') by {
      forall o | o in w'.stored ensures Tied(a, w', o) {
        FreeTied(a, w, w', t, choice, call, o);
      }
      forall o | Linked(w'.s.sh, o) ensures o in w'.stored {
        LinkingStored(a, w, w', t, choice, call, o);
      }
    }
    assert Homes(a, w') by {
      assert LookAtSlots(0);
    }
  }

  lemma FreePlaced(a: Arena, w: World, w': World, t: nat, choice: Ptr, call: Call)
    requires Frees(a, w, w', t, choice, call)
    ensures Placed(a, w')
  {
    forall p | p in w'.heap && a.Shm().Contains(p) ensures HasOwner(w', p) {
      var o := RemainingOwner(a, w, w', t, choice, call, p);
      assert Within(w', o, p);
    }
  }

  lemma FreeHeld(a: Arena, w: World, w': World, t: nat, choice: Ptr, call: Call)
    requires Frees(a, w, w', t, choice, call)
    ensures PrivateHeld(a, w')
  {
    FreeStarts(a, w, w', t, choice, call);
    HeldBound(w, w.s.pcs[t].e);
    forall p | p in w'.heap && !a.Shm().Contains(p) ensures LeadTo(w', a.Shm(), w'.s.sh.held, Parts(w'.heap[p])) {
      assert LookAtUses(0);
      LeadsRemain(a, w, w', t, choice, call, w.s.sh.held, Parts(w.heap[p]));
    }
  }

  lemma FreeStages(a: Arena, w: World, w': World, t: nat, choice: Ptr, call: Call)
    requires Frees(a, w, w', t, choice, call)
    ensures Stages(w')
  {
    One(w.s, t);
    forall u | 0 <= u < |w'.s.pcs| ensures StageNodes(w', w'.s.pcs[u]) {
      if u != t {
        StageAt(w, u);
        Others(w.s, t, u);
      }
    }
  }
}
