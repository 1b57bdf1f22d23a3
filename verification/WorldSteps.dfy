/** Each kind of step, and that it keeps the nodes of shared memory in order. */
module WorldSteps {
  import opened Focus
  import opened Layout
  import opened Tiles
  import opened FreeList
  import opened Segment
  import opened Pool
  import opened Values
  import opened Traversal
  import opened Copies
  import opened Outcomes
  import opened Leads
  import opened Housing
  import opened Store
  import opened Chains
  import opened Ownership
  import opened Protocol
  import opened Invariants
  import opened Safety
  import opened Progress
  import opened Publishing
  import opened Runs
  import opened Worlds
  import opened WorldSafety

  // ---- steps that leave nodes alone ----

  /** Thread `t` has taken a step of the protocol. */
  ghost predicate Stepped(a: Arena, w: World, w': World, t: nat, choice: Ptr, call: Call) {
    WorldInv(a, w) && Steps(w.s, w'.s, t, choice, call) && Inv(w'.s)
  }

  /** Nodes and what is stored are the same; blocks may have been handed out. */
  ghost predicate NodesAlone(w: World, w': World) {
    && w'.heap == w.heap && w'.stored == w.stored
    && forall q {:trigger q in w.sizes} :: q in w.sizes ==> q in w'.sizes && w'.sizes[q] == w.sizes[q]
  }

  predicate Touches(pc: PC) {
    pc.Storing? && (pc.at.Copying? || pc.at.Freeing?)
  }

  lemma TiesStay(a: Arena, w: World, w': World, t: nat, choice: Ptr, call: Call)
    requires Stepped(a, w, w', t, choice, call) && NodesAlone(w, w') && !Touches(w.s.pcs[t])
    ensures AllTied(a, w')
  {
    assert Step(w.s, w'.s);
    forall e | e in w'.stored ensures Tied(a, w', e) {
      TiedAt(a, w, e);
      CellStays(w.s, w'.s, t, choice, call, e);
      AllStay(w.s, w'.s, w.s.sh.mem[e].val.uses);
      TieStays(a, w, w', e);
    }
    forall e | Linked(w'.s.sh, e) ensures e in w'.stored {
      LinkingStored(a, w, w', t, choice, call, e);
    }
  }

  /** An entry has been filled in before it is linked. */
  lemma LinkingStored(a: Arena, w: World, w': World, t: nat, choice: Ptr, call: Call, e: Ptr)
    requires Stepped(a, w, w', t, choice, call) && Linked(w'.s.sh, e)
    ensures e in w.stored
  {
    NewlyLinked(w.s, w'.s, t, choice, call, e);
    if Linked(w.s.sh, e) {
      LinkedStored(a, w, e);
    } else {
      StageAt(w, t);
      One(w.s, t);
    }
  }

  lemma NodesPlaced(a: Arena, w: World, w': World)
    requires Placed(a, w) && NodesAlone(w, w') && w.stored.Keys <= w.sizes.Keys
    ensures Placed(a, w')
  {
    assert LookAtProgress(0);
    forall p | p in w'.heap && a.Shm().Contains(p) ensures HasOwner(w', p) {
      var e := OwnerAt(a, w, p);
      assert Within(w', e, p);
    }
  }

  lemma StoredSized(a: Arena, w: World)
    requires AllTied(a, w)
    ensures w.stored.Keys <= w.sizes.Keys
  {
    forall e | e in w.stored ensures e in w.sizes {
      TiedAt(a, w, e);
    }
  }

  // ---- a step without effect on memory ----

  predicate Effectless(pc: PC, choice: Ptr) {
    !Touches(pc) && !(pc.Storing? && pc.at.Allocating? && choice != 0)
  }

  lemma StoreKeys(sh: Shared, pc: PC, choice: Ptr)
    requires pc.Storing? && Ready(sh, pc) && Effectless(pc, choice)
    ensures StoreStep(sh, pc, choice).1.mem.Keys == sh.mem.Keys
  {
  }

  lemma FindKeys(sh: Shared, pc: PC, protect: bool)
    requires pc.Finding? && Ready(sh, pc)
    ensures FindStep(sh, pc, protect).1.mem.Keys == sh.mem.Keys
  {
  }

  /** No block comes or goes. */
  lemma KeysStayPut(s: State, s': State, t: nat, choice: Ptr, call: Call)
    requires Steps(s, s', t, choice, call) && Effectless(s.pcs[t], choice)
    ensures s'.sh.mem.Keys == s.sh.mem.Keys
  {
    if s.pcs[t].Storing? {
      StoreKeys(s.sh, s.pcs[t], choice);
    } else if s.pcs[t].Finding? {
      FindKeys(s.sh, s.pcs[t], s.protect);
    }
  }

  /**
   * A thread that goes on with its call keeps its block; one that has none yet, or none any more, is responsible for
   * none.
   */
  lemma StageGoesOn(w: World, sh: Shared, pc: PC, choice: Ptr)
    requires pc.Storing? && Ready(sh, pc) && StoreOk(sh, pc) && Effectless(pc, choice) && StageNodes(w, pc)
    ensures StageNodes(w, StoreStep(sh, pc, choice).0)
  {
  }

  lemma OwnStageStays(a: Arena, w: World, w': World, t: nat, choice: Ptr, call: Call)
    requires Stepped(a, w, w', t, choice, call) && Effectless(w.s.pcs[t], choice)
    ensures StageNodes(w, w'.s.pcs[t])
  {
    StageAt(w, t);
    One(w.s, t);
    if w.s.pcs[t].Storing? {
      StageGoesOn(w, w.s.sh, w.s.pcs[t], choice);
    }
  }

  lemma QuietWorld(a: Arena, w: World, w': World, t: nat, choice: Ptr, call: Call)
    requires Stepped(a, w, w', t, choice, call) && Effectless(w.s.pcs[t], choice)
    requires w'.heap == w.heap && w'.rows == w.rows && w'.sizes == w.sizes && w'.stored == w.stored
    ensures WorldInv(a, w')
  {
    StoredSized(a, w);
    NodesPlaced(a, w, w');
    TiesStay(a, w, w', t, choice, call);
    HeldGrows(w.s, w'.s, t, choice, call);
    HeldStay(a, w, w');
    KeysStayPut(w.s, w'.s, t, choice, call);
    assert Homes(a, w') by {
      assert LookAtSlots(0);
    }
    OwnStageStays(a, w, w', t, choice, call);
    assert Stages(w') by {
      forall u | 0 <= u < |w'.s.pcs| ensures StageNodes(w', w'.s.pcs[u]) {
        if u != t {
          StageAt(w, u);
        }
      }
    }
  }

  // ---- a block is handed out ----

  /** The block that the allocator serves is none that is held: what the protocol asks of it is so. */
  lemma ServedFresh(a: Arena, w: World, w': World, n: nat, e: Ptr)
    requires SoundWorld(a, w) && Homes(a, w) && Takes(a, w, w', n, e)
    ensures e !in w.s.sh.mem && e != 0
  {
    var i: nat, at: nat :| Served(w.rows, w'.rows, i, n, at) && i < |a.base| &&
      e == a.base[i] + w.rows[i][at].off + BLOCK;
    if e in w.s.sh.mem {
      SizeKnown(a, w, e);
      HomeAt(a, w, e);
      var j, k := HomeTile(a.base, w.rows, e, w.sizes[e]);
      TilesDisjoint(a.base, a.size, w.rows, i, at, j, k);
    }
  }

  lemma ServedTiled(base: seq<nat>, size: nat, rows: seq<seq<Tile>>, rows': seq<seq<Tile>>, i: nat, n: nat, at: nat)
    requires Tiled(rows, size) && Served(rows, rows', i, n, at)
    ensures Tiled(rows', size) && |rows'| == |rows|
  {
    AllocAtWellTiled(rows[i], FIRST_BLOCK, size - 2 * BLOCK, at, Need(n), Splits(rows[i][at], Need(n), MIN_BLOCK));
  }

  lemma HomeServed(base: seq<nat>, rows: seq<seq<Tile>>, rows': seq<seq<Tile>>, i: nat, n: nat, at: nat, e: Ptr, m: nat)
    requires Served(rows, rows', i, n, at) && HomeOf(base, rows, e, m)
    ensures HomeOf(base, rows', e, m)
  {
    var j, k := HomeTile(base, rows, e, m);
    ServedKeeps(rows, rows', i, n, at, j, rows[j][k]);
    TileHome(base, rows', j, rows[j][k], e, m);
  }

  lemma TakenHome(base: seq<nat>, rows: seq<seq<Tile>>, rows': seq<seq<Tile>>, i: nat, n: nat, at: nat, e: Ptr)
    requires Served(rows, rows', i, n, at) && i < |base| && e == base[i] + rows[i][at].off + BLOCK
    ensures HomeOf(base, rows', e, n)
  {
    ServedAdds(rows, rows', i, n, at);
    TileHome(base, rows', i, ServedTile(rows, i, n, at), e, n);
  }

  /** Every block that was held keeps its home, and the new one has got one. */
  lemma HomesServed(a: Arena, w: World, w': World, i: nat, n: nat, at: nat, e: Ptr, q: Ptr)
    requires Homes(a, w) && Served(w.rows, w'.rows, i, n, at)
    requires i < |a.base| && e == a.base[i] + w.rows[i][at].off + BLOCK
    requires w'.sizes == w.sizes[e := n] && q in w'.sizes
    ensures HomeOf(a.base, w'.rows, q, w'.sizes[q])
  {
    if q == e {
      TakenHome(a.base, w.rows, w'.rows, i, n, at, e);
    } else {
      HomeAt(a, w, q);
      HomeServed(a.base, w.rows, w'.rows, i, n, at, q, w.sizes[q]);
    }
  }

  lemma TakenHomes(a: Arena, w: World, w': World, n: nat, e: Ptr)
    requires SoundWorld(a, w) && Homes(a, w) && Takes(a, w, w', n, e) && w'.s.sh.mem.Keys == w.s.sh.mem.Keys + {e}
    ensures SoundWorld(a, w') && Homes(a, w')
  {
    var i: nat, at: nat :| Served(w.rows, w'.rows, i, n, at) && i < |a.base| &&
      e == a.base[i] + w.rows[i][at].off + BLOCK;
    assert Tiled(w'.rows, a.size) && |w'.rows| == |w.rows| by {
      ServedTiled(a.base, a.size, w.rows, w'.rows, i, n, at);
    }
    forall q | q in w'.sizes ensures HomeOf(a.base, w'.rows, q, w'.sizes[q]) {
      HomesServed(a, w, w', i, n, at, e, q);
    }
    assert w.sizes.Keys == w.s.sh.mem.Keys by {
      assert LookAtSlots(0);
    }
  }

  lemma TakeWorld(a: Arena, w: World, w': World, t: nat, choice: Ptr, call: Call)
    requires Stepped(a, w, w', t, choice, call) && choice != 0
    requires w.s.pcs[t].Storing? && w.s.pcs[t].at.Allocating? && Takes(a, w, w', w.s.pcs[t].n, choice)
    ensures WorldInv(a, w')
  {
    ServedFresh(a, w, w', w.s.pcs[t].n, choice);
    StoredSized(a, w);
    assert choice !in w.sizes by {
      assert LookAtSlots(0);
    }
    TakenHomes(a, w, w', w.s.pcs[t].n, choice);
    NodesPlaced(a, w, w');
    TiesStay(a, w, w', t, choice, call);
    HeldGrows(w.s, w'.s, t, choice, call);
    HeldStay(a, w, w');
    assert Stages(w') by {
      forall u | 0 <= u < |w'.s.pcs| ensures StageNodes(w', w'.s.pcs[u]) {
        if u != t {
          StageAt(w, u);
        }
      }
    }
  }
}
