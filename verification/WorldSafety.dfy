/** Every step keeps the nodes of shared memory in order. */
module WorldSafety {
  import opened Focus
  import opened Layout
  import opened Tiles
  import opened FreeList
  import opened Segment
  import opened Pool
  import opened Values
  import opened Traversal
  import opened Copies
  import opened Outcomes
  import opened Leads
  import opened Housing
  import opened Store
  import opened Chains
  import opened Ownership
  import opened Protocol
  import opened Invariants
  import opened Safety
  import opened Progress
  import opened Publishing
  import opened Runs
  import opened Worlds

  // ---- blocks do not overlap ----

  lemma TilesDisjoint(base: seq<nat>, size: nat, rows: seq<seq<Tile>>, i: nat, k: nat, i': nat, k': nat)
    requires Apart(base, size) && Tiled(rows, size) && |rows| == |base|
    requires i < |rows| && k < |rows[i]| && i' < |rows| && k' < |rows[i']| && (i != i' || k != k')
    ensures
      var lo, lo' := base[i] + rows[i][k].off, base[i'] + rows[i'][k'].off;
      lo + rows[i][k].size <= lo' || lo' + rows[i'][k'].size <= lo
  {
    assert LookAtLayout(0);
    TileInside(rows[i], FIRST_BLOCK, size - 2 * BLOCK, k);
    TileInside(rows[i'], FIRST_BLOCK, size - 2 * BLOCK, k');
    if i == i' {
      assert Ordered(rows[i]);
    } else if i < i' {
      assert base[i] + size <= base[i'] || base[i'] + size <= base[i];
    } else {
      assert base[i'] + size <= base[i] || base[i] + size <= base[i'];
    }
  }

  /** The tile behind a block. */
  lemma HomeTile(base: seq<nat>, rows: seq<seq<Tile>>, e: Ptr, n: nat) returns (i: nat, k: nat)
    requires HomeOf(base, rows, e, n)
    ensures i < |rows| && i < |base| && k < |rows[i]| && !rows[i][k].free
    ensures base[i] + rows[i][k].off + BLOCK == e && n + BLOCK <= rows[i][k].size
  {
    var t: Tile;
    i, t :| Houses(base, rows, i, t, e, e) && base[i] + t.off + BLOCK == e && n + BLOCK <= t.size;
    k :| 0 <= k < |rows[i]| && rows[i][k] == t;
  }

  lemma TileHome(base: seq<nat>, rows: seq<seq<Tile>>, i: nat, t: Tile, e: Ptr, n: nat)
    requires i < |rows| && i < |base| && t in rows[i] && !t.free && base[i] + t.off + BLOCK == e && n + BLOCK <= t.size
    ensures HomeOf(base, rows, e, n)
  {
    assert Houses(base, rows, i, t, e, e);
  }

  lemma HomesDisjoint(base: seq<nat>, size: nat, rows: seq<seq<Tile>>, e: Ptr, n: nat, e': Ptr, n': nat)
    requires Apart(base, size) && Tiled(rows, size) && |rows| == |base| && e != e'
    requires HomeOf(base, rows, e, n) && HomeOf(base, rows, e', n')
    ensures e + n <= e' || e' + n' <= e
  {
    var i, k := HomeTile(base, rows, e, n);
    var i', k' := HomeTile(base, rows, e', n');
    TilesDisjoint(base, size, rows, i, k, i', k');
  }

  /** A home lies in the data segments. */
  lemma HomeIn(base: seq<nat>, size: nat, rows: seq<seq<Tile>>, e: Ptr, n: nat)
    requires Apart(base, size) && Tiled(rows, size) && |rows| == |base| && HomeOf(base, rows, e, n)
    ensures BlockIn(Region(base, size), e, n)
  {
    var i, k := HomeTile(base, rows, e, n);
    TileInside(rows[i], FIRST_BLOCK, size - 2 * BLOCK, k);
    forall q | e <= q < e + n ensures Region(base, size).Contains(q) {
      assert base[i] <= q < base[i] + size;
    }
  }

  // ---- one entry, one node ----

  lemma HomeAt(a: Arena, w: World, e: Ptr)
    requires Homes(a, w) && e in w.sizes
    ensures e in w.s.sh.mem && HomeOf(a.base, w.rows, e, w.sizes[e])
  {
    assert LookAtSlots(0);
  }

  lemma SizeKnown(a: Arena, w: World, e: Ptr)
    requires Homes(a, w) && e in w.s.sh.mem
    ensures e in w.sizes
  {
    assert LookAtSlots(0);
  }

  /** An address is within one block only. */
  lemma OneOwner(a: Arena, w: World, e: Ptr, e': Ptr, p: Ptr)
    requires SoundWorld(a, w) && Homes(a, w) && Within(w, e, p) && Within(w, e', p)
    ensures e == e'
  {
    HomeAt(a, w, e);
    HomeAt(a, w, e');
    if e != e' {
      HomesDisjoint(a.base, a.size, w.rows, e, w.sizes[e], e', w.sizes[e']);
    }
  }

  lemma TiedAt(a: Arena, w: World, e: Ptr)
    requires AllTied(a, w) && e in w.stored
    ensures Tied(a, w, e)
  {
    assert LookAtWalk(0);
  }

  lemma LinkedStored(a: Arena, w: World, e: Ptr)
    requires AllTied(a, w) && Linked(w.s.sh, e)
    ensures e in w.stored && Tied(a, w, e)
  {
    assert LookAtWalk(0);
  }

  lemma StageAt(w: World, t: nat)
    requires Stages(w) && t < |w.s.pcs|
    ensures StageNodes(w, w.s.pcs[t])
  {
    assert LookAtLayout(0);
  }

  lemma OwnerAt(a: Arena, w: World, p: Ptr) returns (e: Ptr)
    requires Placed(a, w) && p in w.heap && a.Shm().Contains(p)
    ensures e in w.stored && Within(w, e, p) && p + NodeBytes(w.heap[p]) <= e + w.sizes[e]
  {
    assert LookAtProgress(0);
    assert HasOwner(w, p);
    e :| e in w.stored && Within(w, e, p) && p + NodeBytes(w.heap[p]) <= e + w.sizes[e];
  }

  // ---- what the cells of entries keep ----

  /** Key, value and size of the entry are the same, and it is bound if it was. */
  predicate SameEntry(a: Shared, b: Shared, e: Ptr) {
    && e in a.mem && e in b.mem
    && b.mem[e].key == a.mem[e].key && b.mem[e].val == a.mem[e].val && b.mem[e].memSize == a.mem[e].memSize
    && (Linked(a, e) ==> Linked(b, e))
  }

  lemma LinkedStays(s: State, s': State, e: Ptr)
    requires Inv(s) && Step(s, s') && Linked(s.sh, e)
    ensures Linked(s'.sh, e) && SameEntry(s.sh, s'.sh, e)
  {
    StepBinds(s, s');
    assert LeftAlone(s.sh, s'.sh, s.sh.mem[e].key);
  }

  lemma AllStay(s: State, s': State, ps: set<Ptr>)
    requires Inv(s) && Step(s, s') && AllLinked(s.sh, ps)
    ensures AllLinked(s'.sh, ps)
  {
    forall q | q in ps ensures Linked(s'.sh, q) {
      LinkedStays(s, s', q);
    }
  }

  /** A storing thread's step changes no cell but its own block, links of the chain's end excepted. */
  lemma StoreCells(sh: Shared, pc: PC, choice: Ptr, e: Ptr)
    requires pc.Storing? && Ready(sh, pc) && e in sh.mem
    requires pc.at.Allocating? ==> choice == 0 || choice !in sh.mem
    requires (pc.at.Copying? || pc.at.Freeing?) ==> pc.e != e
    ensures
      var sh' := StoreStep(sh, pc, choice).1;
      e in sh'.mem && sh'.mem[e].key == sh.mem[e].key && sh'.mem[e].val == sh.mem[e].val &&
        sh'.mem[e].memSize == sh.mem[e].memSize
  {
  }

  lemma FindCells(sh: Shared, pc: PC, protect: bool, e: Ptr)
    requires pc.Finding? && Ready(sh, pc) && e in sh.mem
    ensures
      var sh' := FindStep(sh, pc, protect).1;
      e in sh'.mem && sh'.mem[e].key == sh.mem[e].key && sh'.mem[e].val == sh.mem[e].val &&
        sh'.mem[e].memSize == sh.mem[e].memSize
  {
  }

  /** No step touches key, value or size of an entry, except the copy into it and the release of its block. */
  lemma CellStays(s: State, s': State, t: nat, choice: Ptr, call: Call, e: Ptr)
    requires Inv(s) && Steps(s, s', t, choice, call) && e in s.sh.mem
    requires s.pcs[t].Storing? && (s.pcs[t].at.Copying? || s.pcs[t].at.Freeing?) ==> s.pcs[t].e != e
    ensures SameEntry(s.sh, s'.sh, e)
  {
    var pc := s.pcs[t];
    if pc.Storing? {
      StoreCells(s.sh, pc, choice, e);
    } else if pc.Finding? {
      FindCells(s.sh, pc, s.protect, e);
    }
    if Linked(s.sh, e) {
      assert Step(s, s');
      LinkedStays(s, s', e);
    }
  }

  // ---- memory left alone ----

  lemma SameWithin(w: World, w': World, r: Region, es: set<Ptr>, vs: seq<Zval>)
    requires LeadTo(w, r, es, vs) && forall e {:trigger e in es} ::
      e in es && e in w.sizes ==> e in w'.sizes && w'.sizes[e] == w.sizes[e]
    ensures LeadTo(w', r, es, vs)
  {
    forall v | v in vs && Follows(v) && r.Contains(v.p) ensures InBlocks(w', es, v.p) {
      InBlocksStay(w, w', es, v.p);
    }
  }

  lemma InBlocksStay(w: World, w': World, es: set<Ptr>, p: Ptr)
    requires InBlocks(w, es, p)
    requires forall e {:trigger e in es} :: e in es && e in w.sizes ==> e in w'.sizes && w'.sizes[e] == w.sizes[e]
    ensures InBlocks(w', es, p)
  {
    var e :| e in es && Within(w, e, p);
    assert Within(w', e, p);
  }

  lemma LeadToMore(w: World, r: Region, es: set<Ptr>, fs: set<Ptr>, vs: seq<Zval>)
    requires LeadTo(w, r, es, vs) && es <= fs
    ensures LeadTo(w, r, fs, vs)
  {
    forall v | v in vs && Follows(v) && r.Contains(v.p) ensures InBlocks(w, fs, v.p) {
      var e :| e in es && Within(w, e, v.p);
      assert e in fs;
    }
  }

  /** Nothing is bound but what was bound before, and the entry just linked. */
  lemma NewlyLinked(s: State, s': State, t: nat, choice: Ptr, call: Call, e: Ptr)
    requires Inv(s) && Steps(s, s', t, choice, call) && Linked(s'.sh, e)
    ensures Linked(s.sh, e) || (s.pcs[t].Storing? && s.pcs[t].at.Linking? && s.pcs[t].e == e)
  {
    var pc, k := s.pcs[t], s'.sh.mem[e].key;
    if pc.Storing? && pc.at.Linking? {
      if e != pc.e {
        LinkTable(s.sh, pc, choice);
        assert k in s.sh.table && s.sh.table[k] == e;
        OldBinding(s.sh, k);
      }
    } else {
      TableStays(s, s', t, choice, call);
      OldBinding(s.sh, k);
    }
  }

  lemma LinkTable(sh: Shared, pc: PC, choice: Ptr)
    requires pc.Storing? && pc.at.Linking? && Ready(sh, pc)
    ensures StoreStep(sh, pc, choice).1.table == sh.table[pc.k := pc.e]
  {
  }

  lemma StoreTable(sh: Shared, pc: PC, choice: Ptr)
    requires pc.Storing? && !pc.at.Linking? && Ready(sh, pc)
    ensures StoreStep(sh, pc, choice).1.table == sh.table && StoreStep(sh, pc, choice).1.held == sh.held
  {
  }

  lemma FindTable(sh: Shared, pc: PC, protect: bool)
    requires pc.Finding? && Ready(sh, pc)
    ensures FindStep(sh, pc, protect).1.table == sh.table && sh.held <= FindStep(sh, pc, protect).1.held
  {
  }

  lemma TableStays(s: State, s': State, t: nat, choice: Ptr, call: Call)
    requires Steps(s, s', t, choice, call) && !(s.pcs[t].Storing? && s.pcs[t].at.Linking?)
    ensures s'.sh.table == s.sh.table && s.sh.held <= s'.sh.held
  {
    if s.pcs[t].Storing? {
      StoreTable(s.sh, s.pcs[t], choice);
    } else if s.pcs[t].Finding? {
      FindTable(s.sh, s.pcs[t], s.protect);
    }
  }

  lemma HeldGrows(s: State, s': State, t: nat, choice: Ptr, call: Call)
    requires Steps(s, s', t, choice, call)
    ensures s.sh.held <= s'.sh.held
  {
    if !(s.pcs[t].Storing? && s.pcs[t].at.Linking?) {
      TableStays(s, s', t, choice, call);
    }
  }

  lemma HeldStay(a: Arena, w: World, w': World)
    requires PrivateHeld(a, w) && w'.heap == w.heap && w.s.sh.held <= w'.s.sh.held
    requires forall e {:trigger e in w.sizes} :: e in w.sizes ==> e in w'.sizes && w'.sizes[e] == w.sizes[e]
    ensures PrivateHeld(a, w')
  {
    assert LookAtUses(0);
    forall p | p in w'.heap && !a.Shm().Contains(p) ensures LeadTo(w', a.Shm(), w'.s.sh.held, Parts(w'.heap[p])) {
      assert LeadTo(w, a.Shm(), w.s.sh.held, Parts(w.heap[p]));
      SameWithin(w, w', a.Shm(), w.s.sh.held, Parts(w.heap[p]));
      LeadToMore(w', a.Shm(), w.s.sh.held, w'.s.sh.held, Parts(w.heap[p]));
    }
  }

  /** An entry's tie survives when its cell, its block and the nodes of both are untouched. */
  lemma TieStays(a: Arena, w: World, w': World, e: Ptr)
    requires Tied(a, w, e) && w'.heap == w.heap && e in w'.stored && w'.stored[e] == w.stored[e]
    requires forall q {:trigger q in w.sizes} :: q in w.sizes ==> q in w'.sizes && w'.sizes[q] == w.sizes[q]
    requires SameEntry(w.s.sh, w'.s.sh, e) && AllLinked(w'.s.sh, w.s.sh.mem[e].val.uses)
    ensures Tied(a, w', e)
  {
    assert Around(w', e) == Around(w, e);
    SameWithin(w, w', a.Shm(), Around(w, e), Roots(w.stored[e].key, w.stored[e].val));
    forall p | p in w'.heap && a.Shm().Contains(p) && Within(w', e, p)
      ensures LeadTo(w', a.Shm(), Around(w', e), Items(w'.heap[p]))
    {
      assert Within(w, e, p);
      SameWithin(w, w', a.Shm(), Around(w, e), Items(w.heap[p]));
    }
  }
}
