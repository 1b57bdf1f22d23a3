/**
 * The lock protocol together with the memory it works on: the nodes of keys and values, and the allocator's rows.
 * One step is a step of the protocol with its effect on memory, or whatever a process does with memory of its own.
 */
module Worlds {
  import opened Focus
  import opened Layout
  import opened Tiles
  import opened Segment
  import opened Pool
  import opened Values
  import opened Traversal
  import opened Copies
  import opened Outcomes
  import opened Leads
  import opened Housing
  import opened Store
  import opened Chains
  import opened Ownership
  import opened Protocol
  import opened Invariants

  /** The data segments. */
  datatype Arena = Arena(base: seq<nat>, size: nat) {
    function Shm(): Region {
      Region(base, size)
    }
  }

  /**
   * `sizes` are the bytes asked for of each block handed out; `stored` is what each entry that has been filled in
   * holds.
   */
  datatype World = World(s: State, heap: Heap, rows: seq<seq<Tile>>, sizes: map<Ptr, nat>, stored: map<Ptr, Stored>)

  // ---- blocks ----

  /** Address `p` lies in the block of `e`, behind the entry itself. */
  predicate Within(w: World, e: Ptr, p: Ptr) {
    e in w.sizes && e + ENTRY <= p < e + w.sizes[e]
  }

  ghost predicate InBlocks(w: World, es: set<Ptr>, p: Ptr) {
    exists e {:trigger Within(w, e, p)} :: e in es && Within(w, e, p)
  }

  /** The entry's own block, and those its key and value lead into. */
  function Around(w: World, e: Ptr): set<Ptr> {
    {e} + if e in w.s.sh.mem then w.s.sh.mem[e].val.uses else {}
  }

  /** Pointers of a node. */
  function Parts(n: Node): seq<Zval> {
    if n.BoxNode? then n.kids else Items(n)
  }

  /** All pointers among `vs` into shared memory lead into blocks of `es`. */
  ghost predicate LeadTo(w: World, r: Region, es: set<Ptr>, vs: seq<Zval>) {
    forall v {:trigger v in vs} :: v in vs && Follows(v) && r.Contains(v.p) ==> InBlocks(w, es, v.p)
  }

  // ---- the invariant ----

  /** Every block handed out has an allocated block of the segments for itself. */
  ghost predicate Homes(a: Arena, w: World) {
    forall z {:trigger LookAtSlots(z)} :: LookAtSlots(z) ==>
      && w.sizes.Keys == w.s.sh.mem.Keys
      && forall e {:trigger e in w.sizes} :: e in w.sizes ==> HomeOf(a.base, w.rows, e, w.sizes[e])
  }

  /** Every node in shared memory lies, with all its bytes, in the block of an entry that has been filled in. */
  ghost predicate Placed(a: Arena, w: World) {
    forall z {:trigger LookAtProgress(z)} :: LookAtProgress(z) ==>
      forall p {:trigger p in w.heap} :: p in w.heap && a.Shm().Contains(p) ==> HasOwner(w, p)
  }

  ghost predicate HasOwner(w: World, p: Ptr)
    requires p in w.heap
  {
    exists e {:trigger Within(w, e, p)} ::
      e in w.stored && Within(w, e, p) && p + NodeBytes(w.heap[p]) <= e + w.sizes[e]
  }

  /** What has been filled in agrees with the entry, and leads to its own block and those of bound entries only. */
  ghost predicate Tied(a: Arena, w: World, e: Ptr) {
    && e in w.stored && e in w.s.sh.mem && e in w.sizes
    && w.stored[e].at == e && w.stored[e].memSize == w.sizes[e] == w.s.sh.mem[e].memSize
    && Anchored(w.heap, a.Shm(), w.stored[e]) && BytesAt(w.heap, w.stored[e].key) == w.s.sh.mem[e].key
    && AllLinked(w.s.sh, w.s.sh.mem[e].val.uses)
    && LeadTo(w, a.Shm(), Around(w, e), Roots(w.stored[e].key, w.stored[e].val))
    && forall p {:trigger Within(w, e, p)} :: p in w.heap && a.Shm().Contains(p) && Within(w, e, p) ==>
      LeadTo(w, a.Shm(), Around(w, e), Items(w.heap[p]))
  }

  ghost predicate AllTied(a: Arena, w: World) {
    forall z {:trigger LookAtWalk(z)} :: LookAtWalk(z) ==>
      && (forall e {:trigger e in w.stored} :: e in w.stored ==> Tied(a, w, e))
      && (forall e {:trigger Linked(w.s.sh, e)} :: Linked(w.s.sh, e) ==> e in w.stored)
  }

  /** Processes point into shared memory only from what was handed to them. */
  ghost predicate PrivateHeld(a: Arena, w: World) {
    forall z {:trigger LookAtUses(z)} :: LookAtUses(z) ==>
      forall p {:trigger p in w.heap} :: p in w.heap && !a.Shm().Contains(p) ==>
        LeadTo(w, a.Shm(), w.s.sh.held, Parts(w.heap[p]))
  }

  /** The block of a storing thread: not filled in before the copy, filled in after it. */
  ghost predicate StageNodes(w: World, pc: PC) {
    Block(pc) != 0 && pc.Storing? ==>
      && pc.e in w.sizes && w.sizes[pc.e] == pc.n
      && (pc.e in w.stored <==> !pc.at.Allocated? && !pc.at.Copying?)
  }

  ghost predicate Stages(w: World) {
    forall z {:trigger LookAtLayout(z)} :: LookAtLayout(z) ==>
      forall t {:trigger w.s.pcs[t]} :: 0 <= t < |w.s.pcs| ==> StageNodes(w, w.s.pcs[t])
  }

  ghost predicate SoundWorld(a: Arena, w: World) {
    && Apart(a.base, a.size) && Tiled(w.rows, a.size) && |w.rows| == |a.base|
    && WellFormed(w.heap) && ShmClosed(w.heap, a.Shm())
  }

  ghost predicate WorldInv(a: Arena, w: World) {
    && Inv(w.s) && SoundWorld(a, w) && Homes(a, w) && Placed(a, w) && AllTied(a, w) && PrivateHeld(a, w) && Stages(w)
  }

  // ---- steps ----

  /** A block for the thread's request is handed out at `e`. */
  ghost predicate Takes(a: Arena, w: World, w': World, n: nat, e: Ptr) {
    && (exists i: nat, at: nat {:trigger Served(w.rows, w'.rows, i, n, at)} ::
      Served(w.rows, w'.rows, i, n, at) && i < |a.base| && e == a.base[i] + w.rows[i][at].off + BLOCK)
    && w'.heap == w.heap && w'.sizes == w.sizes[e := n] && w'.stored == w.stored
  }

  /** The string at `key` and the thread's value are copied into its block, as immutable_cache_persist does. */
  ghost predicate CopyOf(a: Arena, w: World, w': World, pc: PC, key: Ptr, plan: Plan)
    requires pc.Storing?
  {
    && Typed(w.heap, Str(key)) && BytesAt(w.heap, key) == pc.k && Typed(w.heap, pc.v.val)
    && (forall p {:trigger Reaches(w.heap, ANYWHERE, [Str(key), pc.v.val], p)} ::
      Reaches(w.heap, ANYWHERE, [Str(key), pc.v.val], p) && a.Shm().Contains(p) ==> InBlocks(w, pc.v.uses, p))
    && pc.e in w'.stored && w'.stored == w.stored[pc.e := w'.stored[pc.e]]
    && w'.stored[pc.e].at == pc.e && w'.stored[pc.e].memSize == pc.n
    && Grown(w.heap, w'.heap, a.Shm(), pc.e, pc.n)
    && Keeps(w.heap, w'.heap, a.Shm(), key, pc.v.val, plan, w'.stored[pc.e])
    && w'.rows == w.rows && w'.sizes == w.sizes
  }

  ghost predicate Copied(a: Arena, w: World, w': World, pc: PC)
    requires pc.Storing?
  {
    exists key, plan {:trigger CopyOf(a, w, w', pc, key, plan)} :: CopyOf(a, w, w', pc, key, plan)
  }

  /** The block at `e` goes back to the allocator, and with it whatever lies in it. */
  ghost predicate GivesBack(a: Arena, w: World, w': World, e: Ptr) {
    && (exists i: nat, at: nat {:trigger FreeAt(w.rows[i], at)} ::
      && i < |w.rows| && i < |a.base| && at < |w.rows[i]| && !w.rows[i][at].free
      && e == a.base[i] + w.rows[i][at].off + BLOCK && w'.rows == w.rows[i := FreeAt(w.rows[i], at)])
    && e in w.sizes && w'.heap == Without(w.heap, e, e + w.sizes[e])
    && w'.sizes == w.sizes - {e} && w'.stored == w.stored - {e}
  }

  /** Some segment has no free block for `n` bytes. */
  ghost predicate SegmentFull(rows: seq<seq<Tile>>, n: nat) {
    exists i {:trigger rows[i]} :: 0 <= i < |rows| && NoneFits(rows[i], Need(n))
  }

  /** What a step of the protocol does to memory; the allocator comes up with nothing where nothing fits. */
  ghost predicate Effect(a: Arena, w: World, w': World, pc: PC, choice: Ptr) {
    if pc.Storing? && pc.at.Allocating? && choice != 0 then Takes(a, w, w', pc.n, choice)
    else if pc.Storing? && pc.at.Copying? then Copied(a, w, w', pc)
    else if pc.Storing? && pc.at.Freeing? then GivesBack(a, w, w', pc.e)
    else
      && w'.heap == w.heap && w'.rows == w.rows && w'.sizes == w.sizes && w'.stored == w.stored
      && (pc.Storing? && pc.at.Allocating? ==> SegmentFull(w.rows, pc.n))
  }

  ghost predicate Moves(a: Arena, w: World, w': World, t: nat, choice: Ptr, call: Call) {
    Steps(w.s, w'.s, t, choice, call) && Effect(a, w, w', w.s.pcs[t], choice)
  }

  /** A process makes, changes or frees values of its own. */
  ghost predicate Elsewhere(a: Arena, w: World, w': World) {
    && w' == w.(heap := w'.heap) && SameShared(w.heap, w'.heap, a.Shm()) && WellFormed(w'.heap) && PrivateHeld(a, w')
  }

  ghost predicate WorldStep(a: Arena, w: World, w': World) {
    || Elsewhere(a, w, w')
    || exists t: nat, choice: Ptr, call: Call {:trigger Moves(a, w, w', t, choice, call)} ::
      Moves(a, w, w', t, choice, call)
  }

  /** Nothing is in shared memory yet. */
  ghost predicate WorldInit(a: Arena, w: World) {
    && Init(w.s) && w.sizes == map[] && w.stored == map[]
    && Apart(a.base, a.size) && Tiled(w.rows, a.size) && |w.rows| == |a.base|
    && WellFormed(w.heap) && forall p :: p in w.heap ==>
      !a.Shm().Contains(p) && forall v :: v in Parts(w.heap[p]) && Follows(v) ==> !a.Shm().Contains(v.p)
  }
}
