/** Linked entries own the blocks of shared memory, and everything they lead to stays in blocks that are owned. */
module Ownership {
  import opened Focus
  import opened Layout
  import opened Options
  import opened Tiles
  import opened Segment
  import opened Pool
  import opened Values
  import opened Traversal
  import opened Copies
  import opened Outcomes
  import opened Leads
  import opened Housing
  import opened Persist
  import opened Store
  import opened Chains

  /** Bytes [lo, hi) lie in the block of a linked entry, behind the entry itself. */
  ghost predicate OwnedBy(es: Entries, order: seq<Ptr>, lo: Ptr, hi: Ptr) {
    exists e {:trigger e in order} :: e in order && e in es && e + ENTRY <= lo && hi <= e + es[e].memSize
  }

  /** Every node in shared memory is owned. */
  ghost predicate Owned(h: Heap, r: Region, es: Entries, order: seq<Ptr>) {
    forall z {:trigger LookAtProgress(z)} :: LookAtProgress(z) ==>
      forall p {:trigger p in h} :: p in h && r.Contains(p) ==> OwnedBy(es, order, p, p + NodeBytes(h[p]))
  }

  /** The block at `e`, of `n` bytes, is allocated. */
  ghost predicate HomeOf(base: seq<nat>, rows: seq<seq<Tile>>, e: Ptr, n: nat) {
    exists i: nat, t: Tile {:trigger Houses(base, rows, i, t, e, e)} ::
      Houses(base, rows, i, t, e, e) && base[i] + t.off + BLOCK == e && n + BLOCK <= t.size
  }

  /** Every linked entry has an allocated block of its own. */
  ghost predicate Homed(base: seq<nat>, rows: seq<seq<Tile>>, es: Entries, order: seq<Ptr>) {
    forall z {:trigger LookAtSlots(z)} :: LookAtSlots(z) ==>
      forall e {:trigger e in order} :: e in order ==> e in es && HomeOf(base, rows, e, es[e].memSize)
  }

  /** The value an entry was made from. */
  datatype Source = Source(heap: Heap, val: Zval)

  /** The stored value still stands for its source. */
  ghost predicate Faithful(h: Heap, ser: Serializer, w: Zval, src: Source) {
    if w.Serialized? then w.p in h && h[w.p].StrNode? && ser.encode(src.heap, src.val) == Some(h[w.p].bytes)
    else SameValue(src.heap, h, src.val, w)
  }

  ghost predicate EntryKept(h: Heap, r: Region, ser: Serializer, at: Ptr, e: Entry, src: Source) {
    && Anchored(h, r, Stored(at, e.key, e.val, e.memSize)) && KeyReady(h, e)
    && Faithful(h, ser, e.val, src)
  }

  ghost predicate AllKept(h: Heap, r: Region, ser: Serializer, es: Entries, order: seq<Ptr>, origin: map<Ptr, Source>) {
    forall z {:trigger LookAtWalk(z)} :: LookAtWalk(z) ==>
      forall e {:trigger e in order} ::
        e in order ==> e in es && e in origin && EntryKept(h, r, ser, e, es[e], origin[e])
  }

  /** The invariant that ties heap, entries and allocator together. */
  ghost predicate Keeping(h: Heap, base: seq<nat>, size: nat, rows: seq<seq<Tile>>, ser: Serializer,
                          es: Entries, order: seq<Ptr>, origin: map<Ptr, Source>)
  {
    && WellFormed(h) && ShmClosed(h, Region(base, size))
    && (forall e {:trigger e in es} :: e in es ==> e in order)
    && Owned(h, Region(base, size), es, order)
    && Homed(base, rows, es, order)
    && AllKept(h, Region(base, size), ser, es, order, origin)
  }

  // ---- what growth keeps ----

  lemma OwnedIsBacked(h: Heap, base: seq<nat>, size: nat, rows: seq<seq<Tile>>, es: Entries, order: seq<Ptr>)
    requires Owned(h, Region(base, size), es, order) && Homed(base, rows, es, order)
    ensures Backed(base, size, rows, h)
  {
    assert LookAtProgress(0) && LookAtSlots(0);
    forall p | p in h && Region(base, size).Contains(p) ensures Housed(base, rows, p, p + NodeBytes(h[p])) {
      var e :| e in order && e in es && e + ENTRY <= p && p + NodeBytes(h[p]) <= e + es[e].memSize;
      var i: nat, t: Tile :| Houses(base, rows, i, t, e, e) && base[i] + t.off + BLOCK == e &&
        es[e].memSize + BLOCK <= t.size;
      assert Houses(base, rows, i, t, p, p + NodeBytes(h[p]));
    }
  }

  lemma OwnedMore(h: Heap, h': Heap, r: Region, es: Entries, order: seq<Ptr>, at: Ptr, e: Entry)
    requires Owned(h, r, es, order) && Extends(h, h') && AddedIn(h, h', at + ENTRY, at + e.memSize) && at !in es
    ensures Owned(h', r, es[at := e], order + [at])
  {
    assert LookAtProgress(0);
    forall p | p in h' && r.Contains(p) ensures OwnedBy(es[at := e], order + [at], p, p + NodeBytes(h'[p])) {
      if p in h {
        var o :| o in order && o in es && o + ENTRY <= p && p + NodeBytes(h[p]) <= o + es[o].memSize;
        assert o in order + [at];
      } else {
        assert at in order + [at];
      }
    }
  }

  lemma HomedMore(base: seq<nat>, rows: seq<seq<Tile>>, rows': seq<seq<Tile>>, w: nat, n: nat, at: nat,
                  es: Entries, order: seq<Ptr>, p: Ptr, e: Entry)
    requires Homed(base, rows, es, order) && |rows| == |base| && Served(rows, rows', w, n, at) && p !in es
    requires p == base[w] + rows[w][at].off + BLOCK && e.memSize == n
    ensures Homed(base, rows', es[p := e], order + [p])
  {
    assert LookAtSlots(0);
    forall o | o in order + [p] ensures o in es[p := e] && HomeOf(base, rows', o, es[p := e][o].memSize) {
      if o in order {
        assert o in es;
        var i: nat, t: Tile :| Houses(base, rows, i, t, o, o) && base[i] + t.off + BLOCK == o &&
          es[o].memSize + BLOCK <= t.size;
        ServedKeeps(rows, rows', w, n, at, i, t);
        assert Houses(base, rows', i, t, o, o);
      } else {
        ServedAdds(rows, rows', w, n, at);
        assert Houses(base, rows', w, ServedTile(rows, w, n, at), p, p);
      }
    }
  }

  /** The block of a linked entry is not handed out again. */
  lemma HomeTaken(base: seq<nat>, size: nat, rows: seq<seq<Tile>>, w: nat, at: nat, es: Entries, order: seq<Ptr>,
        p: Ptr)
    requires Apart(base, size) && Tiled(rows, size) && w < |rows| == |base| && at < |rows[w]| && rows[w][at].free
    requires Homed(base, rows, es, order) && p == base[w] + rows[w][at].off + BLOCK && rows[w][at].size > BLOCK
    ensures p !in order
  {
    assert LookAtSlots(0);
    forall e | e in order ensures e != p {
      var i: nat, t: Tile :| Houses(base, rows, i, t, e, e) && base[i] + t.off + BLOCK == e &&
        es[e].memSize + BLOCK <= t.size;
      assert Houses(base, rows, i, t, e, base[i] + t.off + t.size);
      HousedOutside(base, size, rows, w, at, i, t, e, e);
    }
  }

  /** The block of a linked entry does not meet a free one. */
  lemma HomeApart(base: seq<nat>, size: nat, rows: seq<seq<Tile>>, w: nat, at: nat, es: Entries, order: seq<Ptr>,
        o: Ptr)
    requires Apart(base, size) && Tiled(rows, size) && w < |rows| == |base| && at < |rows[w]| && rows[w][at].free
    requires Homed(base, rows, es, order) && o in order
    ensures
      var lo := base[w] + rows[w][at].off;
      o in es && (o + es[o].memSize <= lo || lo + rows[w][at].size <= o)
  {
    assert LookAtSlots(0);
    var i: nat, t: Tile :| Houses(base, rows, i, t, o, o) && base[i] + t.off + BLOCK == o &&
      es[o].memSize + BLOCK <= t.size;
    assert Houses(base, rows, i, t, o, base[i] + t.off + t.size);
    HousedOutside(base, size, rows, w, at, i, t, o, base[i] + t.off + t.size);
  }

  lemma KeptGrows(h: Heap, h': Heap, r: Region, ser: Serializer, at: Ptr, e: Entry, src: Source)
    requires WellFormed(h) && Extends(h, h') && EntryKept(h, r, ser, at, e, src)
    ensures EntryKept(h', r, ser, at, e, src)
  {
    if !e.val.Serialized? {
      forall n ensures Unfold(h', e.val, n) == Unfold(src.heap, src.val, n) {
        UnfoldExtends(h, h', e.val, n);
      }
    }
  }

  /** What an entry keeps does not depend on memory outside shared memory. */
  lemma KeptShared(h: Heap, h': Heap, r: Region, ser: Serializer, at: Ptr, e: Entry, src: Source)
    requires WellFormed(h) && ShmClosed(h, r) && SharedKept(h, h', r) && EntryKept(h, r, ser, at, e, src)
    ensures EntryKept(h', r, ser, at, e, src)
  {
    if !e.val.Serialized? {
      forall n ensures Unfold(h', e.val, n) == Unfold(src.heap, src.val, n) {
        UnfoldShared(h, h', r, e.val, n);
      }
    }
  }

  /** Links and statistics of entries do not matter here. */
  ghost predicate SameOwners(es: Entries, es': Entries) {
    && (forall p {:trigger p in es'} :: p in es' <==> p in es)
    && (forall p {:trigger es'[p]} {:trigger es[p]} :: p in es ==>
      es'[p].key == es[p].key && es'[p].val == es[p].val && es'[p].memSize == es[p].memSize)
  }

  lemma OwnedSame(h: Heap, r: Region, es: Entries, es': Entries, order: seq<Ptr>)
    requires Owned(h, r, es, order) && SameOwners(es, es')
    ensures Owned(h, r, es', order)
  {
    assert LookAtProgress(0);
    forall p | p in h && r.Contains(p) ensures OwnedBy(es', order, p, p + NodeBytes(h[p])) {
      var e :| e in order && e in es && e + ENTRY <= p && p + NodeBytes(h[p]) <= e + es[e].memSize;
      assert e in es' && es'[e].memSize == es[e].memSize;
    }
  }

  lemma HomedSame(base: seq<nat>, rows: seq<seq<Tile>>, es: Entries, es': Entries, order: seq<Ptr>)
    requires Homed(base, rows, es, order) && SameOwners(es, es')
    ensures Homed(base, rows, es', order)
  {
    assert LookAtSlots(0);
    forall e | e in order ensures e in es' && HomeOf(base, rows, e, es'[e].memSize) {
      assert e in es && es'[e].memSize == es[e].memSize;
    }
  }

  lemma KeptSame(h: Heap, r: Region, ser: Serializer, es: Entries, es': Entries, order: seq<Ptr>,
        origin: map<Ptr, Source>)
    requires AllKept(h, r, ser, es, order, origin) && SameOwners(es, es')
    ensures AllKept(h, r, ser, es', order, origin)
  {
    assert LookAtWalk(0);
    forall e | e in order ensures e in es' && e in origin && EntryKept(h, r, ser, e, es'[e], origin[e]) {
      assert e in es && es'[e].key == es[e].key && es'[e].val == es[e].val && es'[e].memSize == es[e].memSize;
      EntrySame(h, r, ser, e, es[e], es'[e], origin[e]);
    }
  }

  lemma EntrySame(h: Heap, r: Region, ser: Serializer, at: Ptr, e: Entry, e': Entry, src: Source)
    requires EntryKept(h, r, ser, at, e, src) && e'.key == e.key && e'.val == e.val && e'.memSize == e.memSize
    ensures EntryKept(h, r, ser, at, e', src)
  {
  }

  lemma KeepingSame(h: Heap, base: seq<nat>, size: nat, rows: seq<seq<Tile>>, ser: Serializer,
                    es: Entries, es': Entries, order: seq<Ptr>, origin: map<Ptr, Source>)
    requires Keeping(h, base, size, rows, ser, es, order, origin) && SameOwners(es, es')
    ensures Keeping(h, base, size, rows, ser, es', order, origin)
  {
    OwnedSame(h, Region(base, size), es, es', order);
    HomedSame(base, rows, es, es', order);
    KeptSame(h, Region(base, size), ser, es, es', order, origin);
  }

  /** A persisted entry `e` for source `src`, in a block of its own, not linked yet. */
  ghost predicate Pending(h: Heap, h': Heap, base: seq<nat>, size: nat, rows: seq<seq<Tile>>, rows': seq<seq<Tile>>,
        ser: Serializer,
                          es: Entries, order: seq<Ptr>, w: nat, at: nat, p: Ptr, e: Entry, src: Source)
  {
    && Apart(base, size) && Tiled(rows, size) && |rows| == |base|
    && Served(rows, rows', w, e.memSize, at) && p == base[w] + rows[w][at].off + BLOCK && p !in es
    && Grown(h, h', Region(base, size), p, e.memSize)
    && EntryKept(h', Region(base, size), ser, p, e, src)
  }

  /** Linking it keeps the invariant. */
  lemma PendingKeeps(h: Heap, h': Heap, base: seq<nat>, size: nat, rows: seq<seq<Tile>>, rows': seq<seq<Tile>>,
        ser: Serializer,
                     es: Entries, es': Entries, order: seq<Ptr>, order': seq<Ptr>, origin: map<Ptr, Source>,
                     origin': map<Ptr, Source>,
                     w: nat, at: nat, p: Ptr, e: Entry, src: Source)
    requires Keeping(h, base, size, rows, ser, es, order, origin)
    requires Pending(h, h', base, size, rows, rows', ser, es, order, w, at, p, e, src)
    requires SameOwners(es[p := e], es') && order' == order + [p] && origin' == origin[p := src]
    ensures Keeping(h', base, size, rows', ser, es', order', origin')
  {
    var r := Region(base, size);
    OwnedMore(h, h', r, es, order, p, e);
    HomedMore(base, rows, rows', w, e.memSize, at, es, order, p, e);
    KeptMore(h, h', r, ser, es, order, origin, p, e, src);
    forall o | o in es[p := e] ensures o in order' {
      assert order'[|order|] == p;
    }
    KeepingSame(h', base, size, rows', ser, es[p := e], es', order', origin');
  }

  lemma KeptMore(h: Heap, h': Heap, r: Region, ser: Serializer, es: Entries, order: seq<Ptr>, origin: map<Ptr, Source>,
                 p: Ptr, e: Entry, src: Source)
    requires AllKept(h, r, ser, es, order, origin) && WellFormed(h) && Extends(h, h') && p !in es
    requires EntryKept(h', r, ser, p, e, src)
    ensures AllKept(h', r, ser, es[p := e], order + [p], origin[p := src])
  {
    assert LookAtWalk(0);
    forall o | o in order + [p]
      ensures o in es[p := e] && o in origin[p := src] && EntryKept(h', r, ser, o, es[p := e][o], origin[p := src][o])
    {
      if o in order {
        assert o in es && o in origin;
        KeptGrows(h, h', r, ser, o, es[o], origin[o]);
      }
    }
  }

  // ---- no dangling pointers ----

  /**
   * Whatever can be reached from a linked entry lies in the block of a linked entry and has not changed: not
   * only between two calls, but at any later moment `h'`, while any number of stores are filling blocks of
   * their own and processes make, change and free values of their own.
   */
  lemma NoDangling(h: Heap, base: seq<nat>, size: nat, rows: seq<seq<Tile>>, ser: Serializer,
                   es: Entries, order: seq<Ptr>, origin: map<Ptr, Source>, h': Heap, e: Ptr, p: Ptr)
    requires Keeping(h, base, size, rows, ser, es, order, origin) && e in order && e in es
    requires SharedKept(h, h', Region(base, size)) && Reaches(h', ANYWHERE, Roots(es[e].key, es[e].val), p)
    ensures p in h && p in h' && h'[p] == h[p] && OwnedBy(es, order, p, p + NodeBytes(h[p]))
  {
    assert EntryKept(h, Region(base, size), ser, e, es[e], origin[e]) by {
      assert LookAtWalk(0);
    }
    RootsInside(h, Region(base, size), ser, e, es[e], origin[e]);
    ReachedOwned(h, Region(base, size), es, order, Roots(es[e].key, es[e].val), h', p);
  }

  /** Values that lead into shared memory lead to nodes that linked entries own. */
  lemma ReachedOwned(h: Heap, r: Region, es: Entries, order: seq<Ptr>, roots: seq<Zval>, h': Heap, p: Ptr)
    requires WellFormed(h) && ShmClosed(h, r) && Owned(h, r, es, order) && SharedKept(h, h', r)
    requires AllInside(h, r, roots) && Reaches(h', ANYWHERE, roots, p)
    ensures p in h && p in h' && h'[p] == h[p] && r.Contains(p) && OwnedBy(es, order, p, p + NodeBytes(h[p]))
  {
    ReachesShared(h, h', r, roots, p);
    OwnerOf(h, r, es, order, p);
  }

  lemma RootsInside(h: Heap, r: Region, ser: Serializer, at: Ptr, e: Entry, src: Source)
    requires EntryKept(h, r, ser, at, e, src)
    ensures AllInside(h, r, Roots(e.key, e.val))
  {
  }

  /**
   * A linked entry stands for what it was made from at any later moment `h'`, whatever has become of all memory
   * outside shared memory, the original value included.
   */
  lemma EntryUnchanged(h: Heap, base: seq<nat>, size: nat, rows: seq<seq<Tile>>, ser: Serializer,
                       es: Entries, order: seq<Ptr>, origin: map<Ptr, Source>, h': Heap, e: Ptr)
    requires Keeping(h, base, size, rows, ser, es, order, origin) && e in order
    requires SharedKept(h, h', Region(base, size))
    ensures e in es && e in origin && BytesAt(h', es[e].key) == BytesAt(h, es[e].key)
    ensures Faithful(h', ser, es[e].val, origin[e])
    ensures !es[e].val.Serialized? ==> forall n :: Unfold(h', es[e].val, n) == Unfold(origin[e].heap, origin[e].val, n)
  {
    assert LookAtWalk(0);
    KeptShared(h, h', Region(base, size), ser, e, es[e], origin[e]);
  }

  lemma OwnerOf(h: Heap, r: Region, es: Entries, order: seq<Ptr>, p: Ptr)
    requires Owned(h, r, es, order) && p in h && r.Contains(p)
    ensures OwnedBy(es, order, p, p + NodeBytes(h[p]))
  {
    assert LookAtProgress(0);
  }

  // ---- from the persist engine to a pending entry ----

  lemma KeepingSound(h: Heap, base: seq<nat>, size: nat, rows: seq<seq<Tile>>, ser: Serializer,
                     es: Entries, order: seq<Ptr>, origin: map<Ptr, Source>)
    requires Keeping(h, base, size, rows, ser, es, order, origin)
    ensures SoundHeap(h, base, size, rows)
  {
    OwnedIsBacked(h, base, size, rows, es, order);
  }

  /** The entry struct as immutable_cache_persist leaves it at time `t`. */
  function FreshEntry(s: Stored, t: int): Entry {
    Entry(s.key, s.val, 0, 0, t, t, s.memSize)
  }

  lemma PersistedPending(h: Heap, h': Heap, base: seq<nat>, size: nat, rows: seq<seq<Tile>>, rows': seq<seq<Tile>>,
        configured: bool, ser: Serializer,
                         es: Entries, order: seq<Ptr>, origin: map<Ptr, Source>, w: nat, at: nat, key: Ptr, v: Zval,
                         r: Option<Stored>, t: int)
    requires Keeping(h, base, size, rows, ser, es, order, origin) && Apart(base, size) && Tiled(rows, size)
    requires Settles(h, h', base, size, rows, rows', key, v, PlanOf(h, Region(base, size), configured, ser, key, v), r,
      w, at) && r.Some?
    ensures
      && Pending(h, h', base, size, rows, rows', ser, es, order, w, at, r.value.at, FreshEntry(r.value, t),
        Source(h, v))
      && KeyReady(h', FreshEntry(r.value, t)) && BytesAt(h', r.value.key) == BytesAt(h, key) && r.value.at != 0
  {
    var s := r.value;
    HomeTaken(base, size, rows, w, at, es, order, s.at);
    assert ShmNode(Region(base, size), s.key, h'[s.key]);
  }

  /** What processes do with memory of their own changes nothing for the cache. */
  lemma KeepingElsewhere(h: Heap, h': Heap, base: seq<nat>, size: nat, rows: seq<seq<Tile>>, ser: Serializer,
                         es: Entries, order: seq<Ptr>, origin: map<Ptr, Source>)
    requires Keeping(h, base, size, rows, ser, es, order, origin)
    requires SameShared(h, h', Region(base, size)) && WellFormed(h')
    ensures Keeping(h', base, size, rows, ser, es, order, origin) && KeysStay(h, h', es)
  {
    var r := Region(base, size);
    assert Owned(h', r, es, order) by {
      assert LookAtProgress(0);
    }
    assert LookAtWalk(0);
    forall e | e in order ensures e in es && e in origin && EntryKept(h', r, ser, e, es[e], origin[e]) {
      KeptShared(h, h', r, ser, e, es[e], origin[e]);
    }
    assert ShmClosed(h', r) by {
      forall p | p in h' && r.Contains(p) ensures ShmNode(r, p, h'[p]) {
        assert ShmNode(r, p, h[p]);
      }
    }
  }
}
