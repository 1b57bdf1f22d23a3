/** Which blocks of shared memory a value leads into, and what else the blocks of linked entries stay clear of. */
module Uses {
  import opened Focus
  import opened Layout
  import opened Options
  import opened Tiles
  import opened Segment
  import opened Pool
  import opened Values
  import opened Traversal
  import opened Copies
  import opened Outcomes
  import opened Leads
  import opened Housing
  import opened Persist
  import opened Store
  import opened Chains
  import opened Ownership

  /** Something reached from `roots` lies in the block of `e`. */
  ghost predicate LeadsInto(h: Heap, es: Entries, roots: seq<Zval>, e: Ptr) {
    e in es && exists p: nat {:trigger Reaches(h, ANYWHERE, roots, p)} ::
      Reaches(h, ANYWHERE, roots, p) && p in h && e + ENTRY <= p < e + es[e].memSize
  }

  /** The linked entries whose blocks `roots` lead into. */
  ghost function UsesOf(h: Heap, es: Entries, order: seq<Ptr>, roots: seq<Zval>): set<Ptr> {
    set e | e in order && LeadsInto(h, es, roots, e)
  }

  /** A node in shared memory takes up room. */
  lemma ShmTakesBytes(h: Heap, r: Region, p: Ptr)
    requires ShmClosed(h, r) && p in h && r.Contains(p)
    ensures NodeBytes(h[p]) > 0
  {
    assert ShmNode(r, p, h[p]);
    NodeTakesBytes(h[p]);
  }

  /** Every node of shared memory that a value of any process leads to lies in a block that the value uses. */
  lemma UsesCover(h: Heap, base: seq<nat>, size: nat, rows: seq<seq<Tile>>, ser: Serializer, es: Entries,
        order: seq<Ptr>, origin: map<Ptr, Source>, roots: seq<Zval>, p: Ptr) returns (e: Ptr)
    requires Keeping(h, base, size, rows, ser, es, order, origin)
    requires Reaches(h, ANYWHERE, roots, p) && p in h && Region(base, size).Contains(p)
    ensures e in UsesOf(h, es, order, roots) && e in es
    ensures e + ENTRY <= p && p + NodeBytes(h[p]) <= e + es[e].memSize
  {
    OwnerOf(h, Region(base, size), es, order, p);
    ShmTakesBytes(h, Region(base, size), p);
    e :| e in order && e in es && e + ENTRY <= p && p + NodeBytes(h[p]) <= e + es[e].memSize;
    assert LeadsInto(h, es, roots, e);
  }

  /** What was in the block of a linked entry before is not in a block handed out since. */
  lemma OldBlockOldNode(h: Heap, h': Heap, base: seq<nat>, size: nat, rows: seq<seq<Tile>>, rows': seq<seq<Tile>>,
        es: Entries, order: seq<Ptr>, w: nat, n: nat, at: nat, o: Ptr, p: Ptr)
    requires Apart(base, size) && Tiled(rows, size) && |rows| == |base| && Served(rows, rows', w, n, at)
    requires Homed(base, rows, es, order) && o in order && o in es && o + ENTRY <= p < o + es[o].memSize
    requires AddedIn(h, h', base[w] + rows[w][at].off + BLOCK + ENTRY, base[w] + rows[w][at].off + BLOCK + n) && p in h'
    ensures p in h
  {
    HomeApart(base, size, rows, w, at, es, order, o);
    assert n + BLOCK <= rows[w][at].size by {
      ServedAdds(rows, rows', w, n, at);
    }
  }

  /** A new entry uses its own block, and no other but those its key and value used already. */
  lemma NewUses(h: Heap, h': Heap, base: seq<nat>, size: nat, rows: seq<seq<Tile>>, rows': seq<seq<Tile>>,
        ser: Serializer, es: Entries, es': Entries, order: seq<Ptr>, origin: map<Ptr, Source>, w: nat, at: nat, p: Ptr,
        e: Entry, src: Source, from: seq<Zval>)
    requires Keeping(h, base, size, rows, ser, es, order, origin)
    requires Pending(h, h', base, size, rows, rows', ser, es, order, w, at, p, e, src)
    requires SameOwners(es[p := e], es') && LeadsBack(h, h', from, Roots(e.key, e.val))
    ensures UsesOf(h', es', order + [p], Roots(e.key, e.val)) <= UsesOf(h, es, order, from) + {p}
  {
    var to := Roots(e.key, e.val);
    forall o | o in UsesOf(h', es', order + [p], to) && o != p ensures o in UsesOf(h, es, order, from) {
      assert o in order && o in es by {
        assert LookAtSlots(0);
      }
      var q: nat :| Reaches(h', ANYWHERE, to, q) && q in h' && o + ENTRY <= q < o + es'[o].memSize;
      OldBlockOldNode(h, h', base, size, rows, rows', es, order, w, e.memSize, at, o, q);
      assert Reaches(h, ANYWHERE, from, q);
      assert LeadsInto(h, es, from, o);
    }
  }

  // ---- taking a pending entry back ----

  /** Dropping the block of a pending entry leaves memory as it was before the entry was made. */
  lemma PendingDrops(h: Heap, h': Heap, base: seq<nat>, size: nat, rows: seq<seq<Tile>>, rows': seq<seq<Tile>>,
        ser: Serializer, es: Entries, order: seq<Ptr>, origin: map<Ptr, Source>, w: nat, at: nat, p: Ptr, e: Entry,
        src: Source)
    requires Keeping(h, base, size, rows, ser, es, order, origin)
    requires Pending(h, h', base, size, rows, rows', ser, es, order, w, at, p, e, src)
    ensures Without(h', p, p + e.memSize) == h && Dropped(es[p := e], p) == es
  {
    OwnedIsBacked(h, base, size, rows, es, order);
    ServedUnused(base, size, rows, rows', w, e.memSize, at, h);
    assert forall q :: q in h' && !(p <= q < p + e.memSize) <==> q in h;
  }

  /**
   * Nothing that linked entries or values handed out lead to lies in the block of a pending entry: neither when
   * the entry is made nor at any later moment `now`, whatever processes have done with memory of their own; so
   * that giving the block back takes nothing away.
   */
  lemma DropUnreached(h: Heap, h': Heap, base: seq<nat>, size: nat, rows: seq<seq<Tile>>, rows': seq<seq<Tile>>,
        ser: Serializer, es: Entries, order: seq<Ptr>, origin: map<Ptr, Source>, w: nat, at: nat, p: Ptr, e: Entry,
        src: Source, roots: seq<Zval>, now: Heap, q: Ptr)
    requires Keeping(h, base, size, rows, ser, es, order, origin)
    requires Pending(h, h', base, size, rows, rows', ser, es, order, w, at, p, e, src)
    requires AllInside(h, Region(base, size), roots)
    requires SharedKept(h, now, Region(base, size)) && Reaches(now, ANYWHERE, roots, q)
    ensures q < p || p + e.memSize <= q
  {
    ReachedOwned(h, Region(base, size), es, order, roots, now, q);
    OwnedIsBacked(h, base, size, rows, es, order);
    ServedUnused(base, size, rows, rows', w, e.memSize, at, h);
  }

  // ---- the header and the slots of the table ----

  /** Addresses [lo, hi) lie in an allocated block, and meet the block of no linked entry. */
  ghost predicate Reserved(base: seq<nat>, rows: seq<seq<Tile>>, lo: Ptr, hi: Ptr, es: Entries, order: seq<Ptr>) {
    forall z {:trigger LookAtLayout(z)} :: LookAtLayout(z) ==>
      && Housed(base, rows, lo, hi)
      && forall e {:trigger e in order} :: e in order ==> e in es && (e + es[e].memSize <= lo || hi <= e)
  }

  lemma ReservedSame(base: seq<nat>, rows: seq<seq<Tile>>, lo: Ptr, hi: Ptr, es: Entries, es': Entries, order: seq<Ptr>)
    requires Reserved(base, rows, lo, hi, es, order) && SameOwners(es, es')
    ensures Reserved(base, rows, lo, hi, es', order)
  {
    assert LookAtLayout(0);
  }

  /** A block handed out for an entry does not meet them either. */
  lemma ReservedMore(base: seq<nat>, size: nat, rows: seq<seq<Tile>>, rows': seq<seq<Tile>>, lo: Ptr, hi: Ptr,
        es: Entries, es': Entries, order: seq<Ptr>, w: nat, n: nat, at: nat, p: Ptr, e: Entry)
    requires Apart(base, size) && Tiled(rows, size) && |rows| == |base| && Served(rows, rows', w, n, at)
    requires Reserved(base, rows, lo, hi, es, order) && p !in es
    requires p == base[w] + rows[w][at].off + BLOCK && e.memSize == n && SameOwners(es[p := e], es')
    ensures Reserved(base, rows', lo, hi, es', order + [p])
  {
    assert LookAtLayout(0);
    var i, t :| Houses(base, rows, i, t, lo, hi);
    ServedKeeps(rows, rows', w, n, at, i, t);
    assert Houses(base, rows', i, t, lo, hi);
    HousedOutside(base, size, rows, w, at, i, t, lo, hi);
    ServedAdds(rows, rows', w, n, at);
    assert p + n <= base[w] + rows[w][at].off + rows[w][at].size;
    forall o | o in order + [p] ensures o in es' && (o + es'[o].memSize <= lo || hi <= o) {
      if o in order {
        assert o in es && es'[o].memSize == es[o].memSize;
      }
    }
  }

  /** No node in shared memory meets them. */
  lemma ReservedFromNodes(h: Heap, base: seq<nat>, size: nat, rows: seq<seq<Tile>>, lo: Ptr, hi: Ptr, es: Entries,
        order: seq<Ptr>, p: Ptr)
    requires Reserved(base, rows, lo, hi, es, order) && Owned(h, Region(base, size), es, order)
    requires p in h && Region(base, size).Contains(p)
    ensures p + NodeBytes(h[p]) <= lo || hi <= p
  {
    assert LookAtLayout(0);
    OwnerOf(h, Region(base, size), es, order, p);
    var e :| e in order && e in es && e + ENTRY <= p && p + NodeBytes(h[p]) <= e + es[e].memSize;
  }

  // ---- values handed out ----

  /** A value handed to a process when memory was `src.heap`: it leads into shared memory, or is PHP's empty array. */
  ghost predicate HandedOut(src: Source, r: Region, empty: Ptr) {
    && WellFormed(src.heap) && ShmClosed(src.heap, r)
    && (Inside(src.heap, r, src.val) || (src.val == Arr(empty) && IsEmptyArray(src.heap, empty)))
  }

  /** PHP's own empty array. */
  ghost predicate IsEmptyArray(h: Heap, empty: Ptr) {
    Typed(h, Arr(empty)) && h[empty].buckets == []
  }

  /** Of the memory from which a value was handed out, shared memory has only grown since. */
  ghost predicate Outstanding(handed: seq<Source>, h: Heap, r: Region, empty: Ptr) {
    forall z {:trigger LookAtProgress(z)} :: LookAtProgress(z) ==>
      forall i {:trigger handed[i]} :: 0 <= i < |handed| ==>
        HandedOut(handed[i], r, empty) && SharedKept(handed[i].heap, h, r)
  }

  lemma OutstandingStays(handed: seq<Source>, h: Heap, h': Heap, r: Region, empty: Ptr)
    requires Outstanding(handed, h, r, empty) && SharedKept(h, h', r)
    ensures Outstanding(handed, h', r, empty)
  {
    assert LookAtProgress(0);
    forall i | 0 <= i < |handed| ensures HandedOut(handed[i], r, empty) && SharedKept(handed[i].heap, h', r) {
      KeptTwice(handed[i].heap, h, h', r);
    }
  }

  lemma KeptTwice(a: Heap, b: Heap, c: Heap, r: Region)
    requires SharedKept(a, b, r) && SharedKept(b, c, r)
    ensures SharedKept(a, c, r)
  {
  }

  /** A value handed out means what it meant, whatever has happened outside shared memory. */
  lemma HandedMeans(src: Source, h: Heap, r: Region, empty: Ptr, n: nat)
    requires HandedOut(src, r, empty) && SharedKept(src.heap, h, r) && IsEmptyArray(h, empty)
    ensures Unfold(h, src.val, n) == Unfold(src.heap, src.val, n)
  {
    if Inside(src.heap, r, src.val) {
      UnfoldShared(src.heap, h, r, src.val, n);
    }
  }

  /** It leads to the nodes it led to then, unchanged, and all of them are owned by linked entries. */
  lemma HandedOwned(src: Source, h: Heap, r: Region, es: Entries, order: seq<Ptr>, empty: Ptr, p: Ptr)
    requires HandedOut(src, r, empty) && SharedKept(src.heap, h, r) && IsEmptyArray(h, empty)
    requires WellFormed(h) && ShmClosed(h, r) && Owned(h, r, es, order)
    requires Reaches(h, ANYWHERE, [src.val], p)
    ensures p in h && (p == empty || OwnedBy(es, order, p, p + NodeBytes(h[p])))
    ensures p != empty ==> Reaches(src.heap, ANYWHERE, [src.val], p) && p in src.heap && h[p] == src.heap[p]
    ensures p != empty ==> ShmNode(r, p, h[p])
  {
    if Inside(src.heap, r, src.val) {
      ReachesShared(src.heap, h, r, [src.val], p);
      OwnerOf(h, r, es, order, p);
    } else {
      EmptyEnds(h, empty, p);
    }
  }

  lemma EmptyEnds(h: Heap, empty: Ptr, p: Ptr)
    requires IsEmptyArray(h, empty) && Reaches(h, ANYWHERE, [Arr(empty)], p)
    ensures p == empty
  {
    var path :| Route(h, ANYWHERE, [Arr(empty)], path) && path[|path| - 1] == p;
    assert Points(ANYWHERE, [Arr(empty)], path[0]);
    assert path[0] == empty && Items(h[empty]) == [];
    if |path| > 1 {
      SecondStep(h, [Arr(empty)], path);
    }
  }
}
