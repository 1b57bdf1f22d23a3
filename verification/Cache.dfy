/** The cache run by one process at a time: persist, link, fetch. */
module Cache {
  import opened Focus
  import opened Layout
  import opened Options
  import opened Tiles
  import opened Segment
  import opened Pool
  import opened Values
  import opened Traversal
  import opened Trails
  import opened Copies
  import opened Outcomes
  import opened Leads
  import opened Housing
  import opened Persist
  import opened Store
  import opened Chains
  import opened Table
  import opened Ownership
  import opened Uses

  /** The entry at `p` as the persist engine left it. */
  function AsStored(p: Ptr, e: Entry): Stored {
    Stored(p, e.key, e.val, e.memSize)
  }

  /** Times and hits of an entry stored at time `t`. */
  predicate NewAt(e: Entry, t: int) {
    e.ctime == t && e.atime == t && e.nhits == 0
  }

  /** The counters after one more entry of `size` bytes. */
  function OneMore(n: Counters, size: nat): Counters {
    n.(inserts := n.inserts + 1, entries := n.entries + 1, memSize := n.memSize + size)
  }

  const PADDING: nat := 64

  /** The next multiple of the padding. */
  function AlignPadding(p: nat): (r: nat)
    ensures r % PADDING == 0 && p <= r < p + PADDING
  {
    (p + (PADDING - 1)) / PADDING * PADDING
  }

  /** Space for `size` bytes on a cache-line boundary, or 0 (immutable_cache_cache_alloc_aligned_header). */
  method AllocAlignedHeader(pool: Pool, size: nat) returns (at: nat, ghost which: nat, ghost tile: nat)
    requires pool.Valid() && size + PADDING + BLOCK + WORD <= SIZE_LIMIT
    modifies pool`last, pool.segs
    ensures pool.Valid()
    ensures at == 0 <==> NoRoom(old(pool.Rows()), size + PADDING)
    ensures at != 0 ==> Served(old(pool.Rows()), pool.Rows(), which, size + PADDING, tile) && which < |pool.base|
    ensures at != 0 ==>
      var block := pool.base[which] + old(pool.Rows())[which][tile].off + BLOCK;
      at % PADDING == 0 && block <= at && at + size < block + (size + PADDING)
  {
    var p, usable;
    p, usable, which, tile := pool.MallocEx(size + PADDING);
    at := AlignPadding(p);
  }

  /** A block just handed out goes back. */
  method TakeBack(pool: Pool, p: Ptr, ghost rows: seq<seq<Tile>>, ghost which: nat, ghost at: nat, ghost n: nat)
    requires pool.Valid() && Apart(pool.base, pool.size) && Tiled(rows, pool.size) && |rows| == |pool.base|
    requires Served(rows, pool.Rows(), which, n, at) && p == pool.base[which] + rows[which][at].off + BLOCK
    modifies pool.segs
    ensures pool.Valid() && pool.Rows() == rows
  {
    ServedUndone(pool.base, pool.size, rows, pool.Rows(), which, n, at);
    OneSegment(pool.base, pool.size, rows, which, at);
    pool.Free(p, which, at);
  }

  const HEADER_BYTES: nat := 56  // sizeof(immutable_cache_cache_header_t)
  const SLOT_BYTES: nat := 8

  class Cache {
    const pool: Pool
    const table: Table
    const configured: Option<Serializer>
    const php: Serializer
    const empty: Ptr                    // PHP's own empty array
    const header: Ptr                   // where the table's header lies, its slots behind it
    ghost var origin: map<Ptr, Source>  // what each linked entry was made from
    ghost var handed: seq<Source>       // values handed to processes, each with the memory it was found in

    /** An empty cache over memory in which no node lies yet. */
    constructor (pool: Pool, table: Table, header: Ptr, configured: Option<Serializer>, php: Serializer, empty: Ptr)
      requires pool.Valid() && table.Valid() && table.entries == map[] && table.order == []
      requires WellFormed(table.heap) && forall p :: p in table.heap ==> !Region(pool.base, pool.size).Contains(p)
      requires IsEmptyArray(table.heap, empty)
      requires Housed(pool.base, pool.Rows(), header, header + HEADER_BYTES + table.slots.Length * SLOT_BYTES)
      ensures Valid() && this.pool == pool && this.table == table && this.configured == configured && this.php == php
      ensures this.header == header && this.empty == empty && origin == map[] && handed == []
    {
      this.pool, this.table, this.configured, this.php, this.empty := pool, table, configured, php, empty;
      this.header, origin, handed := header, map[], [];
    }

    function Codec(): Serializer {
      Chosen(configured, php)
    }

    ghost predicate Kept()
      reads this, pool.segs, table
    {
      Keeping(table.heap, pool.base, pool.size, pool.Rows(), Codec(), table.entries, table.order, origin)
    }

    /** Where the header and the slots end. */
    function HeaderEnd(): Ptr {
      header + HEADER_BYTES + table.slots.Length * SLOT_BYTES
    }

    /** Header and slots have an allocated block of their own, and what was handed out is still as it was. */
    ghost predicate Clear()
      reads this, pool.segs, table
    {
      && Reserved(pool.base, pool.Rows(), header, HeaderEnd(), table.entries, table.order)
      && Outstanding(handed, table.heap, Region(pool.base, pool.size), empty)
    }

    ghost predicate Valid()
      reads this, pool, pool.segs, table, table.slots
    {
      && pool.Valid() && table.Valid() && Kept() && Clear()
      && IsEmptyArray(table.heap, empty)
    }

    /** Header and slots lie in an allocated block, clear of every entry's block and every node in shared memory. */
    lemma HeaderApart(p: Ptr)
      requires Kept() && Clear() && p in table.heap && Region(pool.base, pool.size).Contains(p)
      ensures Housed(pool.base, pool.Rows(), header, HeaderEnd())
      ensures forall e {:trigger e in table.order} :: e in table.order ==>
        e in table.entries && (e + table.entries[e].memSize <= header || HeaderEnd() <= e)
      ensures p + NodeBytes(table.heap[p]) <= header || HeaderEnd() <= p
    {
      assert LookAtLayout(0);
      ReservedFromNodes(table.heap, pool.base, pool.size, pool.Rows(), header, HeaderEnd(), table.entries, table.order,
                        p);
    }

    /**
     * A value handed out means what it meant then, whatever has been stored since and whatever processes have done
     * with memory of their own: it leads to the same nodes, none of which has changed, and each lies in the block
     * of an entry that is linked.
     */
    lemma HandedStays(i: nat)
      requires Kept() && Clear() && IsEmptyArray(table.heap, empty) && i < |handed|
      ensures forall n :: Unfold(table.heap, handed[i].val, n) == Unfold(handed[i].heap, handed[i].val, n)
      ensures forall p: nat {:trigger Reaches(table.heap, ANYWHERE, [handed[i].val], p)} ::
        Reaches(table.heap, ANYWHERE, [handed[i].val], p) && p != empty ==>
          && Reaches(handed[i].heap, ANYWHERE, [handed[i].val], p)
          && p in handed[i].heap && p in table.heap && table.heap[p] == handed[i].heap[p]
          && OwnedBy(table.entries, table.order, p, p + NodeBytes(table.heap[p]))
          && (table.heap[p].ArrNode? ==> SlotsInside(p, table.heap[p]))
    {
      var src, r := handed[i], Region(pool.base, pool.size);
      assert HandedOut(src, r, empty) && SharedKept(src.heap, table.heap, r) by {
        assert LookAtProgress(0);
      }
      forall n ensures Unfold(table.heap, src.val, n) == Unfold(src.heap, src.val, n) {
        HandedMeans(src, table.heap, r, empty, n);
      }
      forall p: nat | Reaches(table.heap, ANYWHERE, [src.val], p) && p != empty
        ensures Reaches(src.heap, ANYWHERE, [src.val], p)
        ensures p in src.heap && p in table.heap && table.heap[p] == src.heap[p]
        ensures OwnedBy(table.entries, table.order, p, p + NodeBytes(table.heap[p]))
        ensures table.heap[p].ArrNode? ==> SlotsInside(p, table.heap[p])
      {
        HandedOwned(src, table.heap, r, table.entries, table.order, empty, p);
      }
    }

    /**
     * What is stored under `key` stands for what it was made from in any memory `h` that has the nodes of shared
     * memory there are now.
     */
    lemma StoredStays(key: Bytes, h: Heap)
      requires table.Valid() && Kept() && key in table.table
      requires SharedKept(table.heap, h, Region(pool.base, pool.size))
      ensures
        var e := table.table[key];
        && e in table.entries && e in origin && Faithful(h, Codec(), table.entries[e].val, origin[e])
        && NameOf(h, table.entries, e) == key
        && (!table.entries[e].val.Serialized? ==>
          forall n :: Unfold(h, table.entries[e].val, n) == Unfold(origin[e].heap, origin[e].val, n))
    {
      BoundKept(key);
      EntryUnchanged(table.heap, pool.base, pool.size, pool.Rows(), Codec(), table.entries, table.order, origin, h,
                     table.table[key]);
      assert LookAtState(0);
      BoundListed(table.heap, table.entries, table.slots[..], table.chains, table.table, table.order, key);
    }

    /**
     * Processes do what they like with memory of their own: they make values, which may point to anything, fetched
     * values included, they change them and free them, and reuse their addresses.
     */
    method Build(h: Heap)
      requires Valid() && WellFormed(h) && SameShared(table.heap, h, Region(pool.base, pool.size))
      requires IsEmptyArray(h, empty)
      modifies table`heap
      ensures Valid() && table.heap == h
    {
      KeepingElsewhere(table.heap, h, pool.base, pool.size, pool.Rows(), Codec(), table.entries, table.order, origin);
      OutstandingStays(handed, table.heap, h, Region(pool.base, pool.size), empty);
      table.ChangeElsewhere(h);
    }

    /** Lookups do not touch the allocator, and count at most a hit or a miss. */
    method Find(key: Bytes, t: int) returns (e: Ptr)
      requires Valid()
      modifies table`entries, table`nhits, table`nmisses
      ensures Valid()
      ensures e == if key in table.table then table.table[key] else 0
      ensures e == 0 <==> key !in table.table
      ensures e != 0 ==> e in table.order && e in table.entries && e in origin
      ensures e != 0 ==> EntryKept(table.heap, Region(pool.base, pool.size), Codec(), e, table.entries[e], origin[e])
      ensures table.protect ==>
        table.entries == old(table.entries) && table.nhits == old(table.nhits) && table.nmisses == old(table.nmisses)
      ensures !table.protect && key in table.table ==>
        && e in old(table.entries) && table.nhits == old(table.nhits) + 1 && table.nmisses == old(table.nmisses)
        && table.entries ==
          old(table.entries)[e := old(table.entries)[e].(nhits := old(table.entries)[e].nhits + 1, atime := t)]
      ensures !table.protect && key !in table.table ==>
        && table.nmisses == old(table.nmisses) + 1 && table.nhits == old(table.nhits)
        && table.entries == old(table.entries)
    {
      ghost var es := table.entries;
      e := table.RlockedFind(key, t);
      StatsKeep(es);
      BoundKept(key);
    }

    /** Hits and access times do not matter for what the cache keeps. */
    lemma StatsKeep(es: Entries)
      requires Keeping(table.heap, pool.base, pool.size, pool.Rows(), Codec(), es, table.order, origin)
      requires Reserved(pool.base, pool.Rows(), header, HeaderEnd(), es, table.order)
      requires Outstanding(handed, table.heap, Region(pool.base, pool.size), empty)
      requires SameOwners(es, table.entries)
      ensures Kept() && Clear()
    {
      KeepingSame(table.heap, pool.base, pool.size, pool.Rows(), Codec(), es, table.entries, table.order, origin);
      ReservedSame(pool.base, pool.Rows(), header, HeaderEnd(), es, table.entries, table.order);
    }

    /** A bound entry is linked, and still stands for its source. */
    lemma BoundKept(key: Bytes)
      requires table.Valid() && Kept()
      ensures key in table.table ==>
        var e := table.table[key];
        && e != 0 && e in table.order && e in table.entries && e in origin
        && EntryKept(table.heap, Region(pool.base, pool.size), Codec(), e, table.entries[e], origin[e])
    {
      if key in table.table {
        assert LookAtState(0) && LookAtWalk(0);
        BoundListed(table.heap, table.entries, table.slots[..], table.chains, table.table, table.order, key);
      }
    }

    /** immutable_cache_cache_exists. */
    method Exists(key: Bytes) returns (b: bool)
      requires table.Valid()
      ensures b <==> key in table.table
    {
      var e := table.RlockedFindNostat(key);
      assert LookAtState(0);
      if key in table.table {
        BoundListed(table.heap, table.entries, table.slots[..], table.chains, table.table, table.order, key);
      }
      b := e != 0;
    }

    /** The binding of `key` was made from this. */
    ghost function MadeFrom(key: Bytes): Source
      reads this, table
    {
      if key in table.table && table.table[key] in origin then origin[table.table[key]] else Source(map[], Undef)
    }

    /** The serialized form stored under `key`, if the value was serialized. */
    function StoredForm(key: Ptr): Option<Bytes>
      reads table
    {
      if key in table.entries && table.entries[key].val.Serialized? then
        Some(BytesAt(table.heap, table.entries[key].val.p))
      else
        None
    }

    /**
     * immutable_cache_cache_fetch. A value stored as it is comes out meaning what was put in. Of a serialized
     * value the bytes are those its encoder made, and what their decoding gives comes out, NULL if it fails; so
     * that if decoding undoes encoding for this value, it too comes out meaning what was put in.
     */
    method Fetch(key: Bytes, t: int) returns (found: bool, h: Heap, v: Zval)
      requires Valid()
      modifies table`entries, table`nhits, table`nmisses, `handed
      ensures Valid()
      ensures key !in table.table ==> !found && handed == old(handed)
      ensures key in table.table ==> table.table[key] in origin
      ensures key in table.table && StoredForm(table.table[key]).None? ==>
        && found && h == table.heap && handed == old(handed) + [Source(h, v)]
        && forall n :: Unfold(h, v, n) == Unfold(MadeFrom(key).heap, MadeFrom(key).val, n)
      ensures key in table.table && StoredForm(table.table[key]).Some? ==>
        && handed == old(handed)
        && (configured.Some? ==>
          configured.value.encode(MadeFrom(key).heap, MadeFrom(key).val) == StoredForm(table.table[key]))
        && (configured.None? ==> php.encode(MadeFrom(key).heap, MadeFrom(key).val) == StoredForm(table.table[key]))
        && match (if configured.Some? then configured.value.decode(StoredForm(table.table[key]).value)
                  else php.decode(StoredForm(table.table[key]).value))
           case Some(out) => found && h == out.0 && v == out.1
           case None => !found && v == NULL_VALUE
      ensures key in table.table && RoundTrips(Codec(), MadeFrom(key).heap, MadeFrom(key).val) ==>
        found && forall n :: Unfold(h, v, n) == Unfold(MadeFrom(key).heap, MadeFrom(key).val, n)
      ensures table.protect ==>
        table.entries == old(table.entries) && table.nhits == old(table.nhits) && table.nmisses == old(table.nmisses)
      ensures !table.protect && key in table.table ==>
        var e := table.table[key];
        && e in old(table.entries) && table.nhits == old(table.nhits) + 1 && table.nmisses == old(table.nmisses)
        && table.entries ==
          old(table.entries)[e := old(table.entries)[e].(nhits := old(table.entries)[e].nhits + 1, atime := t)]
      ensures !table.protect && key !in table.table ==>
        && table.nmisses == old(table.nmisses) + 1 && table.nhits == old(table.nhits)
        && table.entries == old(table.entries)
    {
      var e := Find(key, t);
      if e == 0 {
        return false, table.heap, NULL_VALUE;
      }
      found, h, v := TakeOut(e);
    }

    /** The value of entry `e`, used in place or decoded. */
    method TakeOut(e: Ptr) returns (found: bool, h: Heap, v: Zval)
      requires Valid() && e in table.entries && e in origin
      requires EntryKept(table.heap, Region(pool.base, pool.size), Codec(), e, table.entries[e], origin[e])
      modifies `handed
      ensures Valid()
      ensures StoredForm(e).None? ==>
        && found && h == table.heap && handed == old(handed) + [Source(h, v)]
        && forall n :: Unfold(h, v, n) == Unfold(origin[e].heap, origin[e].val, n)
      ensures StoredForm(e).Some? ==>
        && Codec().encode(origin[e].heap, origin[e].val) == StoredForm(e) && handed == old(handed)
        && match Codec().decode(StoredForm(e).value)
           case Some(out) => found && h == out.0 && v == out.1
           case None => !found && v == NULL_VALUE
      ensures RoundTrips(Codec(), origin[e].heap, origin[e].val) ==>
        found && forall n :: Unfold(h, v, n) == Unfold(origin[e].heap, origin[e].val, n)
    {
      EntrySealed(table.heap, Region(pool.base, pool.size), table.entries[e].val);
      found, h, v := Unpersist(table.heap, table.entries[e].val, configured, php, empty);
      if !table.entries[e].val.Serialized? {
        HandOut(h, v, table.entries[e].val);
      }
    }

    /** A value is handed to a process. */
    ghost method HandOut(h: Heap, v: Zval, w: Zval)
      requires Valid() && h == table.heap
      requires Typed(h, w) && !Stops(w) && (Follows(w) ==> Region(pool.base, pool.size).Contains(w.p))
      requires v == w || v == Arr(empty)
      modifies `handed
      ensures Valid() && handed == old(handed) + [Source(h, v)]
    {
      assert Outstanding(handed + [Source(h, v)], h, Region(pool.base, pool.size), empty) by {
        assert LookAtProgress(0);
      }
      handed := handed + [Source(h, v)];
    }

    /** The plan for storing `v` under the string at `key`. */
    ghost function PlanFor(key: Ptr, v: Zval): Plan
      reads table
    {
      PlanOf(table.heap, Region(pool.base, pool.size), configured.Some?, Codec(), key, v)
    }

    ghost function SizeFor(key: Ptr, v: Zval): nat
      reads table
    {
      PlanSize(table.heap, Region(pool.base, pool.size), key, v, PlanFor(key, v))
    }

    /** A resource, or an array in which one comes first, or something the serializer in use gives no bytes for. */
    ghost predicate Refuses(v: Zval)
      reads table
    {
      CannotStore(table.heap, Region(pool.base, pool.size), configured.Some?,
                  if configured.Some? then configured.value else php, v)
    }

    /** The persist engine at work beside the table. */
    method PersistStep(key: Ptr, v: Zval) returns (r: Option<Stored>, h: Heap, ghost which: nat, ghost at: nat)
      requires pool.Valid() && table.Valid() && SoundHeap(table.heap, pool.base, pool.size, pool.Rows())
      requires Typed(table.heap, Str(key)) && Typed(table.heap, v) && Storable(v)
      requires SizeFor(key, v) + BLOCK + WORD <= SIZE_LIMIT
      modifies pool`last, pool.segs
      ensures pool.Valid() && table.Valid()
      ensures r.Some? ==> Apart(pool.base, pool.size) && Tiled(old(pool.Rows()), pool.size)
      ensures Settles(table.heap, h, pool.base, pool.size, old(pool.Rows()), pool.Rows(), key, v, PlanFor(key, v), r,
        which, at)
      ensures AsDecided(table.heap, h, Region(pool.base, pool.size), configured, php, key, v, r)
      ensures r.None? <==> Refuses(v) || NoRoom(old(pool.Rows()), SizeFor(key, v))
    {
      r, h, which, at := PersistEntry(pool, configured, php, table.heap, key, v);
    }

    /** The table at work beside the allocator. */
    method AdmitStep(h: Heap, p: Ptr, e: Entry)
      requires pool.Valid() && table.Valid() && p != 0 && p !in table.entries && KeyReady(h, e)
      requires Extends(table.heap, h)
      modifies table`heap, table`entries
      ensures pool.Valid() && pool.Rows() == old(pool.Rows())
      ensures table.Valid() && table.heap == h && table.entries == old(table.entries)[p := e] && table.Loose(p)
    {
      table.Admit(h, p, e);
    }

    method InsertStep(p: Ptr) returns (ok: bool)
      requires pool.Valid() && table.Valid() && table.Loose(p) && p in table.entries && table.entries[p].nhits == 0
      modifies table`entries, table`ninserts, table`nentries, table`memSize, table`chains, table`table, table`order,
        table.slots
      ensures pool.Valid() && pool.Rows() == old(pool.Rows()) && table.Valid()
      ensures ok <==> NameOf(table.heap, old(table.entries), p) !in old(table.table)
      ensures ok ==> table.table == old(table.table)[NameOf(table.heap, old(table.entries), p) := p]
      ensures ok ==> table.order == old(table.order) + [p] && SameOwners(old(table.entries), table.entries)
      ensures ok ==> p in table.entries && table.entries[p].(next := 0) == old(table.entries)[p].(next := 0)
      ensures ok ==> SameButLinks(old(table.entries), table.entries)
      ensures ok ==> table.Header() == OneMore(old(table.Header()), old(table.entries)[p].memSize)
      ensures !ok ==>
        table.entries == old(table.entries) && table.table == old(table.table) &&
        table.order == old(table.order)
      ensures !ok ==>
        table.chains == old(table.chains) && table.slots[..] == old(table.slots[..]) &&
        table.Header() == old(table.Header())
    {
      ghost var es := table.entries;
      ok := table.WlockedInsertExclusive(p);
      if ok {
        assert LookAtSlots(0);
        forall q | q in es ensures table.entries[q].(next := 0) == es[q].(next := 0) {
        }
      }
    }

    /** The entry appears in memory and is linked, if its key is not bound. */
    method LinkStep(p: Ptr, h: Heap, e: Entry) returns (ok: bool)
      requires pool.Valid() && table.Valid() && p != 0 && p !in table.entries && KeyReady(h, e) && e.nhits == 0
      requires Extends(table.heap, h)
      modifies table, table.slots
      ensures pool.Valid() && pool.Rows() == old(pool.Rows()) && |table.chains| == table.slots.Length > 0
      ensures ok <==> BytesAt(h, e.key) !in old(table.table)
      ensures ok ==> table.Valid() && table.heap == h && table.table == old(table.table)[BytesAt(h, e.key) := p]
      ensures ok ==> table.order == old(table.order) + [p] && SameOwners(old(table.entries)[p := e], table.entries)
      ensures ok ==> p in table.entries && table.entries[p].(next := 0) == e.(next := 0)
      ensures ok ==> SameButLinks(old(table.entries)[p := e], table.entries)
      ensures ok ==> table.Header() == OneMore(old(table.Header()), e.memSize)
      ensures !ok ==>
        table.table == old(table.table) && table.order == old(table.order) &&
        table.Header() == old(table.Header())
      ensures !ok ==> table.heap == h && table.entries == old(table.entries)[p := e]
      ensures !ok ==> InOrder(old(table.heap), old(table.entries), table.slots[..], table.chains, table.table,
        table.order, table.Header())
    {
      AdmitStep(h, p, e);
      ok := InsertStep(p);
    }

    /** The table does not need entry `p`, nor anything in its block. */
    ghost predicate Dispensable(p: Ptr)
      reads table, table.slots
    {
      && p in table.entries && |table.chains| == table.slots.Length > 0
      && InOrder(Without(table.heap, p, p + table.entries[p].memSize), Dropped(table.entries, p), table.slots[..],
                 table.chains, table.table, table.order, table.Header())
    }

    /** free_entry: the block goes back, and with it whatever lies in it. */
    method FreeEntry(p: Ptr, ghost rows: seq<seq<Tile>>, ghost which: nat, ghost at: nat, ghost n: nat)
      requires pool.Valid() && Apart(pool.base, pool.size) && Tiled(rows, pool.size) && |rows| == |pool.base|
      requires Served(rows, pool.Rows(), which, n, at) && p == pool.base[which] + rows[which][at].off + BLOCK
      requires Dispensable(p)
      modifies pool.segs, table`heap, table`entries
      ensures pool.Valid() && pool.Rows() == rows
      ensures table.Valid() && table.entries == Dropped(old(table.entries), p)
      ensures table.heap == Without(old(table.heap), p, p + old(table.entries)[p].memSize)
    {
      DiscardStep(p);
      GiveBack(p, rows, which, at, n);
    }

    method GiveBack(p: Ptr, ghost rows: seq<seq<Tile>>, ghost which: nat, ghost at: nat, ghost n: nat)
      requires pool.Valid() && table.Valid() && Apart(pool.base, pool.size)
      requires Tiled(rows, pool.size) && |rows| == |pool.base|
      requires Served(rows, pool.Rows(), which, n, at) && p == pool.base[which] + rows[which][at].off + BLOCK
      modifies pool.segs
      ensures pool.Valid() && pool.Rows() == rows && table.Valid()
    {
      TakeBack(pool, p, rows, which, at, n);
    }

    method DiscardStep(p: Ptr)
      requires pool.Valid() && Dispensable(p)
      modifies table`heap, table`entries
      ensures pool.Valid() && pool.Rows() == old(pool.Rows())
      ensures table.Valid() && table.entries == Dropped(old(table.entries), p)
      ensures table.heap == Without(old(table.heap), p, p + old(table.entries)[p].memSize)
    {
      table.Discard(p, p + table.entries[p].memSize);
    }

    /** The table as it was when the pending entry was turned down does not need it. */
    lemma PendingDispensable(p: Ptr, h0: Heap, es0: Entries, h: Heap, e: Entry)
      requires table.heap == h && table.entries == es0[p := e] && |table.chains| == table.slots.Length > 0
      requires Without(h, p, p + e.memSize) == h0 && Dropped(es0[p := e], p) == es0
      requires InOrder(h0, es0, table.slots[..], table.chains, table.table, table.order, table.Header())
      ensures Dispensable(p)
      ensures Without(table.heap, p, p + table.entries[p].memSize) == h0 && Dropped(table.entries, p) == es0
    {
      assert table.entries[p].memSize == e.memSize;
      assert Without(table.heap, p, p + table.entries[p].memSize) == h0;
      assert Dropped(table.entries, p) == es0;
    }

    /** The pending entry is turned down: memory and entries are again as they were before it was made. */
    method Reject(p: Ptr, ghost h0: Heap, ghost es0: Entries, ghost h: Heap, ghost e: Entry, ghost rows: seq<seq<Tile>>,
          ghost which: nat, ghost at: nat)
      requires pool.Valid() && Apart(pool.base, pool.size) && Tiled(rows, pool.size) && |rows| == |pool.base|
      requires Served(rows, pool.Rows(), which, e.memSize, at) && p == pool.base[which] + rows[which][at].off + BLOCK
      requires table.heap == h && table.entries == es0[p := e] && |table.chains| == table.slots.Length > 0
      requires Without(h, p, p + e.memSize) == h0 && Dropped(es0[p := e], p) == es0
      requires InOrder(h0, es0, table.slots[..], table.chains, table.table, table.order, table.Header())
      modifies pool.segs, table`heap, table`entries
      ensures pool.Valid() && pool.Rows() == rows
      ensures table.Valid() && table.heap == h0 && table.entries == es0
    {
      PendingDispensable(p, h0, es0, h, e);
      FreeEntry(p, rows, which, at, e.memSize);
    }

    /**
     * immutable_cache_cache_store: the value is bound exactly when it can be stored, some segment has room
     * and the key is not bound yet. A store that fails leaves memory, table and allocator as they were.
     */
    method Store(key: Ptr, v: Zval, t: int) returns (ok: bool)
      requires Valid() && Typed(table.heap, Str(key)) && Typed(table.heap, v) && Storable(v)
      requires SizeFor(key, v) + BLOCK + WORD <= SIZE_LIMIT
      modifies pool`last, pool.segs, table, table.slots, `origin
      ensures Valid()
      ensures ok <==>
        && !old(Refuses(v)) && !NoRoom(old(pool.Rows()), old(SizeFor(key, v)))
        && BytesAt(old(table.heap), key) !in old(table.table)
      ensures
        var h, r := old(table.heap), Region(pool.base, pool.size);
        v.Arr? && configured.None? && HasResource(h, r, key, v) && !HasMutable(h, r, key, v) ==> !ok
      ensures ok ==>
        var name := BytesAt(old(table.heap), key);
        && name in table.table && table.table == old(table.table)[name := table.table[name]]
        && origin == old(origin)[table.table[name] := Source(old(table.heap), v)]
        && table.table[name] !in old(table.entries) && Extends(old(table.heap), table.heap)
        && table.table[name] in table.entries && NewAt(table.entries[table.table[name]], t)
        && table.entries[table.table[name]].memSize == old(SizeFor(key, v))
        && AsDecided(old(table.heap), table.heap, Region(pool.base, pool.size), configured, php, key, v,
                     Some(AsStored(table.table[name], table.entries[table.table[name]])))
      ensures ok ==>
        var n, n' := old(table.Header()), table.Header();
        && n'.hits == n.hits && n'.misses == n.misses && n'.inserts == n.inserts + 1 && n'.entries == n.entries + 1
        && n'.memSize == n.memSize + old(SizeFor(key, v))
      ensures ok ==> forall q :: q in old(table.entries) ==>
        q in table.entries && table.entries[q].(next := 0) == old(table.entries)[q].(next := 0)
      ensures ok ==>
        var p := table.table[BytesAt(old(table.heap), key)];
        && p in table.entries
        && UsesOf(table.heap, table.entries, table.order, Roots(table.entries[p].key, table.entries[p].val))
           <= old(UsesOf(table.heap, table.entries, table.order, [Str(key), v])) + {p}
      ensures !ok ==> table.table == old(table.table) && origin == old(origin) && table.heap == old(table.heap)
      ensures !ok ==>
        table.entries == old(table.entries) && pool.Rows() == old(pool.Rows()) &&
        table.Header() == old(table.Header())
    {
      ghost var h0, es0, rows0, order0, origin0 := table.heap, table.entries, pool.Rows(), table.order, origin;
      KeepingSound(h0, pool.base, pool.size, rows0, Codec(), es0, order0, origin0);
      var r, h;
      ghost var which, at;
      r, h, which, at := PersistStep(key, v);
      if r.None? {
        return false;
      }
      PersistedPending(h0, h, pool.base, pool.size, rows0, pool.Rows(), configured.Some?, Codec(), es0, order0, origin0,
                       which, at, key, v, r, t);
      ghost var rows, e := pool.Rows(), FreshEntry(r.value, t);
      ok := Publish(r.value.at, h, FreshEntry(r.value, t), rows0, which, at, Source(h0, v));
      if ok {
        OthersSame(es0, r.value.at, e, table.entries);
        NewUses(h0, h, pool.base, pool.size, rows0, rows, Codec(), es0, table.entries, order0, origin0, which, at,
                r.value.at, e, Source(h0, v), [Str(key), v]);
      }
    }

    /** The pending entry is linked, or given back. */
    method Publish(p: Ptr, h: Heap, e: Entry, ghost rows: seq<seq<Tile>>, ghost which: nat, ghost at: nat,
          ghost src: Source) returns (ok: bool)
      requires pool.Valid() && table.Valid()
      requires Keeping(table.heap, pool.base, pool.size, rows, Codec(), table.entries, table.order, origin)
      requires Pending(table.heap, h, pool.base, pool.size, rows, pool.Rows(), Codec(), table.entries, table.order,
        which, at, p, e, src)
      requires Reserved(pool.base, rows, header, HeaderEnd(), table.entries, table.order)
      requires Outstanding(handed, table.heap, Region(pool.base, pool.size), empty)
      requires p != 0 && KeyReady(h, e) && e.nhits == 0
      requires IsEmptyArray(table.heap, empty)
      modifies pool.segs, table, table.slots, `origin
      ensures Valid()
      ensures ok <==> BytesAt(h, e.key) !in old(table.table)
      ensures ok ==> table.table == old(table.table)[BytesAt(h, e.key) := p] && origin == old(origin)[p := src]
      ensures ok ==> p !in old(table.entries) && table.heap == h && Extends(old(table.heap), h)
      ensures ok ==> p in table.entries && table.entries[p].(next := 0) == e.(next := 0)
      ensures ok ==> table.order == old(table.order) + [p] && SameOwners(old(table.entries)[p := e], table.entries)
      ensures ok ==> SameButLinks(old(table.entries)[p := e], table.entries)
      ensures ok ==> table.Header() == OneMore(old(table.Header()), e.memSize)
      ensures !ok ==> table.table == old(table.table) && origin == old(origin) && table.heap == old(table.heap)
      ensures !ok ==>
        table.entries == old(table.entries) && pool.Rows() == rows &&
        table.Header() == old(table.Header())
      ensures !ok ==> table.order == old(table.order)
    {
      ghost var h0, es0, order0, origin0 := table.heap, table.entries, table.order, origin;
      PendingDrops(h0, h, pool.base, pool.size, rows, pool.Rows(), Codec(), es0, order0, origin0, which, at, p, e, src);
      ok := LinkStep(p, h, e);
      if ok {
        NoteOrigin(p, src);
        PendingLinked(h0, h, rows, es0, order0, origin0, which, at, p, e, src);
      } else {
        Reject(p, h0, es0, h, e, rows, which, at);
      }
    }

    ghost method NoteOrigin(p: Ptr, src: Source)
      requires pool.Valid() && table.Valid()
      modifies `origin
      ensures pool.Valid() && table.Valid() && pool.Rows() == old(pool.Rows()) && origin == old(origin)[p := src]
    {
      origin := origin[p := src];
    }

    /**
     * With the pending entry linked, the cache is in order again; header, slots and values handed out are as before.
     */
    lemma PendingLinked(h0: Heap, h: Heap, rows: seq<seq<Tile>>, es0: Entries, order0: seq<Ptr>,
          origin0: map<Ptr, Source>, which: nat, at: nat, p: Ptr, e: Entry, src: Source)
      requires Keeping(h0, pool.base, pool.size, rows, Codec(), es0, order0, origin0)
      requires Pending(h0, h, pool.base, pool.size, rows, pool.Rows(), Codec(), es0, order0, which, at, p, e, src)
      requires Reserved(pool.base, rows, header, HeaderEnd(), es0, order0)
      requires Outstanding(handed, h0, Region(pool.base, pool.size), empty)
      requires table.heap == h && SameOwners(es0[p := e], table.entries)
      requires table.order == order0 + [p] && origin == origin0[p := src]
      ensures Kept() && Clear()
    {
      PendingKeeps(h0, h, pool.base, pool.size, rows, pool.Rows(), Codec(), es0, table.entries, order0, table.order,
                   origin0, origin, which, at, p, e, src);
      ReservedMore(pool.base, pool.size, rows, pool.Rows(), header, HeaderEnd(), es0, table.entries, order0, which,
                   e.memSize, at, p, e);
      OutstandingStays(handed, h0, h, Region(pool.base, pool.size), empty);
    }
  }

  /** Every other entry is as it was, its link aside. */
  lemma OthersSame(es: Entries, p: Ptr, e: Entry, es': Entries)
    requires p !in es && SameButLinks(es[p := e], es')
    ensures forall q :: q in es ==> q in es' && es'[q].(next := 0) == es[q].(next := 0)
    ensures p in es' && es'[p].(next := 0) == e.(next := 0)
  {
    assert LookAtSlots(0);
    forall q | q in es ensures q in es' && es'[q].(next := 0) == es[q].(next := 0) {
      assert es[p := e][q] == es[q];
    }
  }

  /** An entry's value in shared memory carries the flags that unpersisting expects. */
  lemma EntrySealed(h: Heap, r: Region, w: Zval)
    requires ShmClosed(h, r) && (Follows(w) ==> Typed(h, w) && r.Contains(w.p))
    ensures Sealed(h, w)
  {
    if Follows(w) {
      assert ShmNode(r, w.p, h[w.p]);
    }
  }

  /**
   * immutable_cache_cache_create: the header and `nslots` slots go to the start of a cache line in a block of
   * their own; without room for them there is no cache.
   */
  method Create(pool: Pool, nslots: nat, protect: bool, heap: Heap, configured: Option<Serializer>, php: Serializer,
        empty: Ptr) returns (cache: Option<Cache>)
    requires pool.Valid() && nslots > 0 && HEADER_BYTES + nslots * SLOT_BYTES + PADDING + BLOCK + WORD <= SIZE_LIMIT
    requires WellFormed(heap) && forall p :: p in heap ==> !Region(pool.base, pool.size).Contains(p)
    requires IsEmptyArray(heap, empty)
    modifies pool`last, pool.segs
    ensures cache.None? <==> NoRoom(old(pool.Rows()), HEADER_BYTES + nslots * SLOT_BYTES + PADDING)
    ensures cache.Some? ==>
      var c := cache.value;
      && fresh(c) && fresh(c.table) && fresh(c.table.slots) && c.Valid() && c.pool == pool && c.table.heap == heap
      && c.table.table == map[] && c.table.slots.Length == nslots && c.table.protect == protect
      && c.configured == configured && c.php == php && c.empty == empty && c.origin == map[] && c.handed == []
      && c.table.Header() == Counters(0, 0, 0, 0, 0)
      && c.header % PADDING == 0
  {
    var header := PlaceHeader(pool, HEADER_BYTES + nslots * SLOT_BYTES);
    if header == 0 {
      return None;
    }
    var c := Assemble(pool, header, nslots, protect, heap, configured, php, empty);
    cache := Some(c);
  }

  /** Room for the header and the slots in a block of their own. */
  method PlaceHeader(pool: Pool, n: nat) returns (header: Ptr)
    requires pool.Valid() && n + PADDING + BLOCK + WORD <= SIZE_LIMIT
    modifies pool`last, pool.segs
    ensures pool.Valid()
    ensures header == 0 <==> NoRoom(old(pool.Rows()), n + PADDING)
    ensures header != 0 ==> header % PADDING == 0 && Housed(pool.base, pool.Rows(), header, header + n)
  {
    ghost var which, at;
    ghost var rows := pool.Rows();
    header, which, at := AllocAlignedHeader(pool, n);
    if header != 0 {
      HeaderHoused(pool.base, rows, pool.Rows(), which, n, at, header);
    }
  }

  /** Header and slots, zeroed, and the cache on top of them. */
  method Assemble(pool: Pool, header: Ptr, nslots: nat, protect: bool, heap: Heap, configured: Option<Serializer>,
        php: Serializer, empty: Ptr) returns (c: Cache)
    requires pool.Valid() && nslots > 0
    requires WellFormed(heap) && forall p :: p in heap ==> !Region(pool.base, pool.size).Contains(p)
    requires IsEmptyArray(heap, empty)
    requires Housed(pool.base, pool.Rows(), header, header + HEADER_BYTES + nslots * SLOT_BYTES)
    ensures fresh(c) && fresh(c.table) && fresh(c.table.slots) && c.Valid() && c.pool == pool && c.table.heap == heap
    ensures c.table.table == map[] && c.table.slots.Length == nslots && c.header == header
    ensures c.configured == configured && c.php == php && c.empty == empty && c.table.protect == protect
    ensures c.origin == map[] && c.handed == [] && c.table.Header() == Counters(0, 0, 0, 0, 0)
  {
    var table := NewTableBeside(pool, nslots, protect, heap);
    c := new Cache(pool, table, header, configured, php, empty);
  }

  method NewTableBeside(pool: Pool, nslots: nat, protect: bool, heap: Heap) returns (table: Table)
    requires pool.Valid() && nslots > 0
    ensures pool.Valid() && pool.Rows() == old(pool.Rows())
    ensures fresh(table) && table.Valid() && fresh(table.slots) && table.slots.Length == nslots
    ensures table.heap == heap && table.entries == map[] && table.table == map[] && table.order == []
    ensures table.protect == protect && table.Header() == Counters(0, 0, 0, 0, 0)
  {
    table := new Table(nslots, protect, heap);
  }

  lemma HeaderHoused(base: seq<nat>, rows: seq<seq<Tile>>, rows': seq<seq<Tile>>, w: nat, n: nat, at: nat, header: Ptr)
    requires w < |base| && Served(rows, rows', w, n + PADDING, at)
    requires
      var block := base[w] + rows[w][at].off + BLOCK;
      block <= header && header + n < block + (n + PADDING)
    ensures Housed(base, rows', header, header + n)
  {
    ServedAdds(rows, rows', w, n + PADDING, at);
    assert Houses(base, rows', w, ServedTile(rows, w, n + PADDING, at), header, header + n);
  }
}
