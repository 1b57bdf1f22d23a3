/** What a finished copy pass leaves in memory: well-formed nodes, closed under pointers, side by side in one block. */
module Outcomes {
  import opened Focus
  import opened Layout
  import opened Values
  import opened Traversal
  import opened Memo
  import opened Copies
  import opened Placement

  // ---- shared memory points only into shared memory, and is marked as never to be freed ----

  ghost predicate ShmNode(r: Region, p: Ptr, n: Node) {
    match n
    case StrNode(bytes, hash, interned) => interned && hash == HashOf(bytes)
    case ArrNode(_, _, _, _, _, _, _, immutable) =>
      immutable && SlotsInside(p, n) && forall v :: v in Items(n) ==> !Stops(v) && (Follows(v) ==> r.Contains(v.p))
    case BoxNode(_, _) => false
  }

  ghost predicate ShmClosed(h: Heap, r: Region) {
    forall p {:trigger ShmNode(r, p, h[p])} :: p in h && r.Contains(p) ==> ShmNode(r, p, h[p])
  }

  // ---- items of a copy ----

  lemma {:induction false} MovedItems(r: Region, moved: map<Ptr, Ptr>, packed: bool, bs: seq<Bucket>,
        bs': seq<Bucket>, i: nat, v': Zval)
    requires |bs'| == |bs| && i <= |bs|
    requires forall k :: i <= k < |bs| ==> bs'[k] == MovedSlot(r, moved, packed, bs[k])
    requires forall k :: i <= k < |bs| && !packed && bs[k].key != 0 && !bs[k].val.Undef? ==> bs'[k].key != 0
    requires v' in ItemsFrom(packed, bs', i)
    ensures exists v :: v in ItemsFrom(packed, bs, i) && v' == MovedVal(r, moved, v)
    decreases |bs| - i
  {
    if v' in SlotItems(packed, bs'[i]) {
      var b := bs[i];
      assert !b.val.Undef?;
      if v' == MovedVal(r, moved, b.val) {
        assert b.val in SlotItems(packed, b) && b.val in ItemsFrom(packed, bs, i);
      } else {
        assert v' == MovedVal(r, moved, Str(b.key));
        assert Str(b.key) in SlotItems(packed, b) && Str(b.key) in ItemsFrom(packed, bs, i);
      }
    } else {
      MovedItems(r, moved, packed, bs, bs', i + 1, v');
      var v :| v in ItemsFrom(packed, bs, i + 1) && v' == MovedVal(r, moved, v);
      assert v in ItemsFrom(packed, bs, i);
    }
  }

  lemma {:induction false} SameLive(bs: seq<Bucket>, bs': seq<Bucket>)
    requires |bs'| == |bs| && forall k :: 0 <= k < |bs| ==> bs'[k].val.Undef? == bs[k].val.Undef?
    ensures LiveSlots(bs') == LiveSlots(bs)
  {
    if bs != [] {
      SameLive(bs[..|bs| - 1], bs'[..|bs| - 1]);
    }
  }

  lemma TypedExtends(src: Heap, dst: Heap, n: Node)
    requires Extends(src, dst) && NodeTyped(src, n)
    ensures NodeTyped(dst, n)
  {
  }

  /** A moved value is of the same kind and, the block being part of shared memory, leads into shared memory. */
  lemma MovedTyped(src: Heap, dst: Heap, r: Region, moved: map<Ptr, Ptr>, v: Zval)
    requires CopiedGraph(src, dst, r, moved) && Typed(src, v) && Known(r, moved, v)
    requires forall q :: q in moved ==> r.Contains(moved[q])
    ensures Typed(dst, MovedVal(r, moved, v)) && !Stops(MovedVal(r, moved, v))
    ensures Follows(v) ==> r.Contains(MovedVal(r, moved, v).p)
  {
  }

  lemma ItemsKnown(r: Region, moved: map<Ptr, Ptr>, packed: bool, bs: seq<Bucket>, i: nat, v: Zval)
    requires i <= |bs| && v in ItemsFrom(packed, bs, i)
    requires forall k :: i <= k < |bs| ==> SlotKnown(r, moved, packed, bs[k])
    ensures Known(r, moved, v)
    decreases |bs| - i
  {
    if v !in SlotItems(packed, bs[i]) {
      ItemsKnown(r, moved, packed, bs, i + 1, v);
    }
  }

  lemma CopyTyped(src: Heap, dst: Heap, r: Region, moved: map<Ptr, Ptr>, p: Ptr)
    requires CopiedGraph(src, dst, r, moved) && p in moved
    requires forall q :: q in moved ==> r.Contains(moved[q])
    ensures p in src && moved[p] in dst && NodeTyped(dst, dst[moved[p]]) && ShmNode(r, moved[p], dst[moved[p]])
  {
    assert Finished(src, dst, r, moved, p);
    assert NodeTyped(src, src[p]);
    if src[p].ArrNode? {
      ArrayTyped(src, dst, r, moved, p);
    }
  }

  lemma ArrayTyped(src: Heap, dst: Heap, r: Region, moved: map<Ptr, Ptr>, p: Ptr)
    requires CopiedGraph(src, dst, r, moved) && p in moved && src[p].ArrNode?
    requires forall q :: q in moved ==> r.Contains(moved[q])
    ensures moved[p] in dst && NodeTyped(dst, dst[moved[p]]) && ShmNode(r, moved[p], dst[moved[p]])
  {
    assert Finished(src, dst, r, moved, p);
    assert NodeTyped(src, src[p]);
    SameLive(src[p].buckets, dst[moved[p]].buckets);
    forall v' | v' in Items(dst[moved[p]]) ensures Typed(dst, v') && !Stops(v') && (Follows(v') ==> r.Contains(v'.p)) {
      var v := CopiedItem(src, dst, r, moved, p, v');
      MovedTyped(src, dst, r, moved, v);
    }
  }

  /** Whatever a copied array holds, the original held, moved. */
  lemma CopiedItem(src: Heap, dst: Heap, r: Region, moved: map<Ptr, Ptr>, p: Ptr, v': Zval) returns (v: Zval)
    requires CopiedGraph(src, dst, r, moved) && p in moved && p in src && src[p].ArrNode?
    requires moved[p] in dst && v' in Items(dst[moved[p]])
    ensures v in Items(src[p]) && v' == MovedVal(r, moved, v) && Typed(src, v) && Known(r, moved, v)
  {
    assert Finished(src, dst, r, moved, p);
    assert NodeTyped(src, src[p]);
    var n, n' := src[p], dst[moved[p]];
    var bs, bs' := n.buckets, n'.buckets;
    forall k | 0 <= k < |bs| && !n.packed && bs[k].key != 0 && !bs[k].val.Undef? ensures bs'[k].key != 0 {
      assert SlotKnown(r, moved, n.packed, bs[k]);
      assert Str(bs[k].key) in SlotItems(n.packed, bs[k]);
      SlotTyped(src, p, k);
      KeyStays(src, dst, r, moved, bs[k].key);
    }
    MovedItems(r, moved, n.packed, bs, bs', 0, v');
    v :| v in ItemsFrom(n.packed, bs, 0) && v' == MovedVal(r, moved, v);
    ItemsKnown(r, moved, n.packed, bs, 0, v);
  }

  /** Source and copies together are well formed and closed again. */
  lemma CopiedWellFormed(src: Heap, dst: Heap, r: Region, moved: map<Ptr, Ptr>)
    requires CopiedGraph(src, dst, r, moved) && OnlyCopies(src, dst, moved) && ShmClosed(src, r)
    requires forall q :: q in moved ==> r.Contains(moved[q]) && 0 < moved[q] < SIZE_LIMIT
    ensures WellFormed(dst) && ShmClosed(dst, r)
  {
    forall q | q in dst
      ensures 0 < q < SIZE_LIMIT && NodeTyped(dst, dst[q]) && (r.Contains(q) ==> ShmNode(r, q, dst[q]))
    {
      if q in src {
        assert NodeTyped(src, src[q]);
        TypedExtends(src, dst, src[q]);
        assert r.Contains(q) ==> ShmNode(r, q, src[q]);
      } else {
        assert q in moved.Values;
        var p :| p in moved && moved[p] == q;
        CopyTyped(src, dst, r, moved, p);
      }
    }
  }

  // ---- side by side ----

  /** Copies follow one another without overlap, behind the entry and inside the block. */
  lemma SideBySide(h: Heap, alloc: Ptr, ps: seq<Ptr>, k: nat, l: nat)
    requires k < |ps|
    ensures alloc + ENTRY <= Place(h, alloc, ps, k)
    ensures k < l < |ps| ==> Place(h, alloc, ps, k) + BytesOf(h, ps[k]) <= Place(h, alloc, ps, l)
    ensures Place(h, alloc, ps, k) + BytesOf(h, ps[k]) <= alloc + ENTRY + TotalBytes(h, ps)
  {
    assert ps[..k] + [ps[k]] == ps[..k + 1];
    TotalMore(h, ps[..k], ps[k]);
    TotalPrefix(h, ps[..k + 1], ps);
    if k < l < |ps| {
      TotalPrefix(h, ps[..k + 1], ps[..l]);
    }
  }

  /** Every node added lies in [lo, hi) with all its bytes. */
  ghost predicate AddedIn(src: Heap, dst: Heap, lo: Ptr, hi: Ptr) {
    forall q {:trigger q in dst} :: q in dst && q !in src ==> lo <= q < hi && q + NodeBytes(dst[q]) <= hi
  }

  /** The pass is over: every node of the walk has its copy, in order, and the block is used up. */
  ghost predicate Done(j: Job, s: Snap) {
    && s.placed == j.goal && s.cur == j.alloc + j.size
    && CopiedGraph(j.src, s.heap, j.region, s.moved)
    && OnlyCopies(j.src, s.heap, s.moved)
    && InPlace(j.src, j.alloc, j.goal, s.moved)
  }

  lemma DoneAddedIn(j: Job, s: Snap)
    requires Done(j, s) && j.size == ENTRY + TotalBytes(j.src, j.goal)
    ensures AddedIn(j.src, s.heap, j.alloc + ENTRY, j.alloc + j.size)
    ensures forall p :: p in s.moved ==> j.alloc + ENTRY <= s.moved[p] < j.alloc + j.size
  {
    forall p | p in s.moved
      ensures s.moved[p] in s.heap && j.alloc + ENTRY <= s.moved[p] < j.alloc + j.size
        && s.moved[p] + NodeBytes(s.heap[s.moved[p]]) <= j.alloc + j.size
    {
      assert Finished(j.src, s.heap, j.region, s.moved, p);
      assert p in j.goal;
      var k :| 0 <= k < |j.goal| && j.goal[k] == p;
      assert s.moved[p] == Place(j.src, j.alloc, j.goal, k);
      SideBySide(j.src, j.alloc, j.goal, k, k);
      assert NodeBytes(s.heap[s.moved[p]]) == BytesOf(j.src, p);
      NodeHasBytes(j.src, p);
    }
    forall q | q in s.heap && q !in j.src
      ensures j.alloc + ENTRY <= q < j.alloc + j.size && q + NodeBytes(s.heap[q]) <= j.alloc + j.size
    {
      assert q in s.moved.Values;
      var p :| p in s.moved && s.moved[p] == q;
    }
  }

  // ---- without the memo table ----

  function AddStr(h: Heap, at: Ptr, bytes: Bytes): Heap {
    h[at := ShmStr(bytes)]
  }

  lemma AddStrKeeps(h: Heap, r: Region, at: Ptr, bytes: Bytes)
    requires WellFormed(h) && ShmClosed(h, r) && at !in h && 0 < at < SIZE_LIMIT
    ensures WellFormed(AddStr(h, at, bytes)) && ShmClosed(AddStr(h, at, bytes), r) && Extends(h, AddStr(h, at, bytes))
  {
    var h' := AddStr(h, at, bytes);
    forall q | q in h'
      ensures 0 < q < SIZE_LIMIT && NodeTyped(h', h'[q]) && (r.Contains(q) ==> ShmNode(r, q, h'[q]))
    {
      if q != at {
        assert NodeTyped(h, h[q]);
        TypedExtends(h, h', h[q]);
        assert r.Contains(q) ==> ShmNode(r, q, h[q]);
      }
    }
  }

  // ---- what an entry keeps ----

  /** An entry in shared memory, as immutable_cache_persist leaves it. */
  datatype Stored = Stored(at: Ptr, key: Ptr, val: Zval, memSize: nat)

  /** The entry's key reads as the original key. */
  ghost predicate SameKey(h: Heap, h': Heap, key: Ptr, e: Stored) {
    e.key in h' && h'[e.key].StrNode? && h'[e.key].bytes == BytesAt(h, key)
  }

  /** The stored value means what the original value meant, to every depth. */
  ghost predicate SameValue(h: Heap, h': Heap, v: Zval, w: Zval) {
    !w.Serialized? && forall n :: Unfold(h', w, n) == Unfold(h, v, n)
  }

  /** The stored value is the serialized form `bytes`. */
  ghost predicate StoredBytes(h': Heap, bytes: Bytes, w: Zval) {
    w.Serialized? && w.p in h' && h'[w.p] == ShmStr(bytes)
  }

  /** Key and value of the entry lead into shared memory. */
  ghost predicate Anchored(h: Heap, r: Region, e: Stored) {
    && Typed(h, Str(e.key)) && r.Contains(e.key)
    && (e.val.Serialized? ==> Typed(h, Str(e.val.p)) && r.Contains(e.val.p))
    && (!e.val.Serialized? ==> Typed(h, e.val) && !Stops(e.val) && (Follows(e.val) ==> r.Contains(e.val.p)))
  }

  /** The heap has grown by nodes inside the block behind the entry only, and is as sound as before. */
  ghost predicate Grown(h: Heap, h': Heap, r: Region, at: Ptr, size: nat) {
    && Extends(h, h') && AddedIn(h, h', at + ENTRY, at + size)
    && WellFormed(h') && ShmClosed(h', r)
  }

  /** Addresses of the block belong to shared memory and fit a machine word. */
  ghost predicate BlockIn(r: Region, at: Ptr, size: nat) {
    at > 0 && at + size <= SIZE_LIMIT && forall q {:trigger r.Contains(q)} :: at <= q < at + size ==> r.Contains(q)
  }

  lemma DoneGrown(j: Job, s: Snap)
    requires Done(j, s) && j.size == ENTRY + TotalBytes(j.src, j.goal)
    requires ShmClosed(j.src, j.region) && BlockIn(j.region, j.alloc, j.size)
    ensures Grown(j.src, s.heap, j.region, j.alloc, j.size)
    ensures forall q :: q in s.moved ==> j.region.Contains(s.moved[q])
  {
    DoneAddedIn(j, s);
    CopiedWellFormed(j.src, s.heap, j.region, s.moved);
  }

  lemma DoneMeans(j: Job, s: Snap, key: Ptr, v: Zval, e: Stored)
    requires Done(j, s) && Typed(j.src, Str(key)) && Typed(j.src, v)
    requires forall q :: q in s.moved ==> j.region.Contains(s.moved[q])
    requires Known(j.region, s.moved, Str(key)) && Known(j.region, s.moved, v)
    requires e.key == Moved(j.region, s.moved, key) && e.val == MovedVal(j.region, s.moved, v)
    ensures SameKey(j.src, s.heap, key, e) && SameValue(j.src, s.heap, v, e.val) && Anchored(s.heap, j.region, e)
  {
    KeyStays(j.src, s.heap, j.region, s.moved, key);
    MovedTyped(j.src, s.heap, j.region, s.moved, Str(key));
    MovedTyped(j.src, s.heap, j.region, s.moved, v);
    forall n ensures Unfold(s.heap, e.val, n) == Unfold(j.src, v, n) {
      CopyMeansSame(j.src, s.heap, j.region, s.moved, v, n);
    }
  }

  /** Where the copy of `p` is, and how much room it takes. */
  lemma CopyAt(j: Job, s: Snap, p: Ptr) returns (k: nat)
    requires Done(j, s) && p in s.moved
    ensures k < |j.goal| && j.goal[k] == p && s.moved[p] == Place(j.src, j.alloc, j.goal, k)
    ensures s.moved[p] in s.heap && NodeBytes(s.heap[s.moved[p]]) == BytesOf(j.src, p)
  {
    assert Finished(j.src, s.heap, j.region, s.moved, p);
    assert p in j.goal;
    k :| 0 <= k < |j.goal| && j.goal[k] == p;
    assert s.moved[p] == Place(j.src, j.alloc, j.goal, k);
  }

  /** Distinct nodes have disjoint copies. */
  lemma CopiesApart(j: Job, s: Snap, p: Ptr, q: Ptr)
    requires Done(j, s) && p in s.moved && q in s.moved && p != q
    ensures
      var a, b := s.moved[p], s.moved[q];
      a in s.heap && b in s.heap && (a + NodeBytes(s.heap[a]) <= b || b + NodeBytes(s.heap[b]) <= a)
  {
    var k := CopyAt(j, s, p);
    var l := CopyAt(j, s, q);
    SideBySide(j.src, j.alloc, j.goal, k, l);
    SideBySide(j.src, j.alloc, j.goal, l, k);
  }

  /** The nodes copied are those reachable outside shared memory. */
  lemma CopiedIsReachable(j: Job, s: Snap, roots: seq<Zval>, p: Ptr)
    requires Done(j, s) && Scan(j.src, j.region, [], roots) == Accept(j.goal)
    ensures p in s.moved <==> Reaches(j.src, j.region, roots, p)
  {
    AcceptedIsReachable(j.src, j.region, roots);
  }

  // ---- entries made without the memo table ----

  lemma AddStrGrown(h: Heap, r: Region, at: Ptr, size: nat, q: Ptr, bytes: Bytes)
    requires WellFormed(h) && ShmClosed(h, r) && BlockIn(r, at, size) && q !in h
    requires at + ENTRY <= q && q + StrBytes(|bytes|) <= at + size
    ensures Grown(h, AddStr(h, q, bytes), r, at, size) && r.Contains(q)
  {
    AddStrKeeps(h, r, q, bytes);
  }

  lemma GrownTwice(h: Heap, m: Heap, h': Heap, r: Region, at: Ptr, size: nat)
    requires Grown(h, m, r, at, size) && Grown(m, h', r, at, size)
    ensures Grown(h, h', r, at, size)
  {
  }

  lemma GrownNot(h: Heap, r: Region, at: Ptr, size: nat)
    requires WellFormed(h) && ShmClosed(h, r)
    ensures Grown(h, h, r, at, size)
  {
  }

  /** A string in shared memory, or put there at `q`, reads as it did. */
  lemma StrKept(h: Heap, h': Heap, p: Ptr, n: nat)
    requires WellFormed(h) && Extends(h, h') && Typed(h, Str(p))
    ensures Typed(h', Str(p)) && BytesAt(h', p) == BytesAt(h, p) && Unfold(h', Str(p), n) == Unfold(h, Str(p), n)
  {
  }
}
