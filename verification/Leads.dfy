/** Where the pointers of an entry lead, and what of it was there before the entry was made. */
module Leads {
  import opened Focus
  import opened Values
  import opened Traversal
  import opened Copies
  import opened Placement
  import opened Outcomes

  /** Nothing is passed over: a route may enter shared memory. */
  const ANYWHERE: Region := Region([], 0)

  /** Pointers stored in an entry. */
  function Roots(key: Ptr, val: Zval): seq<Zval> {
    [Str(key), if val.Serialized? then Str(val.p) else val]
  }

  /** Every old node that the new entry leads to was already reached from what it was made from. */
  ghost predicate LeadsBack(h: Heap, h': Heap, from: seq<Zval>, to: seq<Zval>) {
    forall p {:trigger Reaches(h', ANYWHERE, to, p)} ::
      p in h && Reaches(h', ANYWHERE, to, p) ==> Reaches(h, ANYWHERE, from, p)
  }

  /** No pointer of a new node leads to an old node that was not reached from what the new nodes were made from. */
  ghost predicate EdgesBack(h: Heap, h': Heap, from: seq<Zval>) {
    forall p, v {:trigger v in Items(h'[p])} ::
      p in h' && p !in h && v in Items(h'[p]) && Follows(v) && v.p in h ==> Reaches(h, ANYWHERE, from, v.p)
  }

  // ---- routes ----

  lemma RouteGoesOn(h: Heap, roots: seq<Zval>, short: seq<Ptr>, path: seq<Ptr>)
    requires Route(h, ANYWHERE, roots, short) && |path| == |short| + 1 && path[..|short|] == short
    requires path[|short|] in h && Points(ANYWHERE, Items(h[short[|short| - 1]]), path[|short|])
    ensures Route(h, ANYWHERE, roots, path)
  {
    forall j: nat, k: nat | k < |path| && k == j + 1
      ensures path[j] in h && Points(ANYWHERE, Items(h[path[j]]), path[k])
    {
      assert path[j] == short[j];
      if k < |short| {
        assert path[k] == short[k];
      }
    }
    forall k | 0 <= k < |path| ensures path[k] in h {
      if k < |short| {
        assert path[k] == short[k];
      }
    }
    assert path[0] == short[0];
  }

  // ---- what stays whatever happens outside shared memory ----

  /** Every node in shared memory is still there; all other memory is arbitrary, and more may be in shared memory. */
  ghost predicate SharedKept(h: Heap, h': Heap, r: Region) {
    forall p {:trigger p in h} {:trigger p in h'} :: p in h && r.Contains(p) ==> p in h' && h'[p] == h[p]
  }

  /** The same nodes are in shared memory; all other memory is arbitrary. */
  ghost predicate SameShared(h: Heap, h': Heap, r: Region) {
    SharedKept(h, h', r) && SharedKept(h', h, r)
  }

  /** The value is plain data, or leads into shared memory. */
  ghost predicate Inside(h: Heap, r: Region, v: Zval) {
    Typed(h, v) && !Stops(v) && (Follows(v) ==> r.Contains(v.p))
  }

  ghost predicate AllInside(h: Heap, r: Region, vs: seq<Zval>) {
    forall v :: v in vs ==> Inside(h, r, v)
  }

  lemma ItemsInside(h: Heap, r: Region, p: Ptr)
    requires WellFormed(h) && ShmClosed(h, r) && p in h && r.Contains(p)
    ensures AllInside(h, r, Items(h[p]))
  {
    assert NodeTyped(h, h[p]) && ShmNode(r, p, h[p]);
  }

  /** A value in shared memory means the same whatever happens to other memory. */
  lemma {:induction false} UnfoldShared(h: Heap, h': Heap, r: Region, v: Zval, n: nat)
    requires WellFormed(h) && ShmClosed(h, r) && SharedKept(h, h', r) && Inside(h, r, v)
    ensures Unfold(h', v, n) == Unfold(h, v, n)
    decreases n, 0, 1
  {
    if v.Arr? && n > 0 {
      SlotsShared(h, h', r, v.p, |h[v.p].buckets|, n - 1);
    }
  }

  lemma {:induction false} SlotsShared(h: Heap, h': Heap, r: Region, p: Ptr, k: nat, n: nat)
    requires WellFormed(h) && ShmClosed(h, r) && SharedKept(h, h', r)
    requires p in h && r.Contains(p) && h[p].ArrNode? && k <= |h[p].buckets|
    ensures UnfoldSlots(h', h[p].packed, h[p].buckets, k, n) == UnfoldSlots(h, h[p].packed, h[p].buckets, k, n)
    decreases n, k, 2
  {
    if k > 0 {
      SlotsShared(h, h', r, p, k - 1, n);
      var b := h[p].buckets[k - 1];
      if !b.val.Undef? {
        SlotItemsIn(h[p].packed, h[p].buckets, k - 1, 0);
        ItemsInside(h, r, p);
        UnfoldShared(h, h', r, b.val, n);
        assert !h[p].packed && b.key != 0 ==> Inside(h, r, Str(b.key));
      }
    }
  }

  /** A route from values in shared memory never leaves it, nor the nodes that were there before. */
  lemma {:induction false} RouteShared(h: Heap, h': Heap, r: Region, roots: seq<Zval>, path: seq<Ptr>)
    requires WellFormed(h) && ShmClosed(h, r) && SharedKept(h, h', r) && AllInside(h, r, roots)
    requires Route(h', ANYWHERE, roots, path)
    ensures Route(h, ANYWHERE, roots, path) && r.Contains(path[|path| - 1])
    decreases |path|
  {
    var p := path[|path| - 1];
    if |path| == 1 {
      var v :| v in roots && Follows(v) && v.p == p;
      assert Inside(h, r, v);
    } else {
      var q, short := path[|path| - 2], path[..|path| - 1];
      assert Route(h', ANYWHERE, roots, short);
      RouteShared(h, h', r, roots, short);
      assert short[|short| - 1] == q && q in h;
      assert Points(ANYWHERE, Items(h'[q]), p);
      var v :| v in Items(h[q]) && Follows(v) && v.p == p;
      ItemsInside(h, r, q);
      RouteGoesOn(h, roots, short, path);
    }
  }

  lemma {:induction false} RouteKept(h: Heap, h': Heap, r: Region, roots: seq<Zval>, path: seq<Ptr>)
    requires WellFormed(h) && ShmClosed(h, r) && SharedKept(h, h', r) && AllInside(h, r, roots)
    requires Route(h, ANYWHERE, roots, path)
    ensures Route(h', ANYWHERE, roots, path) && r.Contains(path[|path| - 1])
    decreases |path|
  {
    RouteShared(h, h, r, roots, path);
    var p := path[|path| - 1];
    if |path| > 1 {
      var q, short := path[|path| - 2], path[..|path| - 1];
      assert Route(h, ANYWHERE, roots, short) && short[|short| - 1] == q;
      RouteKept(h, h', r, roots, short);
      assert Points(ANYWHERE, Items(h[q]), p);
      RouteGoesOn(h', roots, short, path);
    }
  }

  /** Values in shared memory lead to the same nodes, all of them there, whatever happens to other memory. */
  lemma ReachesShared(h: Heap, h': Heap, r: Region, roots: seq<Zval>, p: Ptr)
    requires WellFormed(h) && ShmClosed(h, r) && SharedKept(h, h', r) && AllInside(h, r, roots)
    ensures Reaches(h', ANYWHERE, roots, p) <==> Reaches(h, ANYWHERE, roots, p)
    ensures Reaches(h', ANYWHERE, roots, p) ==> p in h && p in h' && h'[p] == h[p] && r.Contains(p)
  {
    if Reaches(h', ANYWHERE, roots, p) {
      var path :| Route(h', ANYWHERE, roots, path) && path[|path| - 1] == p;
      RouteShared(h, h', r, roots, path);
    }
    if path :| Route(h, ANYWHERE, roots, path) && path[|path| - 1] == p {
      RouteKept(h, h', r, roots, path);
    }
  }

  // ---- from a copy back to the original ----

  /** `p` is an old node that the originals reach, or the copy of one. */
  ghost predicate Back(src: Heap, moved: map<Ptr, Ptr>, from: seq<Zval>, p: Ptr) {
    if p in src then Reaches(src, ANYWHERE, from, p)
    else exists q :: q in moved && moved[q] == p && Reaches(src, ANYWHERE, from, q)
  }

  lemma BackStep(src: Heap, r: Region, moved: map<Ptr, Ptr>, from: seq<Zval>, v: Zval)
    requires ReachesValue(src, ANYWHERE, from, v) && Typed(src, v) && Known(r, moved, v) && Follows(v)
    requires forall q :: q in moved ==> moved[q] !in src
    ensures Back(src, moved, from, MovedVal(r, moved, v).p)
  {
    StepReaches(src, ANYWHERE, from, v);
  }

  /** Every value in `to` is one of `from`, moved. */
  ghost predicate MovedRoots(src: Heap, r: Region, moved: map<Ptr, Ptr>, from: seq<Zval>, to: seq<Zval>) {
    forall i {:trigger to[i]} :: 0 <= i < |to| ==>
      |from| == |to| && Typed(src, from[i]) && Known(r, moved, from[i]) && to[i] == MovedVal(r, moved, from[i])
  }

  lemma {:induction false} RouteBack(src: Heap, dst: Heap, r: Region, moved: map<Ptr, Ptr>, from: seq<Zval>,
        to: seq<Zval>, path: seq<Ptr>)
    requires CopiedGraph(src, dst, r, moved) && MovedRoots(src, r, moved, from, to)
    requires forall q :: q in moved ==> moved[q] !in src
    requires Route(dst, ANYWHERE, to, path)
    ensures Back(src, moved, from, path[|path| - 1])
    decreases |path|
  {
    var p := path[|path| - 1];
    if |path| == 1 {
      var v' :| v' in to && Follows(v') && v'.p == p;
      var i :| 0 <= i < |to| && to[i] == v';
      assert from[i] in from;
      BackStep(src, r, moved, from, from[i]);
    } else {
      var q', short := path[|path| - 2], path[..|path| - 1];
      assert Route(dst, ANYWHERE, to, short) && short[|short| - 1] == q';
      RouteBack(src, dst, r, moved, from, to, short);
      assert Points(ANYWHERE, Items(dst[q']), p);
      var v' :| v' in Items(dst[q']) && Follows(v') && v'.p == p;
      NodeBack(src, dst, r, moved, from, q', v');
    }
  }

  /** One pointer further. */
  lemma NodeBack(src: Heap, dst: Heap, r: Region, moved: map<Ptr, Ptr>, from: seq<Zval>, q': Ptr, v': Zval)
    requires CopiedGraph(src, dst, r, moved) && forall q :: q in moved ==> moved[q] !in src
    requires Back(src, moved, from, q') && q' in dst && v' in Items(dst[q']) && Follows(v')
    ensures Back(src, moved, from, v'.p)
  {
    if q' in src {
      assert NodeTyped(src, src[q']) && Typed(src, v');
      StepReaches(src, ANYWHERE, from, v');
    } else {
      var q :| q in moved && moved[q] == q' && Reaches(src, ANYWHERE, from, q);
      assert Finished(src, dst, r, moved, q);
      var v := CopiedItem(src, dst, r, moved, q, v');
      BackStep(src, r, moved, from, v);
    }
  }

  /** A copied graph leads to no old node that the original did not lead to. */
  lemma GraphLeadsBack(src: Heap, dst: Heap, r: Region, moved: map<Ptr, Ptr>, from: seq<Zval>, to: seq<Zval>)
    requires CopiedGraph(src, dst, r, moved) && MovedRoots(src, r, moved, from, to)
    requires forall q :: q in moved ==> moved[q] !in src
    ensures LeadsBack(src, dst, from, to)
  {
    forall p | p in src && Reaches(dst, ANYWHERE, to, p) ensures Reaches(src, ANYWHERE, from, p) {
      var path :| Route(dst, ANYWHERE, to, path) && path[|path| - 1] == p;
      RouteBack(src, dst, r, moved, from, to, path);
    }
  }

  /** A reachable node was reached by way of routes that may enter shared memory, too. */
  lemma ReachesAnywhere(h: Heap, r: Region, roots: seq<Zval>, p: Ptr)
    requires Reaches(h, r, roots, p)
    ensures Reaches(h, ANYWHERE, roots, p)
  {
    var path :| Route(h, r, roots, path) && path[|path| - 1] == p;
    forall j: nat, k: nat | k < |path| && k == j + 1 ensures Points(ANYWHERE, Items(h[path[j]]), path[k]) {
      assert Points(r, Items(h[path[j]]), path[k]);
    }
    assert Points(r, roots, path[0]);
    assert Route(h, ANYWHERE, roots, path);
  }

  /** The pointers of copied nodes lead to copies, or to old nodes that the originals reached. */
  lemma CopyEdgesBack(src: Heap, dst: Heap, r: Region, moved: map<Ptr, Ptr>, from: seq<Zval>)
    requires CopiedGraph(src, dst, r, moved) && OnlyCopies(src, dst, moved)
    requires forall q :: q in moved ==> moved[q] !in src && Reaches(src, ANYWHERE, from, q)
    ensures EdgesBack(src, dst, from)
  {
    forall p, v | p in dst && p !in src && v in Items(dst[p]) && Follows(v) && v.p in src
      ensures Reaches(src, ANYWHERE, from, v.p)
    {
      assert p in moved.Values;
      var q :| q in moved && moved[q] == p;
      NodeBack(src, dst, r, moved, from, p, v);
    }
  }

  /** Only strings have been added. */
  ghost predicate OnlyStrings(h: Heap, h': Heap) {
    forall p {:trigger p in h'} :: p in h' && p !in h ==> h'[p].StrNode?
  }

  lemma StringsEdge(h: Heap, h': Heap, from: seq<Zval>)
    requires OnlyStrings(h, h')
    ensures EdgesBack(h, h', from)
  {
  }

  lemma SecondStep(h: Heap, roots: seq<Zval>, path: seq<Ptr>)
    requires Route(h, ANYWHERE, roots, path) && |path| > 1
    ensures path[0] in h && Items(h[path[0]]) != []
  {
    assert Points(ANYWHERE, Items(h[path[0]]), path[1]);
  }

  /** Strings lead nowhere further, so an entry made of strings leads back if its old strings were given. */
  lemma StringsLeadBack(src: Heap, dst: Heap, from: seq<Zval>, to: seq<Zval>)
    requires forall v :: v in to && Follows(v) ==>
      v.Str? && v.p in dst && dst[v.p].StrNode? && (v.p in src ==> v in from)
    requires Extends(src, dst)
    ensures LeadsBack(src, dst, from, to)
  {
    forall p | p in src && Reaches(dst, ANYWHERE, to, p) ensures Reaches(src, ANYWHERE, from, p) {
      var path :| Route(dst, ANYWHERE, to, path) && path[|path| - 1] == p;
      var v :| v in to && Follows(v) && v.p == path[0];
      assert Items(dst[path[0]]) == [];
      assert |path| == 1 by {
        if |path| > 1 {
          SecondStep(dst, to, path);
        }
      }
      StepReaches(src, ANYWHERE, from, v);
    }
  }
}
