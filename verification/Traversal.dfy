/**
 * The order in which a value graph is walked, written as a worklist, and its relation to reachability.
 * The recursive calc and copy passes of the persist engine are proved to follow this walk.
 */
module Traversal {
  import opened Focus
  import opened Sequences
  import opened Values

  datatype Verdict = Accept(seen: seq<Ptr>) | Serialize | Reject

  /** Nodes not yet seen. */
  function Left(h: Heap, seen: seq<Ptr>): nat {
    |h.Keys - (set p | p in seen)|
  }

  lemma LeftShrinks(h: Heap, seen: seq<Ptr>, p: Ptr)
    requires p in h && p !in seen
    ensures Left(h, seen + [p]) < Left(h, seen)
  {
    var a, b := h.Keys - (set q | q in seen), h.Keys - (set q | q in seen + [p]);
    assert b == a - {p} && p in a;
  }

  lemma LeftFalls(h: Heap, a: seq<Ptr>, b: seq<Ptr>)
    requires a <= b
    ensures Left(h, b) <= Left(h, a)
  {
    var x, y := h.Keys - (set q | q in b), h.Keys - (set q | q in a);
    assert x <= y;
    SubsetSize(x, y);
  }

  lemma SubsetSize(x: set<Ptr>, y: set<Ptr>)
    requires x <= y
    ensures |x| <= |y|
  {
    assert y == x + (y - x);
  }

  /** A node is walked once, and not at all inside shared memory. */
  predicate Skips(h: Heap, r: Region, seen: seq<Ptr>, p: Ptr) {
    r.Contains(p) || p in seen || p !in h
  }

  /** State of the walk after its first item, when that item does not end it. */
  function SeenAfter(h: Heap, r: Region, seen: seq<Ptr>, v: Zval): seq<Ptr> {
    if Follows(v) && !Skips(h, r, seen, v.p) then seen + [v.p] else seen
  }

  function WorkAfter(h: Heap, r: Region, seen: seq<Ptr>, v: Zval, rest: seq<Zval>): seq<Zval> {
    if Follows(v) && !Skips(h, r, seen, v.p) then Items(h[v.p]) + rest else rest
  }

  /** Depth-first walk of the values in `work`, in order. */
  function Scan(h: Heap, r: Region, seen: seq<Ptr>, work: seq<Zval>): Verdict
    decreases Left(h, seen), |work|
  {
    if work == [] then Accept(seen)
    else
      var v := work[0];
      if Mutable(v) then Serialize
      else if v.Res? || v.Serialized? then Reject
      else
        assert SeenAfter(h, r, seen, v) != seen ==> Left(h, SeenAfter(h, r, seen, v)) < Left(h, seen) by {
          if Follows(v) && !Skips(h, r, seen, v.p) { LeftShrinks(h, seen, v.p); }
        }
        Scan(h, r, SeenAfter(h, r, seen, v), WorkAfter(h, r, seen, v, work[1..]))
  }

  predicate Stops(v: Zval) {
    Mutable(v) || v.Res? || v.Serialized?
  }

  lemma ScanStep(h: Heap, r: Region, seen: seq<Ptr>, v: Zval, rest: seq<Zval>)
    ensures !Stops(v) ==>
      Scan(h, r, seen, [v] + rest) == Scan(h, r, SeenAfter(h, r, seen, v), WorkAfter(h, r, seen, v, rest))
    ensures Mutable(v) ==> Scan(h, r, seen, [v] + rest) == Serialize
    ensures v.Res? ==> Scan(h, r, seen, [v] + rest) == Reject
  {
  }

  // ---- what an accepting walk has visited ----

  lemma {:induction false} ScanGrows(h: Heap, r: Region, seen: seq<Ptr>, work: seq<Zval>)
    requires Scan(h, r, seen, work).Accept?
    ensures seen <= Scan(h, r, seen, work).seen
    decreases Left(h, seen), |work|
  {
    if work != [] {
      var v := work[0];
      var seen', work' := SeenAfter(h, r, seen, v), WorkAfter(h, r, seen, v, work[1..]);
      if seen' != seen {
        LeftShrinks(h, seen, v.p);
      }
      ScanGrows(h, r, seen', work');
    }
  }

  /** Visited nodes are distinct nodes of the heap outside shared memory. */
  ghost predicate Visited(h: Heap, r: Region, seen: seq<Ptr>) {
    forall z {:trigger LookAtWalk(z)} :: LookAtWalk(z) ==>
      Distinct(seen) && forall p :: p in seen ==> p in h && !r.Contains(p)
  }

  lemma {:induction false} ScanVisits(h: Heap, r: Region, seen: seq<Ptr>, work: seq<Zval>)
    requires Visited(h, r, seen) && Scan(h, r, seen, work).Accept?
    ensures Visited(h, r, Scan(h, r, seen, work).seen)
    decreases Left(h, seen), |work|
  {
    if work != [] {
      var v := work[0];
      var seen', work' := SeenAfter(h, r, seen, v), WorkAfter(h, r, seen, v, work[1..]);
      if seen' != seen {
        LeftShrinks(h, seen, v.p);
      }
      ScanVisits(h, r, seen', work');
    }
  }

  /** The value needs no serialization, and its node, if it has one, is in shared memory or among `ps`. */
  ghost predicate Settled(h: Heap, r: Region, ps: seq<Ptr>, v: Zval) {
    !Stops(v) && (Follows(v) ==> Skips(h, r, ps, v.p))
  }

  lemma SettledMore(h: Heap, r: Region, ps: seq<Ptr>, qs: seq<Ptr>, v: Zval)
    requires Settled(h, r, ps, v) && ps <= qs
    ensures Settled(h, r, qs, v)
  {
  }

  lemma {:induction false} WorkSettles(h: Heap, r: Region, seen: seq<Ptr>, work: seq<Zval>, v: Zval)
    requires Scan(h, r, seen, work).Accept? && v in work
    ensures Settled(h, r, Scan(h, r, seen, work).seen, v)
    decreases Left(h, seen), |work|
  {
    var w := work[0];
    var seen', work' := SeenAfter(h, r, seen, w), WorkAfter(h, r, seen, w, work[1..]);
    if seen' != seen {
      LeftShrinks(h, seen, w.p);
    }
    if v == w {
      assert Settled(h, r, seen', v);
      ScanGrows(h, r, seen', work');
      SettledMore(h, r, seen', Scan(h, r, seen, work).seen, v);
    } else {
      assert v in work[1..] && v in work';
      WorkSettles(h, r, seen', work', v);
    }
  }

  lemma {:induction false} NodesSettle(h: Heap, r: Region, seen: seq<Ptr>, work: seq<Zval>, p: Ptr, v: Zval)
    requires Scan(h, r, seen, work).Accept?
    requires p in Scan(h, r, seen, work).seen && p !in seen && p in h && v in Items(h[p])
    ensures Settled(h, r, Scan(h, r, seen, work).seen, v)
    decreases Left(h, seen), |work|
  {
    var w := work[0];
    var seen', work' := SeenAfter(h, r, seen, w), WorkAfter(h, r, seen, w, work[1..]);
    if seen' != seen {
      LeftShrinks(h, seen, w.p);
    }
    if p in seen' {
      assert p == w.p && v in work';
      WorkSettles(h, r, seen', work', v);
    } else {
      NodesSettle(h, r, seen', work', p, v);
    }
  }

  // ---- reachability ----

  ghost predicate Points(r: Region, vs: seq<Zval>, p: Ptr) {
    exists v :: v in vs && Follows(v) && v.p == p && !r.Contains(p)
  }

  /** A chain of pointers from `roots` that stays outside shared memory. */
  ghost predicate Route(h: Heap, r: Region, roots: seq<Zval>, path: seq<Ptr>) {
    && |path| > 0
    && Points(r, roots, path[0])
    && (forall k :: 0 <= k < |path| ==> path[k] in h)
    && (forall j: nat, k: nat {:trigger path[j], path[k]} ::
      k < |path| && k == j + 1 ==> Points(r, Items(h[path[j]]), path[k]))
  }

  /** `p` can be reached from `roots` without entering shared memory. */
  ghost predicate Reaches(h: Heap, r: Region, roots: seq<Zval>, p: Ptr) {
    exists path :: Route(h, r, roots, path) && path[|path| - 1] == p
  }

  /** `v` is a root, or an item of a reachable node. */
  ghost predicate ReachesValue(h: Heap, r: Region, roots: seq<Zval>, v: Zval) {
    v in roots || exists p :: Reaches(h, r, roots, p) && p in h && v in Items(h[p])
  }

  lemma StepReaches(h: Heap, r: Region, roots: seq<Zval>, v: Zval)
    requires ReachesValue(h, r, roots, v) && Follows(v) && v.p in h && !r.Contains(v.p)
    ensures Reaches(h, r, roots, v.p)
  {
    if v in roots {
      assert Points(r, roots, v.p);
      assert Route(h, r, roots, [v.p]);
      assert [v.p][|[v.p]| - 1] == v.p;
    } else {
      var p :| Reaches(h, r, roots, p) && p in h && v in Items(h[p]);
      var path :| Route(h, r, roots, path) && path[|path| - 1] == p;
      RouteLonger(h, r, roots, path, v);
    }
  }

  lemma RouteLonger(h: Heap, r: Region, roots: seq<Zval>, path: seq<Ptr>, v: Zval)
    requires Route(h, r, roots, path) && path[|path| - 1] in h && v in Items(h[path[|path| - 1]])
    requires Follows(v) && v.p in h && !r.Contains(v.p)
    ensures Reaches(h, r, roots, v.p)
  {
    var longer := path + [v.p];
    assert Points(r, Items(h[path[|path| - 1]]), v.p);
    forall j: nat, k: nat | k < |longer| && k == j + 1 ensures Points(r, Items(h[longer[j]]), longer[k]) {
      if k < |path| {
        assert longer[j] == path[j] && longer[k] == path[k];
      }
    }
    assert Route(h, r, roots, longer) && longer[|longer| - 1] == v.p;
  }

  /** Whatever the walk visits is reachable, and whatever ends it is reachable. */
  lemma {:induction false} ScanReaches(h: Heap, r: Region, roots: seq<Zval>, seen: seq<Ptr>, work: seq<Zval>)
    requires forall v :: v in work ==> ReachesValue(h, r, roots, v)
    requires forall p :: p in seen ==> Reaches(h, r, roots, p)
    ensures
      match Scan(h, r, seen, work)
      case Accept(all) => forall p :: p in all ==> Reaches(h, r, roots, p)
      case Serialize => exists v :: ReachesValue(h, r, roots, v) && Mutable(v)
      case Reject => exists v :: ReachesValue(h, r, roots, v) && (v.Res? || v.Serialized?)
    decreases Left(h, seen), |work|
  {
    if work != [] {
      var v := work[0];
      assert ReachesValue(h, r, roots, v);
      if !Stops(v) {
        var seen', work' := SeenAfter(h, r, seen, v), WorkAfter(h, r, seen, v, work[1..]);
        if seen' != seen {
          LeftShrinks(h, seen, v.p);
          StepReaches(h, r, roots, v);
        }
        forall w | w in work' ensures ReachesValue(h, r, roots, w) {
          if w !in work[1..] {
            assert w in Items(h[v.p]);
          }
        }
        ScanReaches(h, r, roots, seen', work');
      }
    }
  }

  /** An accepting walk from `roots` has visited every node of every route. */
  lemma {:induction false} RouteVisited(h: Heap, r: Region, roots: seq<Zval>, path: seq<Ptr>)
    requires Scan(h, r, [], roots).Accept? && Route(h, r, roots, path)
    ensures path[|path| - 1] in Scan(h, r, [], roots).seen
    decreases |path|
  {
    var all := Scan(h, r, [], roots).seen;
    var p := path[|path| - 1];
    if |path| == 1 {
      var v :| v in roots && Follows(v) && v.p == p && !r.Contains(p);
      WorkSettles(h, r, [], roots, v);
    } else {
      var q := path[|path| - 2];
      var short := path[..|path| - 1];
      assert Route(h, r, roots, short) && short[|short| - 1] == q;
      RouteVisited(h, r, roots, short);
      assert Points(r, Items(h[q]), p);
      var v :| v in Items(h[q]) && Follows(v) && v.p == p && !r.Contains(p);
      NodesSettle(h, r, [], roots, q, v);
    }
  }

  /** An accepting walk visits exactly the nodes reachable outside shared memory, each once. */
  lemma AcceptedIsReachable(h: Heap, r: Region, roots: seq<Zval>)
    requires Scan(h, r, [], roots).Accept?
    ensures Distinct(Scan(h, r, [], roots).seen)
    ensures forall p :: p in Scan(h, r, [], roots).seen <==> Reaches(h, r, roots, p)
  {
    ScanVisits(h, r, [], roots);
    assert LookAtWalk(0);
    ScanReaches(h, r, roots, [], roots);
    forall p | Reaches(h, r, roots, p) ensures p in Scan(h, r, [], roots).seen {
      var path :| Route(h, r, roots, path) && path[|path| - 1] == p;
      RouteVisited(h, r, roots, path);
    }
  }

  /** The walk accepts exactly when nothing reachable outside shared memory needs serialization. */
  lemma AcceptsIffClean(h: Heap, r: Region, roots: seq<Zval>)
    ensures Scan(h, r, [], roots).Accept? <==> forall v :: ReachesValue(h, r, roots, v) ==> !Stops(v)
  {
    ScanReaches(h, r, roots, [], roots);
    if Scan(h, r, [], roots).Accept? {
      forall v | ReachesValue(h, r, roots, v) ensures !Stops(v) {
        if v in roots {
          WorkSettles(h, r, [], roots, v);
        } else {
          var p :| Reaches(h, r, roots, p) && p in h && v in Items(h[p]);
          AcceptedIsReachable(h, r, roots);
          NodesSettle(h, r, [], roots, p, v);
        }
      }
    }
  }

  // ---- following the walk step by step ----

  /**
   * What a step makes of the walk `work`: it has become a walk of `rest` from the nodes visited since,
   * or it has ended in a verdict.
   */
  ghost predicate FollowsScan(h: Heap, r: Region, was: seq<Ptr>, work: seq<Zval>, seen: seq<Ptr>, rest: seq<Zval>,
                              ok: bool, ser: bool)
  {
    forall z {:trigger LookAtWalk(z)} :: LookAtWalk(z) ==>
      Scan(h, r, was, work) == if ok then Scan(h, r, seen, rest) else if ser then Serialize else Reject
  }

  lemma FollowsNothing(h: Heap, r: Region, a: seq<Ptr>, work: seq<Zval>, rest: seq<Zval>, ser: bool)
    requires work == rest
    ensures FollowsScan(h, r, a, work, a, rest, true, ser)
  {
  }

  lemma FollowsTwice(h: Heap, r: Region, a: seq<Ptr>, work: seq<Zval>, b: seq<Ptr>, mid: seq<Zval>,
                     c: seq<Ptr>, rest: seq<Zval>, ok: bool, ser: bool)
    requires FollowsScan(h, r, a, work, b, mid, true, false) && FollowsScan(h, r, b, mid, c, rest, ok, ser)
    ensures FollowsScan(h, r, a, work, c, rest, ok, ser)
  {
  }

  /** A verdict does not depend on what was left to walk. */
  lemma FollowsEnd(h: Heap, r: Region, a: seq<Ptr>, work: seq<Zval>, b: seq<Ptr>, next: seq<Zval>, rest: seq<Zval>,
        ser: bool)
    requires FollowsScan(h, r, a, work, b, next, false, ser)
    ensures FollowsScan(h, r, a, work, b, rest, false, ser)
  {
  }

  /** One value at the head of the walk. */
  lemma FollowsOne(h: Heap, r: Region, a: seq<Ptr>, v: Zval, rest: seq<Zval>)
    ensures !Stops(v) && !(Follows(v) && !Skips(h, r, a, v.p)) ==>
      FollowsScan(h, r, a, [v] + rest, a, rest, true, false)
    ensures Follows(v) && !Skips(h, r, a, v.p) ==>
      FollowsScan(h, r, a, [v] + rest, a + [v.p], Items(h[v.p]) + rest, true, false)
    ensures Mutable(v) ==> forall b :: FollowsScan(h, r, a, [v] + rest, b, rest, false, true)
    ensures v.Res? ==> forall b :: FollowsScan(h, r, a, [v] + rest, b, rest, false, false)
  {
  }

  /** A slot of a hashed array is walked key first. */
  lemma FollowsKey(h: Heap, r: Region, a: seq<Ptr>, b: Bucket, rest: seq<Zval>)
    requires !b.val.Undef? && b.key != 0 && Typed(h, Str(b.key))
    ensures FollowsScan(h, r, a, SlotItems(false, b) + rest, SeenAfter(h, r, a, Str(b.key)), [b.val] + rest, true,
      false)
  {
    FollowsOne(h, r, a, Str(b.key), [b.val] + rest);
    assert SlotItems(false, b) + rest == [Str(b.key)] + ([b.val] + rest);
    assert Items(h[b.key]) + ([b.val] + rest) == [b.val] + rest;
  }

  /** An INDIRECT slot ends the walk, whether or not its key has been visited. */
  lemma FollowsIndirect(h: Heap, r: Region, a: seq<Ptr>, b: Bucket, rest: seq<Zval>)
    requires b.val.Indirect? && (b.key != 0 ==> Typed(h, Str(b.key)))
    ensures forall c :: FollowsScan(h, r, a, SlotItems(false, b) + rest, c, rest, false, true)
  {
    forall c ensures FollowsScan(h, r, a, SlotItems(false, b) + rest, c, rest, false, true) {
      if b.key != 0 {
        FollowsKey(h, r, a, b, rest);
        FollowsOne(h, r, SeenAfter(h, r, a, Str(b.key)), b.val, rest);
        FollowsTwice(h, r, a, SlotItems(false, b) + rest, SeenAfter(h, r, a, Str(b.key)), [b.val] + rest, c, rest,
                     false, true);
      } else {
        FollowsOne(h, r, a, b.val, rest);
      }
    }
  }
}
