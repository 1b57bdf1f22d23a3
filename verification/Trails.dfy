/**
 * What decides how a value is stored: the first value, in the order of the slots, that cannot be copied. It is defined
 * without a memo table, by searching along every path that enters no node twice; the walk with the memo table finds
 * the same one.
 */
module Trails {
  import opened Options
  import opened Values
  import opened Traversal

  // ---- the search without a memo table ----

  /** The search goes on into the node of `v`. */
  predicate Enters(h: Heap, r: Region, avoid: set<Ptr>, v: Zval) {
    Follows(v) && v.p in h && !r.Contains(v.p) && v.p !in avoid
  }

  lemma Fewer(h: Heap, avoid: set<Ptr>, p: Ptr)
    requires p in h && p !in avoid
    ensures |h.Keys - (avoid + {p})| < |h.Keys - avoid|
  {
    var a, b := h.Keys - avoid, h.Keys - (avoid + {p});
    assert a == b + {p} && p !in b;
  }

  /** The first value that stops a search of `vs` in order; nodes in `avoid`, and those on the way, are shut. */
  function FirstStop(h: Heap, r: Region, avoid: set<Ptr>, vs: seq<Zval>): Option<Zval>
    decreases |h.Keys - avoid|, |vs|
  {
    if vs == [] then None
    else if Stops(vs[0]) then Some(vs[0])
    else
      var below :=
        if Enters(h, r, avoid, vs[0]) then
          assert |h.Keys - (avoid + {vs[0].p})| < |h.Keys - avoid| by {
            Fewer(h, avoid, vs[0].p);
          }
          FirstStop(h, r, avoid + {vs[0].p}, Items(h[vs[0].p]))
        else None;
      if below.Some? then below else FirstStop(h, r, avoid, vs[1..])
  }

  lemma {:induction false} FirstOfBoth(h: Heap, r: Region, avoid: set<Ptr>, a: seq<Zval>, b: seq<Zval>)
    ensures FirstStop(h, r, avoid, a + b) ==
      if FirstStop(h, r, avoid, a).Some? then FirstStop(h, r, avoid, a) else FirstStop(h, r, avoid, b)
    decreases |a|
  {
    if a == [] {
      assert a + b == b;
    } else {
      assert (a + b)[0] == a[0] && (a + b)[1..] == a[1..] + b;
      FirstOfBoth(h, r, avoid, a[1..], b);
    }
  }

  /** With more nodes shut nothing new is found. */
  lemma {:induction false} ShutMore(h: Heap, r: Region, avoid: set<Ptr>, more: set<Ptr>, vs: seq<Zval>)
    requires avoid <= more && FirstStop(h, r, avoid, vs).None?
    ensures FirstStop(h, r, more, vs).None?
    decreases |h.Keys - more|, |vs|
  {
    if vs != [] {
      if Enters(h, r, more, vs[0]) {
        Fewer(h, more, vs[0].p);
        ShutMore(h, r, avoid + {vs[0].p}, more + {vs[0].p}, Items(h[vs[0].p]));
      }
      ShutMore(h, r, avoid, more, vs[1..]);
    }
  }

  /** A node from which nothing is found can be shut: no search that shuts at least as much finds anything else. */
  lemma {:induction false} ShutDead(h: Heap, r: Region, avoid: set<Ptr>, p: Ptr, more: set<Ptr>, vs: seq<Zval>)
    requires p in h && p !in avoid && FirstStop(h, r, avoid + {p}, Items(h[p])).None? && avoid <= more
    ensures FirstStop(h, r, more + {p}, vs) == FirstStop(h, r, more, vs)
    decreases |h.Keys - more|, |vs|
  {
    if vs != [] {
      var v := vs[0];
      ShutDead(h, r, avoid, p, more, vs[1..]);
      if Enters(h, r, more, v) && !Stops(v) {
        Fewer(h, more, v.p);
        if v.p == p {
          ShutMore(h, r, avoid + {p}, more + {p}, Items(h[p]));
          assert !Enters(h, r, more + {p}, v);
        } else {
          ShutDead(h, r, avoid, p, more + {v.p}, Items(h[v.p]));
          assert more + {v.p} + {p} == more + {p} + {v.p};
          assert Enters(h, r, more + {p}, v);
        }
      }
    }
  }

  // ---- the walk with the memo table finds the same ----

  /** The verdict that goes with what was found. */
  predicate Says(v: Verdict, first: Option<Zval>) {
    match first
    case None => v.Accept?
    case Some(w) => if Mutable(w) then v.Serialize? else v.Reject?
  }

  function Shut(seen: seq<Ptr>): set<Ptr> {
    set p | p in seen
  }

  lemma {:induction false} ScanFirst(h: Heap, r: Region, seen: seq<Ptr>, work: seq<Zval>)
    ensures Says(Scan(h, r, seen, work), FirstStop(h, r, Shut(seen), work))
    decreases Left(h, seen), |work|
  {
    if work != [] && !Stops(work[0]) {
      var v, rest := work[0], work[1..];
      if Follows(v) && !Skips(h, r, seen, v.p) {
        LeftShrinks(h, seen, v.p);
        ScanFirst(h, r, seen + [v.p], Items(h[v.p]) + rest);
        assert Shut(seen + [v.p]) == Shut(seen) + {v.p};
        FirstOfBoth(h, r, Shut(seen) + {v.p}, Items(h[v.p]), rest);
        if FirstStop(h, r, Shut(seen) + {v.p}, Items(h[v.p])).None? {
          ShutDead(h, r, Shut(seen), v.p, Shut(seen), rest);
        }
      } else {
        ScanFirst(h, r, seen, rest);
      }
    }
  }

  // ---- in the order of the slots ----

  /** The numbers of the slots that lead from `v` to `w` through arrays, none of them entered twice. */
  ghost predicate Trail(h: Heap, r: Region, avoid: set<Ptr>, v: Zval, path: seq<nat>, w: Zval)
    decreases |path|
  {
    if path == [] then w == v
    else
      && v.Arr? && Enters(h, r, avoid, v) && h[v.p].ArrNode? && path[0] < |h[v.p].buckets|
      && Trail(h, r, avoid + {v.p}, h[v.p].buckets[path[0]].val, path[1..], w)
  }

  /** Trail `a` takes an earlier slot than `b` where they part. */
  predicate Sooner(a: seq<nat>, b: seq<nat>)
    decreases |b|
  {
    b != [] && (a == [] || a[0] < b[0] || (a[0] == b[0] && Sooner(a[1..], b[1..])))
  }

  /** At the end of `path` stands `w`, which cannot be copied, and every trail to another such value is later. */
  ghost predicate Leading(h: Heap, r: Region, avoid: set<Ptr>, v: Zval, path: seq<nat>, w: Zval) {
    && Trail(h, r, avoid, v, path, w) && Stops(w)
    && forall q, u {:trigger Trail(h, r, avoid, v, q, u)} ::
      Trail(h, r, avoid, v, q, u) && Stops(u) ==> (q == path && u == w) || Sooner(path, q)
  }

  /** Of all values that lie in `v` outside shared memory and cannot be copied, `w` comes first. */
  ghost predicate Decides(h: Heap, r: Region, v: Zval, w: Zval) {
    exists path {:trigger Leading(h, r, {}, v, path, w)} :: Leading(h, r, {}, v, path, w)
  }

  lemma StringFirst(h: Heap, r: Region, avoid: set<Ptr>, p: Ptr)
    requires Typed(h, Str(p))
    ensures FirstStop(h, r, avoid, [Str(p)]).None?
  {
  }

  /** A slot contributes what its value contributes. */
  lemma SlotFirst(h: Heap, r: Region, avoid: set<Ptr>, packed: bool, b: Bucket)
    requires forall v :: v in SlotItems(packed, b) ==> Typed(h, v)
    ensures FirstStop(h, r, avoid, SlotItems(packed, b)) == FirstStop(h, r, avoid, [b.val])
  {
    if !b.val.Undef? && !packed && b.key != 0 {
      assert Str(b.key) in SlotItems(packed, b);
      StringFirst(h, r, avoid, b.key);
      FirstOfBoth(h, r, avoid, [Str(b.key)], [b.val]);
      assert [Str(b.key)] + [b.val] == SlotItems(packed, b);
    }
  }

  /** The slots of an array are searched one after the other. */
  lemma {:induction false} SlotsFirst(h: Heap, r: Region, avoid: set<Ptr>, packed: bool, bs: seq<Bucket>, i: nat)
    returns (k: nat)
    requires i <= |bs| && forall j, v :: i <= j < |bs| && v in SlotItems(packed, bs[j]) ==> Typed(h, v)
    ensures
      var first := FirstStop(h, r, avoid, ItemsFrom(packed, bs, i));
      && i <= k <= |bs| && (forall j :: i <= j < k ==> FirstStop(h, r, avoid, [bs[j].val]).None?)
      && (first.None? ==> k == |bs|)
      && (first.Some? ==> k < |bs| && FirstStop(h, r, avoid, [bs[k].val]) == first)
    decreases |bs| - i
  {
    k := i;
    if i < |bs| {
      SlotFirst(h, r, avoid, packed, bs[i]);
      FirstOfBoth(h, r, avoid, SlotItems(packed, bs[i]), ItemsFrom(packed, bs, i + 1));
      if FirstStop(h, r, avoid, [bs[i].val]).None? {
        k := SlotsFirst(h, r, avoid, packed, bs, i + 1);
      }
    }
  }

  /** The slots of the array of `v`. */
  lemma ArrayFirst(h: Heap, r: Region, avoid: set<Ptr>, v: Zval) returns (k: nat)
    requires WellFormed(h) && Typed(h, v) && v.Arr? && Enters(h, r, avoid, v)
    ensures
      var bs, first := h[v.p].buckets, FirstStop(h, r, avoid, [v]);
      && k <= |bs| && (forall j :: 0 <= j < k ==> FirstStop(h, r, avoid + {v.p}, [bs[j].val]).None?)
      && (first.None? ==> k == |bs|)
      && (first.Some? ==> k < |bs| && FirstStop(h, r, avoid + {v.p}, [bs[k].val]) == first)
  {
    var n := h[v.p];
    assert NodeTyped(h, n);
    forall j, u | 0 <= j < |n.buckets| && u in SlotItems(n.packed, n.buckets[j]) ensures Typed(h, u) {
      SlotTyped(h, v.p, j);
    }
    k := SlotsFirst(h, r, avoid + {v.p}, n.packed, n.buckets, 0);
    assert FirstStop(h, r, avoid, [v][1..]).None?;
  }

  lemma SlotValueTyped(h: Heap, p: Ptr, k: nat)
    requires WellFormed(h) && Typed(h, Arr(p)) && k < |h[p].buckets|
    ensures Typed(h, h[p].buckets[k].val)
  {
    assert NodeTyped(h, h[p]);
    SlotTyped(h, p, k);
    LiveItems(h[p].packed, h[p].buckets[k]);
  }

  /** Where the search finds nothing, no trail leads to anything. */
  lemma {:induction false} NothingLeads(h: Heap, r: Region, avoid: set<Ptr>, v: Zval, path: seq<nat>, w: Zval)
    requires WellFormed(h) && Typed(h, v) && FirstStop(h, r, avoid, [v]).None? && Trail(h, r, avoid, v, path, w)
    ensures !Stops(w)
    decreases |path|
  {
    if path != [] {
      var k := ArrayFirst(h, r, avoid, v);
      SlotValueTyped(h, v.p, path[0]);
      NothingLeads(h, r, avoid + {v.p}, h[v.p].buckets[path[0]].val, path[1..], w);
    }
  }

  /** A value that stops the search is its own trail, and the only one. */
  lemma LeadingHere(h: Heap, r: Region, avoid: set<Ptr>, v: Zval)
    requires Stops(v)
    ensures Leading(h, r, avoid, v, [], v)
  {
  }

  lemma OtherTrail(h: Heap, r: Region, avoid: set<Ptr>, v: Zval, k: nat, rest: seq<nat>, w: Zval, q: seq<nat>, u: Zval)
    requires WellFormed(h) && Typed(h, v) && !Stops(v) && v.Arr? && Enters(h, r, avoid, v) && k < |h[v.p].buckets|
    requires forall j :: 0 <= j < k ==> FirstStop(h, r, avoid + {v.p}, [h[v.p].buckets[j].val]).None?
    requires Leading(h, r, avoid + {v.p}, h[v.p].buckets[k].val, rest, w)
    requires Trail(h, r, avoid, v, q, u) && Stops(u)
    ensures (q == [k] + rest && u == w) || Sooner([k] + rest, q)
  {
    var path := [k] + rest;
    assert path[1..] == rest && q != [];
    if q[0] < k {
      SlotValueTyped(h, v.p, q[0]);
      NothingLeads(h, r, avoid + {v.p}, h[v.p].buckets[q[0]].val, q[1..], u);
    } else if q[0] == k {
      assert Trail(h, r, avoid + {v.p}, h[v.p].buckets[k].val, q[1..], u);
      assert q == [k] + q[1..];
    }
  }

  lemma LeadingBelow(h: Heap, r: Region, avoid: set<Ptr>, v: Zval, k: nat, rest: seq<nat>, w: Zval)
    requires WellFormed(h) && Typed(h, v) && !Stops(v) && v.Arr? && Enters(h, r, avoid, v) && k < |h[v.p].buckets|
    requires forall j :: 0 <= j < k ==> FirstStop(h, r, avoid + {v.p}, [h[v.p].buckets[j].val]).None?
    requires Leading(h, r, avoid + {v.p}, h[v.p].buckets[k].val, rest, w)
    ensures Leading(h, r, avoid, v, [k] + rest, w)
  {
    assert ([k] + rest)[1..] == rest;
    forall q, u | Trail(h, r, avoid, v, q, u) && Stops(u) ensures (q == [k] + rest && u == w) || Sooner([k] + rest, q) {
      OtherTrail(h, r, avoid, v, k, rest, w, q, u);
    }
  }

  /** What the search finds stands at the end of the first trail. */
  lemma {:induction false} FindTrail(h: Heap, r: Region, avoid: set<Ptr>, v: Zval) returns (path: seq<nat>)
    requires WellFormed(h) && Typed(h, v) && FirstStop(h, r, avoid, [v]).Some?
    ensures Leading(h, r, avoid, v, path, FirstStop(h, r, avoid, [v]).value)
    decreases |h.Keys - avoid|
  {
    if Stops(v) {
      path := [];
      LeadingHere(h, r, avoid, v);
    } else {
      FoundBelow(h, r, avoid, v);
      Fewer(h, avoid, v.p);
      var k := ArrayFirst(h, r, avoid, v);
      SlotValueTyped(h, v.p, k);
      var rest := FindTrail(h, r, avoid + {v.p}, h[v.p].buckets[k].val);
      path := [k] + rest;
      LeadingBelow(h, r, avoid, v, k, rest, FirstStop(h, r, avoid, [v]).value);
    }
  }

  lemma FoundBelow(h: Heap, r: Region, avoid: set<Ptr>, v: Zval)
    requires Typed(h, v) && FirstStop(h, r, avoid, [v]).Some? && !Stops(v)
    ensures v.Arr? && Enters(h, r, avoid, v)
  {
    assert FirstStop(h, r, avoid, [v][1..]).None?;
  }

  lemma {:induction false} NotBoth(a: seq<nat>, b: seq<nat>)
    requires Sooner(a, b)
    ensures !Sooner(b, a) && a != b
    decreases |b|
  {
    if a != [] && a[0] == b[0] {
      NotBoth(a[1..], b[1..]);
    }
  }

  /** The search finds exactly the value that comes first. */
  lemma FirstDecides(h: Heap, r: Region, v: Zval, w: Zval)
    requires WellFormed(h) && Typed(h, v)
    ensures FirstStop(h, r, {}, [v]) == Some(w) <==> Decides(h, r, v, w)
  {
    if FirstStop(h, r, {}, [v]).Some? {
      var path := FindTrail(h, r, {}, v);
      if Decides(h, r, v, w) {
        var q :| Leading(h, r, {}, v, q, w);
        if Sooner(path, q) {
          NotBoth(path, q);
        }
      }
    } else if Decides(h, r, v, w) {
      var q :| Leading(h, r, {}, v, q, w);
      NothingLeads(h, r, {}, v, q, w);
    }
  }

  /**
   * The verdict on an entry: it can be copied if and only if nothing reachable outside shared memory stands in the
   * way, and otherwise the first value that does decides.
   */
  lemma VerdictIs(h: Heap, r: Region, key: Ptr, v: Zval)
    requires WellFormed(h) && Typed(h, Str(key)) && Typed(h, v)
    ensures
      var verdict := Scan(h, r, [], [Str(key), v]);
      && (verdict.Accept? <==> forall w :: ReachesValue(h, r, [Str(key), v], w) ==> !Stops(w))
      && (verdict.Serialize? <==> exists w :: Decides(h, r, v, w) && Mutable(w))
      && (verdict.Reject? <==> exists w :: Decides(h, r, v, w) && !Mutable(w))
  {
    var roots := [Str(key), v];
    AcceptsIffClean(h, r, roots);
    ScanFirst(h, r, [], roots);
    assert Shut([]) == {} && roots == [Str(key)] + [v];
    FirstOfBoth(h, r, {}, [Str(key)], [v]);
    StringFirst(h, r, {}, key);
    forall w ensures FirstStop(h, r, {}, [v]) == Some(w) <==> Decides(h, r, v, w) {
      FirstDecides(h, r, v, w);
    }
  }
}
