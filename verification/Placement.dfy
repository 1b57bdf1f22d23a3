/** Where the copy pass puts each node, and why it never leaves its block. */
module Placement {
  import opened Focus
  import opened Layout
  import opened Values
  import opened Traversal
  import opened Memo
  import opened Copies

  /** The copy pass has `work` still to do, and will have visited `goal` when it is done. */
  ghost predicate Heads(h: Heap, r: Region, placed: seq<Ptr>, work: seq<Zval>, goal: seq<Ptr>) {
    forall z {:trigger LookAtWalk(z)} :: LookAtWalk(z) ==> Scan(h, r, placed, work) == Accept(goal)
  }

  lemma HeadsOne(h: Heap, r: Region, placed: seq<Ptr>, v: Zval, rest: seq<Zval>, goal: seq<Ptr>)
    requires Heads(h, r, placed, [v] + rest, goal)
    ensures !Stops(v)
    ensures !(Follows(v) && !Skips(h, r, placed, v.p)) ==> Heads(h, r, placed, rest, goal)
    ensures Follows(v) && !Skips(h, r, placed, v.p) ==>
      Heads(h, r, placed + [v.p], Items(h[v.p]) + rest, goal) && placed + [v.p] <= goal
  {
    assert LookAtWalk(0);
    ScanStep(h, r, placed, v, rest);
    assert ([v] + rest)[0] == v;
    if Follows(v) && !Skips(h, r, placed, v.p) {
      ScanGrows(h, r, placed + [v.p], Items(h[v.p]) + rest);
    }
  }

  /** What a copy pass works on: the source heap, the nodes it will copy, in order, and the block it copies them to. */
  datatype Job = Job(src: Heap, region: Region, goal: seq<Ptr>, alloc: Ptr, size: nat)

  /** How far it has come: the nodes copied so far, in order, and where each copy is. */
  datatype Snap = Snap(heap: Heap, cur: Ptr, table: map<nat, Ptr>, placed: seq<Ptr>, moved: map<Ptr, Ptr>)

  /** Address of the `k`-th copied node: the copies follow the entry, in the order of the walk. */
  function Place(h: Heap, alloc: Ptr, placed: seq<Ptr>, k: nat): Ptr
    requires k <= |placed|
  {
    alloc + ENTRY + TotalBytes(h, placed[..k])
  }

  /** Copies lie side by side from the entry up to `cur`. */
  ghost predicate InPlace(src: Heap, alloc: Ptr, placed: seq<Ptr>, moved: map<Ptr, Ptr>) {
    && (forall p :: p in moved <==> p in placed)
    && (forall k {:trigger Place(src, alloc, placed, k)} :: 0 <= k < |placed| ==>
      moved[placed[k]] == Place(src, alloc, placed, k))
  }

  /** The rest of the block has not been written, and every copy made is in the heap at an address of its own. */
  ghost predicate Unwritten(dst: Heap, moved: map<Ptr, Ptr>, cur: Ptr, end: Ptr) {
    && (forall q {:trigger q in dst} :: cur <= q < end ==> q !in dst)
    && (forall p {:trigger moved[p]} :: p in moved ==> moved[p] > 0 && moved[p] in dst)
    && (forall p, q {:trigger moved[p], moved[q]} :: p in moved && q in moved && moved[p] == moved[q] ==> p == q)
  }

  /** Nothing has been written but copies. */
  ghost predicate OnlyCopies(src: Heap, dst: Heap, moved: map<Ptr, Ptr>) {
    forall q {:trigger q in dst} :: q in dst && q !in src ==> q in moved.Values
  }

  /** State of the copy pass between two nodes. */
  ghost predicate CopyState(j: Job, s: Snap) {
    && WellFormed(j.src) && Extends(j.src, s.heap)
    && j.alloc > 0 && j.size == ENTRY + TotalBytes(j.src, j.goal)
    && s.cur == j.alloc + ENTRY + TotalBytes(j.src, s.placed)
    && Visited(j.src, j.region, s.placed)
    && TableOf(s.table, s.moved)
    && InPlace(j.src, j.alloc, s.placed, s.moved)
    && Unwritten(s.heap, s.moved, s.cur, j.alloc + j.size)
    && OnlyCopies(j.src, s.heap, s.moved)
  }

  /** The same, folded. */
  ghost predicate Stands(j: Job, s: Snap) {
    forall z {:trigger LookAtState(z)} :: LookAtState(z) ==> CopyState(j, s)
  }

  /** What the table says about one pointer. */
  lemma Lookup(j: Job, s: Snap, p: Ptr)
    requires Stands(j, s) && p in j.src && !j.src[p].BoxNode?
    ensures 0 < p < SIZE_LIMIT && NodeTyped(j.src, j.src[p]) && p in s.heap && s.heap[p] == j.src[p]
    ensures p in s.placed <==> p in s.moved
    ensures p in s.moved <==> Rotated(p) in s.table
    ensures p in s.moved ==> s.table[Rotated(p)] == s.moved[p] && s.moved[p] > 0
  {
    assert LookAtState(0);
    assert NodeTyped(j.src, j.src[p]);
  }

  /** There is room for every node the walk has yet to visit. */
  lemma RoomFor(j: Job, s: Snap, p: Ptr)
    requires CopyState(j, s) && s.placed + [p] <= j.goal
    ensures s.cur + BytesOf(j.src, p) <= j.alloc + j.size
  {
    TotalMore(j.src, s.placed, p);
    TotalPrefix(j.src, s.placed + [p], j.goal);
  }

  lemma NodeHasBytes(h: Heap, p: Ptr)
    requires p in h && !h[p].BoxNode?
    ensures BytesOf(h, p) > 0
  {
  }

  /** State after node `p` has been given the copy `n` at the current position. */
  function Entered(j: Job, s: Snap, p: Ptr, n: Node): Snap
    requires p < SIZE_LIMIT
  {
    Snap(s.heap[s.cur := n], s.cur + BytesOf(j.src, p), s.table[Rotated(p) := s.cur], s.placed + [p],
      s.moved[p := s.cur])
  }

  lemma PlaceMore(j: Job, s: Snap, p: Ptr, n: Node)
    requires CopyState(j, s)
    requires p in j.src && !j.src[p].BoxNode? && p < SIZE_LIMIT && !Skips(j.src, j.region, s.placed, p)
    requires s.placed + [p] <= j.goal
    ensures CopyState(j, Entered(j, s, p, n))
    ensures s.cur !in s.heap && p !in s.moved
  {
    var t := Entered(j, s, p, n);
    assert s.cur < t.cur <= j.alloc + j.size by {
      RoomFor(j, s, p);
      NodeHasBytes(j.src, p);
    }
    assert t.cur == j.alloc + ENTRY + TotalBytes(j.src, t.placed) by {
      TotalMore(j.src, s.placed, p);
    }
    assert p !in s.moved && s.cur !in s.heap;
    assert Visited(j.src, j.region, t.placed) by {
      VisitedMore(j.src, j.region, s.placed, p);
    }
    assert TableOf(t.table, t.moved) by {
      TableOfMore(s.table, s.moved, p, s.cur);
    }
    assert InPlace(j.src, j.alloc, t.placed, t.moved) by {
      InPlaceMore(j.src, j.alloc, s.placed, s.moved, p, s.cur);
    }
    assert Unwritten(t.heap, t.moved, t.cur, j.alloc + j.size) by {
      UnwrittenMore(s.heap, s.moved, s.cur, j.alloc + j.size, p, n, t.cur);
    }
    assert OnlyCopies(j.src, t.heap, t.moved) by {
      OnlyCopiesMore(j.src, s.heap, s.moved, p, s.cur, n);
    }
  }

  lemma VisitedMore(h: Heap, r: Region, ps: seq<Ptr>, p: Ptr)
    requires Visited(h, r, ps) && p in h && !Skips(h, r, ps, p)
    ensures Visited(h, r, ps + [p])
  {
  }

  lemma OnlyCopiesMore(src: Heap, dst: Heap, moved: map<Ptr, Ptr>, p: Ptr, cur: Ptr, n: Node)
    requires OnlyCopies(src, dst, moved) && p !in moved
    ensures OnlyCopies(src, dst[cur := n], moved[p := cur])
  {
    var moved' := moved[p := cur];
    forall q | q in dst[cur := n] && q !in src ensures q in moved'.Values {
      if q == cur {
        assert moved'[p] == cur;
      } else {
        assert q in dst && q in moved.Values;
        var a :| a in moved && moved[a] == q;
        assert moved'[a] == q;
      }
    }
  }

  lemma UnwrittenMore(dst: Heap, moved: map<Ptr, Ptr>, cur: Ptr, end: Ptr, p: Ptr, n: Node, cur': Ptr)
    requires Unwritten(dst, moved, cur, end) && 0 < cur < cur' <= end && p !in moved
    ensures Unwritten(dst[cur := n], moved[p := cur], cur', end) && cur !in dst
  {
  }

  lemma InPlaceMore(src: Heap, alloc: Ptr, placed: seq<Ptr>, moved: map<Ptr, Ptr>, p: Ptr, cur: Ptr)
    requires InPlace(src, alloc, placed, moved) && p !in placed
    requires cur == alloc + ENTRY + TotalBytes(src, placed)
    ensures InPlace(src, alloc, placed + [p], moved[p := cur])
  {
    var placed', moved' := placed + [p], moved[p := cur];
    forall k | 0 <= k < |placed'| ensures moved'[placed'[k]] == Place(src, alloc, placed', k) {
      if k < |placed| {
        assert placed'[k] == placed[k] && placed'[..k] == placed[..k];
        assert Place(src, alloc, placed', k) == Place(src, alloc, placed, k);
      } else {
        assert placed'[..k] == placed;
      }
    }
  }

  // ---- progress ----

  /** Every node copied since `was` is finished, `gray` perhaps excepted. */
  ghost predicate CopiedBut(j: Job, was: map<Ptr, Ptr>, s: Snap, gray: set<Ptr>) {
    forall q {:trigger q in s.moved} :: q in s.moved && q !in was && q !in gray ==>
      Finished(j.src, s.heap, j.region, s.moved, q)
  }

  /** From `a` to `b` copies have only been added, and all the new ones are finished. */
  ghost predicate Advances(j: Job, a: Snap, b: Snap) {
    && a.placed <= b.placed
    && (forall z {:trigger LookAtProgress(z)} :: LookAtProgress(z) ==>
      Extends(a.heap, b.heap) && Extends(a.moved, b.moved) && CopiedBut(j, a.moved, b, {}))
  }

  lemma AdvancesTwice(j: Job, a: Snap, b: Snap, c: Snap)
    requires Advances(j, a, b) && Advances(j, b, c)
    ensures Advances(j, a, c)
  {
    assert LookAtProgress(0);
    StayFinished(j, a.moved, b, c, {});
  }

  /** Finished copies stay so while the pass advances. */
  lemma StayFinished(j: Job, was: map<Ptr, Ptr>, b: Snap, c: Snap, gray: set<Ptr>)
    requires CopiedBut(j, was, b, gray) && Extends(b.heap, c.heap) && Extends(b.moved, c.moved)
    requires CopiedBut(j, b.moved, c, {})
    ensures CopiedBut(j, was, c, gray)
  {
    forall q | q in c.moved && q !in was && q !in gray ensures Finished(j.src, c.heap, j.region, c.moved, q) {
      if q in b.moved {
        FinishedStays(j.src, b.heap, c.heap, j.region, b.moved, c.moved, q);
      }
    }
  }
}
