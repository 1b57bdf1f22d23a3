/** The copy of an array while its slots are being filled in, in place. */
module Filling {
  import opened Focus
  import opened Layout
  import opened Values
  import opened Traversal
  import opened Memo
  import opened Copies
  import opened Placement

  /** Array `p` was entered in state `a`; its copy in `s` is still being filled in, all later copies are finished. */
  ghost predicate Busy(j: Job, a: Snap, s: Snap, p: Ptr) {
    && p in j.src && p in s.moved && s.moved[p] in s.heap
    && (forall z {:trigger LookAtProgress(z)} :: LookAtProgress(z) ==>
      && a.placed + [p] <= s.placed && p !in a.moved
      && Extends(j.src, a.heap) && Extends(a.heap, s.heap) && Extends(a.moved, s.moved)
      && s.moved[p] !in a.heap && s.moved[p] > 0
      && !j.region.Contains(p)
      && CopiedBut(j, a.moved, s, {p}))
  }

  /** What may be entered next: a node of the walk that has no copy yet. */
  ghost predicate Due(j: Job, s: Snap, p: Ptr) {
    p in j.src && !j.src[p].BoxNode? && !Skips(j.src, j.region, s.placed, p) && s.placed + [p] <= j.goal
  }

  /** Entering a node finds room for it and unused memory. */
  lemma Enter(j: Job, s: Snap, p: Ptr, n: Node)
    requires Stands(j, s) && Due(j, s, p) && p < SIZE_LIMIT
    ensures Stands(j, Entered(j, s, p, n)) && s.cur !in s.heap && s.cur > 0 && p !in s.moved
    ensures s.cur + BytesOf(j.src, p) <= j.alloc + j.size && Extends(j.src, s.heap)
  {
    assert LookAtState(0);
    RoomFor(j, s, p);
    PlaceMore(j, s, p, n);
  }

  lemma BusyStarts(j: Job, a: Snap, p: Ptr, n: Node)
    requires Stands(j, a) && Due(j, a, p) && p < SIZE_LIMIT
    ensures Busy(j, a, Entered(j, a, p, n), p)
  {
    Enter(j, a, p, n);
  }

  /** Copying something else meanwhile leaves the half-made copy alone. */
  lemma BusyAdvances(j: Job, a: Snap, s: Snap, t: Snap, p: Ptr)
    requires Busy(j, a, s, p) && Advances(j, s, t)
    ensures Busy(j, a, t, p) && t.moved[p] == s.moved[p] && t.heap[t.moved[p]] == s.heap[s.moved[p]]
    ensures Extends(s.moved, t.moved)
  {
    assert LookAtProgress(0);
    StayFinished(j, a.moved, s, t, {p});
  }

  /** The heap after the copy at `at` has been written again. */
  function Patched(s: Snap, at: Ptr, n: Node): Snap {
    s.(heap := s.heap[at := n])
  }

  lemma PatchKeeps(j: Job, a: Snap, s: Snap, p: Ptr, n: Node)
    requires Busy(j, a, s, p) && Stands(j, s)
    ensures Stands(j, Patched(s, s.moved[p], n)) && Busy(j, a, Patched(s, s.moved[p], n), p)
  {
    assert LookAtProgress(0);
    assert LookAtState(0);
    var t := Patched(s, s.moved[p], n);
    assert Extends(j.src, t.heap);
    assert Unwritten(t.heap, t.moved, t.cur, j.alloc + j.size);
    assert OnlyCopies(j.src, t.heap, t.moved);
    PatchBusy(j, a, s, p, n);
  }

  lemma PatchBusy(j: Job, a: Snap, s: Snap, p: Ptr, n: Node)
    requires Busy(j, a, s, p)
    requires Unwritten(s.heap, s.moved, s.cur, j.alloc + j.size)
    ensures Busy(j, a, Patched(s, s.moved[p], n), p)
  {
  }

  /** Once its copy is right, the array is one more finished node. */
  lemma BusyEnds(j: Job, a: Snap, s: Snap, p: Ptr)
    requires Busy(j, a, s, p) && IsCopy(j.region, s.moved, j.src[p], s.heap[s.moved[p]], s.moved[p])
    ensures Advances(j, a, s)
  {
    assert LookAtProgress(0);
  }

  /** A copied string needs nothing more. */
  lemma StringAdvances(j: Job, s: Snap, p: Ptr)
    requires p in j.src && j.src[p].StrNode? && p < SIZE_LIMIT && !j.region.Contains(p)
    requires s.cur !in s.heap && s.cur > 0 && p !in s.moved
    ensures Advances(j, s, Entered(j, s, p, ShmStr(j.src[p].bytes)))
  {
  }

  /** What has been dealt with stays where it is. */
  lemma KnownStays(j: Job, a: Snap, b: Snap, v: Zval)
    requires Advances(j, a, b) && Known(j.region, a.moved, v)
    ensures Known(j.region, b.moved, v) && MovedVal(j.region, b.moved, v) == MovedVal(j.region, a.moved, v)
  {
    assert LookAtProgress(0);
  }

  lemma AdvancesNot(j: Job, s: Snap)
    ensures Advances(j, s, s)
  {
  }

  /** A string at the head of the work: it has its place in shared memory already, or gets a finished copy. */
  lemma StringMet(j: Job, s: Snap, p: Ptr, rest: seq<Zval>)
    requires Stands(j, s) && Typed(j.src, Str(p))
    requires Heads(j.src, j.region, s.placed, [Str(p)] + rest, j.goal)
    ensures p in j.src && j.src[p].StrNode? && p in s.heap && s.heap[p] == j.src[p] && 0 < p < SIZE_LIMIT
    ensures NodeTyped(j.src, j.src[p]) && (p in s.moved ==> s.moved[p] > 0)
    ensures j.region.Contains(p) || p in s.moved ==> Heads(j.src, j.region, s.placed, rest, j.goal)
    ensures !j.region.Contains(p) && p !in s.moved ==>
      var t := Entered(j, s, p, ShmStr(j.src[p].bytes));
      && s.cur + BytesOf(j.src, p) <= j.alloc + j.size
      && Stands(j, t) && Advances(j, s, t) && Heads(j.src, j.region, t.placed, rest, j.goal)
  {
    HeadsOne(j.src, j.region, s.placed, Str(p), rest, j.goal);
    Lookup(j, s, p);
    if !j.region.Contains(p) && p !in s.moved {
      Enter(j, s, p, ShmStr(j.src[p].bytes));
      StringAdvances(j, s, p);
      assert Items(j.src[p]) + rest == rest;
    }
  }

  // ---- slots ----

  /** The copy of an array header before any slot is moved; an empty array shares a static slot area. */
  function RawCopy(n: Node, at: Ptr): Node
    requires n.ArrNode?
  {
    if n.buckets == [] then n.(immutable := true, packed := false, hashSlots := EMPTY_SLOTS, nextFree := 0,
                           data := EMPTY_DATA)
    else n.(immutable := true, nextFree := 0, internal := NO_SLOT, data := at + HASH_TABLE)
  }

  lemma RawCopyStarts(r: Region, moved: map<Ptr, Ptr>, n: Node, at: Ptr)
    requires n.ArrNode?
    ensures n.buckets == [] ==> IsCopy(r, moved, n, RawCopy(n, at), at)
    ensures n.buckets != [] ==> Filled(r, moved, n, RawCopy(n, at), at, 0) && Booked(n, RawCopy(n, at), 0)
    ensures RawCopy(n, at).buckets == n.buckets
  {
  }

  /** The first `i` slots of `n'` are moved, slot `i` is being worked on, the later ones are as they were. */
  ghost predicate Filled(r: Region, moved: map<Ptr, Ptr>, n: Node, n': Node, at: Ptr, i: nat) {
    && n.ArrNode? && n'.ArrNode? && n.buckets != [] && |n'.buckets| == |n.buckets|
    && n'.packed == n.packed && n'.hashSlots == n.hashSlots && n'.live == n.live && n'.immutable &&
      n'.data == at + HASH_TABLE
    && (forall z {:trigger LookAtSlots(z)} :: LookAtSlots(z) ==>
      && (forall k {:trigger n.buckets[k]} :: 0 <= k < i && k < |n.buckets| ==>
        SlotKnown(r, moved, n.packed, n.buckets[k]) && n'.buckets[k] == MovedSlot(r, moved, n.packed, n.buckets[k]))
      && (forall k {:trigger n.buckets[k]} :: i < k < |n.buckets| ==> n'.buckets[k] == n.buckets[k]))
  }

  /** Slot `i` has been moved too. */
  lemma FilledMore(r: Region, moved: map<Ptr, Ptr>, n: Node, n': Node, at: Ptr, i: nat)
    requires Filled(r, moved, n, n', at, i) && i < |n.buckets|
    requires SlotKnown(r, moved, n.packed, n.buckets[i]) && n'.buckets[i] == MovedSlot(r, moved, n.packed, n.buckets[i])
    ensures Filled(r, moved, n, n', at, i + 1)
    ensures i + 1 < |n.buckets| ==> n'.buckets[i + 1] == n.buckets[i + 1]
  {
    assert LookAtSlots(0);
    assert i + 1 < |n.buckets| ==> n.buckets[i + 1] == n'.buckets[i + 1];
  }

  /** Of slot `b` the key has been moved, and not yet the value. */
  ghost predicate KeyMoved(r: Region, moved: map<Ptr, Ptr>, packed: bool, b: Bucket, b': Bucket) {
    && b'.h == b.h && b'.val == b.val
    && if !packed && b.key != 0 then Known(r, moved, Str(b.key)) && b'.key == Moved(r, moved, b.key)
       else b'.key == b.key
  }

  lemma SlotMoved(r: Region, before: map<Ptr, Ptr>, after: map<Ptr, Ptr>, packed: bool, b: Bucket, b': Bucket, w: Zval)
    requires !b.val.Undef? && Extends(before, after) && KeyMoved(r, before, packed, b, b')
    requires w == MovedVal(r, after, b.val) && Known(r, after, b.val)
    ensures SlotKnown(r, after, packed, b) && b'.(val := w) == MovedSlot(r, after, packed, b)
  {
  }

  /** Writing slot `i` of the copy. */
  function WithSlot(n: Node, i: nat, b: Bucket): Node
    requires n.ArrNode? && i < |n.buckets|
  {
    n.(buckets := n.buckets[i := b])
  }

  lemma WithSlotKeeps(r: Region, moved: map<Ptr, Ptr>, n: Node, n': Node, at: Ptr, i: nat, b: Bucket)
    requires Filled(r, moved, n, n', at, i) && Booked(n, n', i + 1) && i < |n.buckets|
    ensures Filled(r, moved, n, WithSlot(n', i, b), at, i) && Booked(n, WithSlot(n', i, b), i + 1)
  {
  }

  lemma NotedKeeps(r: Region, moved: map<Ptr, Ptr>, n: Node, n': Node, at: Ptr, i: nat)
    requires Filled(r, moved, n, n', at, i) && i < |n.buckets|
    ensures Filled(r, moved, n, Noted(n', i), at, i) && Noted(n', i).buckets == n'.buckets
  {
  }

  lemma FilledStays(r: Region, a: map<Ptr, Ptr>, b: map<Ptr, Ptr>, n: Node, n': Node, at: Ptr, i: nat)
    requires Filled(r, a, n, n', at, i) && Extends(a, b)
    ensures Filled(r, b, n, n', at, i)
  {
    assert LookAtSlots(0);
    forall k | 0 <= k < i && k < |n.buckets|
      ensures SlotKnown(r, b, n.packed, n.buckets[k]) && n'.buckets[k] == MovedSlot(r, b, n.packed, n.buckets[k]) {
      SlotStays(r, a, b, n.packed, n.buckets[k]);
    }
  }

  // ---- bookkeeping ----

  /** What the copying loop does with the header when it meets live slot `i`. */
  function Noted(n: Node, i: nat): Node
    requires n.ArrNode? && i < |n.buckets|
  {
    n.(internal := if n.internal == NO_SLOT then i else n.internal,
       nextFree := if HasIntKey(n.packed, n.buckets, i) && IntKeyAt(n.packed, n.buckets, i) >= n.nextFree
                   then Wrapped(IntKeyAt(n.packed, n.buckets, i) + 1) else n.nextFree)
  }

  /** A zend_long one above the largest is the smallest. */
  function Wrapped(x: int): int {
    if x > MAX_LONG then x - SIZE_LIMIT else x
  }

  /** The header fields are right for the first `i` slots of `n`. */
  ghost predicate Booked(n: Node, n': Node, i: nat) {
    && n.ArrNode? && n'.ArrNode? && i <= |n.buckets|
    && (forall z {:trigger LookAtSlots(z)} :: LookAtSlots(z) ==>
      && NextWraps(n.packed, n.buckets, i, n'.nextFree)
      && FirstLive(n.buckets, i, n'.internal))
  }

  /** A slot without an integer key leaves the next free key alone. */
  lemma NextSkips(packed: bool, bs: seq<Bucket>, i: nat, nf: int)
    requires i < |bs| && NextWraps(packed, bs, i, nf) && !HasIntKey(packed, bs, i)
    ensures NextWraps(packed, bs, i + 1, nf)
  {
    var k := i + 1;
    forall m: nat | LastTop(packed, bs, k, m) ensures Restarted(packed, bs, m, k, nf) {
      assert m != i && LastTop(packed, bs, i, m);
    }
  }

  /** One more integer key, below the largest one or equal to it. */
  lemma NextCounts(packed: bool, bs: seq<Bucket>, i: nat, nf: int, nf': int)
    requires i < |bs| && NextWraps(packed, bs, i, nf) && HasIntKey(packed, bs, i)
    requires MIN_LONG <= IntKeyAt(packed, bs, i) <= MAX_LONG
    requires nf' == if IntKeyAt(packed, bs, i) >= nf then Wrapped(IntKeyAt(packed, bs, i) + 1) else nf
    ensures NextWraps(packed, bs, i + 1, nf')
  {
    if IntKeyAt(packed, bs, i) < MAX_LONG {
      if BelowMaxUpTo(packed, bs, i + 1) {
        assert NextFree(packed, bs, i + 1, nf');
      }
      var k := i + 1;
      forall m: nat | LastTop(packed, bs, k, m) ensures Restarted(packed, bs, m, k, nf') {
        assert LastTop(packed, bs, i, m);
      }
    }
  }

  lemma BookedHole(n: Node, n': Node, i: nat)
    requires Booked(n, n', i) && i < |n.buckets| && n.buckets[i].val.Undef?
    ensures Booked(n, n', i + 1)
  {
    assert LookAtSlots(0);
    NextSkips(n.packed, n.buckets, i, n'.nextFree);
  }

  lemma BookedLive(n: Node, n': Node, i: nat)
    requires Booked(n, n', i) && i < |n.buckets| < NO_SLOT && !n.buckets[i].val.Undef?
    requires |n'.buckets| == |n.buckets| && n'.packed == n.packed && n'.buckets[i] == n.buckets[i]
    requires MIN_LONG <= n.buckets[i].h <= MAX_LONG
    ensures Booked(n, Noted(n', i), i + 1)
  {
    assert LookAtSlots(0);
    var m := Noted(n', i);
    assert HasIntKey(n'.packed, n'.buckets, i) == HasIntKey(n.packed, n.buckets, i);
    assert IntKeyAt(n'.packed, n'.buckets, i) == IntKeyAt(n.packed, n.buckets, i);
    if HasIntKey(n.packed, n.buckets, i) {
      NextCounts(n.packed, n.buckets, i, n'.nextFree, m.nextFree);
    } else {
      NextSkips(n.packed, n.buckets, i, n'.nextFree);
    }
    assert FirstLive(n.buckets, i + 1, m.internal);
  }

  /** An array whose one key is the largest integer: the next free key wraps to the smallest. */
  const TOP_KEY: Node := ArrNode(false, 2, [Bucket(MAX_LONG, 0, Scalar(1))], 0, 0, NO_SLOT, 1, true)

  lemma TopKeyWraps()
    ensures Noted(TOP_KEY, 0).nextFree == MIN_LONG
    ensures !NextFree(TOP_KEY.packed, TOP_KEY.buckets, 1, Noted(TOP_KEY, 0).nextFree)
    ensures !NextSaturates(TOP_KEY.packed, TOP_KEY.buckets, Noted(TOP_KEY, 0).nextFree)
  {
    assert HasIntKey(TOP_KEY.packed, TOP_KEY.buckets, 0) && IntKeyAt(TOP_KEY.packed, TOP_KEY.buckets, 0) == MAX_LONG;
  }

  /** Among any slots, the last key equal to the largest integer, if there is one. */
  lemma {:induction false} FindTop(packed: bool, bs: seq<Bucket>, k: nat) returns (m: nat)
    requires k <= |bs|
    requires forall i: nat :: i < k && HasIntKey(packed, bs, i) ==> IntKeyAt(packed, bs, i) <= MAX_LONG
    ensures BelowMaxUpTo(packed, bs, k) || LastTop(packed, bs, k, m)
  {
    m := 0;
    if k > 0 {
      if HasIntKey(packed, bs, k - 1) && IntKeyAt(packed, bs, k - 1) == MAX_LONG {
        m := k - 1;
      } else {
        m := FindTop(packed, bs, k - 1);
      }
    }
  }

  /** The loop determines the next free key. */
  lemma NextUnique(packed: bool, bs: seq<Bucket>, nf: int, nf': int)
    requires NextWraps(packed, bs, |bs|, nf) && NextWraps(packed, bs, |bs|, nf')
    requires forall i: nat :: i < |bs| && HasIntKey(packed, bs, i) ==> IntKeyAt(packed, bs, i) <= MAX_LONG
    ensures nf == nf'
  {
    var m := FindTop(packed, bs, |bs|);
    if !BelowMaxUpTo(packed, bs, |bs|) {
      assert Restarted(packed, bs, m, |bs|, nf) && Restarted(packed, bs, m, |bs|, nf');
    }
  }

  /** The next free key is right exactly when no key is the largest integer: then there is no room for a next one. */
  lemma RightBelowMax(packed: bool, bs: seq<Bucket>, nf: int)
    requires NextWraps(packed, bs, |bs|, nf)
    ensures KeysBelowMax(packed, bs) <==> NextFree(packed, bs, |bs|, nf)
  {
    if NextFree(packed, bs, |bs|, nf) {
      assert KeysBelowMax(packed, bs);
    } else {
      assert !BelowMaxUpTo(packed, bs, |bs|);
    }
  }

  /**
   * The next free key is the one PHP's own arrays would have exactly when no key is the largest integer,
   * or the key just below the largest one comes behind its last occurrence.
   */
  lemma SaturatesIff(packed: bool, bs: seq<Bucket>, nf: int)
    requires NextWraps(packed, bs, |bs|, nf)
    requires forall i: nat :: i < |bs| && HasIntKey(packed, bs, i) ==> IntKeyAt(packed, bs, i) <= MAX_LONG
    ensures NextSaturates(packed, bs, nf) <==>
      KeysBelowMax(packed, bs) ||
      exists m: nat, i: nat :: m < i < |bs| && LastTop(packed, bs, |bs|, m) && HasIntKey(packed, bs, i) &&
        IntKeyAt(packed, bs, i) == MAX_LONG - 1
  {
    RightBelowMax(packed, bs, nf);
    if !KeysBelowMax(packed, bs) {
      var m := FindTop(packed, bs, |bs|);
      assert !BelowMaxUpTo(packed, bs, |bs|);
      assert LastTop(packed, bs, |bs|, m) && Restarted(packed, bs, m, |bs|, nf);
      if nf == MAX_LONG {
        var i: nat :| m < i < |bs| && HasIntKey(packed, bs, i) && IntKeyAt(packed, bs, i) + 1 == nf;
        assert IntKeyAt(packed, bs, i) == MAX_LONG - 1;
      }
    }
  }

  /** Once every slot is filled in and noted, the array is a copy; its next free key wraps at the largest integer. */
  lemma FilledIsCopy(r: Region, moved: map<Ptr, Ptr>, n: Node, n': Node, at: Ptr)
    requires n.ArrNode? && Filled(r, moved, n, n', at, |n.buckets|) && Booked(n, n', |n.buckets|)
    ensures IsCopy(r, moved, n, n', at)
    ensures KeysBelowMax(n.packed, n.buckets) <==> NextFree(n.packed, n.buckets, |n.buckets|, n'.nextFree)
  {
    assert LookAtSlots(0);
    RightBelowMax(n.packed, n.buckets, n'.nextFree);
  }

  /**
   * What holds once header and slot area of array `p` are in place: an empty array is done, the slots of others follow.
   */
  lemma EnterArray(j: Job, s: Snap, p: Ptr)
    requires Stands(j, s) && Due(j, s, p) && p < SIZE_LIMIT && j.src[p].ArrNode?
    ensures s.cur + BytesOf(j.src, p) <= j.alloc + j.size
    ensures
      var n := j.src[p];
      var n' := RawCopy(n, s.cur);
      var t := Entered(j, s, p, n');
      && Stands(j, t) && Busy(j, s, t, p)
      && (n.buckets == [] ==> Advances(j, s, t))
      && (n.buckets != [] ==> Filled(j.region, t.moved, n, n', s.cur, 0) && Booked(n, n', 0))
  {
    var n' := RawCopy(j.src[p], s.cur);
    var t := Entered(j, s, p, n');
    Enter(j, s, p, n');
    BusyStarts(j, s, p, n');
    RawCopyStarts(j.region, t.moved, j.src[p], s.cur);
    if j.src[p].buckets == [] {
      BusyEnds(j, s, t, p);
    }
  }

  /** After the last slot the array is done. */
  lemma ArrayDone(j: Job, a: Snap, s: Snap, p: Ptr)
    requires Busy(j, a, s, p) && j.src[p].ArrNode?
    requires Filled(j.region, s.moved, j.src[p], s.heap[s.moved[p]], s.moved[p], |j.src[p].buckets|)
    requires Booked(j.src[p], s.heap[s.moved[p]], |j.src[p].buckets|)
    ensures Advances(j, a, s)
  {
    FilledIsCopy(j.region, s.moved, j.src[p], s.heap[s.moved[p]], s.moved[p]);
    BusyEnds(j, a, s, p);
  }
}
