/** When one node is a copy of another, and why a graph of copies means what the original means. */
module Copies {
  import opened Layout
  import opened Values
  import opened Traversal

  const EMPTY_DATA: Ptr := 1   // the static slot area shared by all empty arrays
  const EMPTY_SLOTS: nat := 2  // hash slots in it (HT_MIN_MASK)

  /** Where a pointer leads in the copy: unchanged inside shared memory, to the node's copy elsewhere. */
  function Moved(r: Region, moved: map<Ptr, Ptr>, p: Ptr): Ptr {
    if !r.Contains(p) && p in moved then moved[p] else p
  }

  function MovedVal(r: Region, moved: map<Ptr, Ptr>, v: Zval): Zval {
    match v
    case Str(p) => Str(Moved(r, moved, p))
    case Arr(p) => Arr(Moved(r, moved, p))
    case _ => v
  }

  /** The pointer has been dealt with: it leads into shared memory or to a node already copied. */
  predicate Known(r: Region, moved: map<Ptr, Ptr>, v: Zval) {
    !Stops(v) && (Follows(v) ==> r.Contains(v.p) || v.p in moved)
  }

  function MovedSlot(r: Region, moved: map<Ptr, Ptr>, packed: bool, b: Bucket): Bucket {
    if b.val.Undef? then b
    else Bucket(b.h, if packed || b.key == 0 then b.key else Moved(r, moved, b.key), MovedVal(r, moved, b.val))
  }

  ghost predicate SlotKnown(r: Region, moved: map<Ptr, Ptr>, packed: bool, b: Bucket) {
    forall v :: v in SlotItems(packed, b) ==> Known(r, moved, v)
  }

  // ---- the bookkeeping fields of a copied array ----

  /** Integer key of slot `i`, if it is live and has one. */
  predicate HasIntKey(packed: bool, bs: seq<Bucket>, i: nat)
    requires i < |bs|
  {
    !bs[i].val.Undef? && (packed || bs[i].key == 0)
  }

  function IntKeyAt(packed: bool, bs: seq<Bucket>, i: nat): int
    requires i < |bs|
  {
    if packed then i else bs[i].h
  }

  /** `nf` is one more than the largest non-negative integer key among the first `k` slots, 0 if there is none. */
  ghost predicate NextFree(packed: bool, bs: seq<Bucket>, k: nat, nf: int)
    requires k <= |bs|
  {
    && nf >= 0
    && (forall i: nat :: i < k && HasIntKey(packed, bs, i) ==> IntKeyAt(packed, bs, i) < nf)
    && (nf > 0 ==> exists i: nat :: i < k && HasIntKey(packed, bs, i) && IntKeyAt(packed, bs, i) + 1 == nf)
  }

  /** `f` is the first live slot among the first `k`, or NO_SLOT. */
  ghost predicate FirstLive(bs: seq<Bucket>, k: nat, f: nat)
    requires k <= |bs|
  {
    if f == NO_SLOT then forall i :: 0 <= i < k ==> bs[i].val.Undef?
    else f < k && !bs[f].val.Undef? && forall i :: 0 <= i < f ==> bs[i].val.Undef?
  }

  /** No live integer key is the largest representable one. */
  ghost predicate KeysBelowMax(packed: bool, bs: seq<Bucket>) {
    forall i: nat :: i < |bs| && HasIntKey(packed, bs, i) ==> IntKeyAt(packed, bs, i) < MAX_LONG
  }

  /** `m` is the last of the first `k` slots whose integer key is the largest integer. */
  ghost predicate LastTop(packed: bool, bs: seq<Bucket>, k: nat, m: nat)
    requires k <= |bs|
  {
    && m < k && HasIntKey(packed, bs, m) && IntKeyAt(packed, bs, m) == MAX_LONG
    && (forall i: nat :: m < i < k && HasIntKey(packed, bs, i) ==> IntKeyAt(packed, bs, i) < MAX_LONG)
  }

  /** `nf` is one more than the largest integer key in slots m + 1 to k, and the smallest integer if there is none. */
  ghost predicate Restarted(packed: bool, bs: seq<Bucket>, m: nat, k: nat, nf: int)
    requires k <= |bs|
  {
    && nf >= MIN_LONG
    && (forall i: nat :: m < i < k && HasIntKey(packed, bs, i) ==> IntKeyAt(packed, bs, i) < nf)
    && (nf > MIN_LONG ==> exists i: nat :: m < i < k && HasIntKey(packed, bs, i) && IntKeyAt(packed, bs, i) + 1 == nf)
  }

  ghost predicate BelowMaxUpTo(packed: bool, bs: seq<Bucket>, k: nat)
    requires k <= |bs|
  {
    forall i: nat :: i < k && HasIntKey(packed, bs, i) ==> IntKeyAt(packed, bs, i) < MAX_LONG
  }

  /** The next free key the copying loop arrives at: it wraps at the largest integer and counts on from there. */
  ghost predicate NextWraps(packed: bool, bs: seq<Bucket>, k: nat, nf: int)
    requires k <= |bs|
  {
    && MIN_LONG <= nf <= MAX_LONG
    && (BelowMaxUpTo(packed, bs, k) ==> NextFree(packed, bs, k, nf))
    && (forall m: nat :: LastTop(packed, bs, k, m) ==> Restarted(packed, bs, m, k, nf))
  }

  /** PHP's own rule: the largest integer stays the largest. */
  ghost predicate NextSaturates(packed: bool, bs: seq<Bucket>, nf: int) {
    if KeysBelowMax(packed, bs) then NextFree(packed, bs, |bs|, nf) else nf == MAX_LONG
  }

  // ---- copies ----

  /** Hash part and slots of the array at `p` lie inside its own bytes, or it shares the static area of empty arrays. */
  predicate SlotsInside(p: Ptr, n: Node)
    requires n.ArrNode?
  {
    if n.data == EMPTY_DATA then n.buckets == [] && !n.packed && n.hashSlots == EMPTY_SLOTS
    else p + HASH_TABLE <= n.data && n.data + DataSize(n.packed, n.hashSlots, |n.buckets|) <= p + NodeBytes(n)
  }

  /** `n'` at address `at` is the immutable copy of `n`. */
  ghost predicate IsCopy(r: Region, moved: map<Ptr, Ptr>, n: Node, n': Node, at: Ptr) {
    match n
    case StrNode(bytes, _, _) => n' == ShmStr(bytes)
    case ArrNode(packed, hashSlots, bs, _, _, internal, live, _) =>
      && n'.ArrNode? && n'.immutable && |n'.buckets| == |bs| && n'.live == live
      && (bs == [] ==> !n'.packed && n'.hashSlots == EMPTY_SLOTS && n'.internal == internal)
      && (bs != [] ==> n'.packed == packed && n'.hashSlots == hashSlots)
      && (forall i :: 0 <= i < |bs| ==>
        SlotKnown(r, moved, packed, bs[i]) && n'.buckets[i] == MovedSlot(r, moved, packed, bs[i]))
      && n'.data == (if bs == [] then EMPTY_DATA else at + HASH_TABLE)
      && NextWraps(packed, bs, |bs|, n'.nextFree)
      && (bs != [] ==> FirstLive(bs, |bs|, n'.internal))
    case BoxNode(_, _) => false
  }

  /** The copy of `p` is in place. */
  ghost predicate Finished(src: Heap, dst: Heap, r: Region, moved: map<Ptr, Ptr>, p: Ptr) {
    && p in src && !r.Contains(p)
    && p in moved && moved[p] > 0 && moved[p] in dst && IsCopy(r, moved, src[p], dst[moved[p]], moved[p])
  }

  ghost predicate Extends<K, V>(a: map<K, V>, b: map<K, V>) {
    forall k :: k in a ==> k in b && b[k] == a[k]
  }

  lemma SlotStays(r: Region, a: map<Ptr, Ptr>, b: map<Ptr, Ptr>, packed: bool, s: Bucket)
    requires Extends(a, b) && SlotKnown(r, a, packed, s)
    ensures SlotKnown(r, b, packed, s) && MovedSlot(r, a, packed, s) == MovedSlot(r, b, packed, s)
  {
    if !s.val.Undef? {
      assert s.val in SlotItems(packed, s);
      if !packed && s.key != 0 {
        assert Str(s.key) in SlotItems(packed, s);
      }
    }
  }

  /** A finished copy stays finished while more nodes are copied elsewhere. */
  lemma FinishedStays(src: Heap, dst: Heap, dst': Heap, r: Region, a: map<Ptr, Ptr>, b: map<Ptr, Ptr>, p: Ptr)
    requires Finished(src, dst, r, a, p) && Extends(a, b) && Extends(dst, dst')
    ensures Finished(src, dst', r, b, p)
  {
    if src[p].ArrNode? {
      var bs := src[p].buckets;
      forall i | 0 <= i < |bs| ensures SlotKnown(r, b, src[p].packed, bs[i])
        && MovedSlot(r, a, src[p].packed, bs[i]) == MovedSlot(r, b, src[p].packed, bs[i]) {
        SlotStays(r, a, b, src[p].packed, bs[i]);
      }
    }
  }

  // ---- meaning ----

  /** Adding nodes elsewhere changes no value of a heap whose pointers all stay inside it. */
  lemma {:induction false} UnfoldExtends(src: Heap, dst: Heap, v: Zval, n: nat)
    requires WellFormed(src) && Extends(src, dst) && Typed(src, v)
    ensures Unfold(dst, v, n) == Unfold(src, v, n)
    decreases n, 0, 1
  {
    if n > 0 {
      match v
      case Arr(p) =>
        assert NodeTyped(src, src[p]);
        SlotsExtend(src, dst, p, |src[p].buckets|, n - 1);
      case Obj(p) => KidsExtend(src, dst, p, |src[p].kids|, n - 1);
      case Ref(p) => KidsExtend(src, dst, p, |src[p].kids|, n - 1);
      case Indirect(p) => KidsExtend(src, dst, p, |src[p].kids|, n - 1);
      case _ =>
    }
  }

  lemma {:induction false} SlotsExtend(src: Heap, dst: Heap, p: Ptr, k: nat, n: nat)
    requires WellFormed(src) && Extends(src, dst) && p in src && src[p].ArrNode? && k <= |src[p].buckets|
    ensures UnfoldSlots(dst, src[p].packed, src[p].buckets, k, n) ==
      UnfoldSlots(src, src[p].packed, src[p].buckets, k, n)
    decreases n, k, 2
  {
    if k > 0 {
      SlotsExtend(src, dst, p, k - 1, n);
      var b := src[p].buckets[k - 1];
      if !b.val.Undef? {
        SlotItemsIn(src[p].packed, src[p].buckets, k - 1, 0);
        assert NodeTyped(src, src[p]);
        UnfoldExtends(src, dst, b.val, n);
        assert !src[p].packed && b.key != 0 ==> Typed(src, Str(b.key));
      }
    }
  }

  lemma {:induction false} KidsExtend(src: Heap, dst: Heap, p: Ptr, k: nat, n: nat)
    requires WellFormed(src) && Extends(src, dst) && p in src && src[p].BoxNode? && k <= |src[p].kids|
    ensures UnfoldAll(dst, src[p].kids, k, n) == UnfoldAll(src, src[p].kids, k, n)
    decreases n, k, 2
  {
    if k > 0 {
      KidsExtend(src, dst, p, k - 1, n);
      assert NodeTyped(src, src[p]);
      UnfoldExtends(src, dst, src[p].kids[k - 1], n);
    }
  }

  /** Every node of `moved` has a finished copy in `dst`, which otherwise only adds to `src`. */
  ghost predicate CopiedGraph(src: Heap, dst: Heap, r: Region, moved: map<Ptr, Ptr>) {
    && WellFormed(src) && Extends(src, dst)
    && (forall p :: p in moved ==> Finished(src, dst, r, moved, p))
  }

  /** To every depth, a moved value unfolds in the new heap as the original did in the old one. */
  lemma {:induction false} CopyMeansSame(src: Heap, dst: Heap, r: Region, moved: map<Ptr, Ptr>, v: Zval, n: nat)
    requires CopiedGraph(src, dst, r, moved)
    requires Typed(src, v) && Known(r, moved, v)
    ensures Unfold(dst, MovedVal(r, moved, v), n) == Unfold(src, v, n)
    decreases n, 0, 1
  {
    if Follows(v) && !r.Contains(v.p) {
      assert Finished(src, dst, r, moved, v.p);
      if v.Arr? && n > 0 {
        SlotsMeanSame(src, dst, r, moved, v.p, |src[v.p].buckets|, n - 1);
      }
    } else {
      UnfoldExtends(src, dst, v, n);
    }
  }

  lemma {:induction false} SlotsMeanSame(src: Heap, dst: Heap, r: Region, moved: map<Ptr, Ptr>, p: Ptr, k: nat, n: nat)
    requires CopiedGraph(src, dst, r, moved) && p in moved && src[p].ArrNode? && k <= |src[p].buckets|
    ensures dst[moved[p]].ArrNode? && k <= |dst[moved[p]].buckets|
    ensures UnfoldSlots(dst, dst[moved[p]].packed, dst[moved[p]].buckets, k, n)
         == UnfoldSlots(src, src[p].packed, src[p].buckets, k, n)
    decreases n, k, 2
  {
    assert Finished(src, dst, r, moved, p);
    if k > 0 {
      SlotsMeanSame(src, dst, r, moved, p, k - 1, n);
      if !src[p].buckets[k - 1].val.Undef? {
        SlotMeansSame(src, dst, r, moved, p, k - 1, n);
      }
    }
  }

  /** One live slot: key and value. */
  lemma {:induction false} SlotMeansSame(src: Heap, dst: Heap, r: Region, moved: map<Ptr, Ptr>, p: Ptr, i: nat, n: nat)
    requires CopiedGraph(src, dst, r, moved) && p in moved && Finished(src, dst, r, moved, p) && src[p].ArrNode?
    requires i < |src[p].buckets| && !src[p].buckets[i].val.Undef?
    ensures
      var b, b' := src[p].buckets[i], dst[moved[p]].buckets[i];
      && dst[moved[p]].packed == src[p].packed && !b'.val.Undef?
      && KeyOf(dst, src[p].packed, b', i) == KeyOf(src, src[p].packed, b, i)
      && Unfold(dst, b'.val, n) == Unfold(src, b.val, n)
    decreases n, i, 3
  {
    var packed, b, b' := src[p].packed, src[p].buckets[i], dst[moved[p]].buckets[i];
    assert SlotKnown(r, moved, packed, b) && b' == MovedSlot(r, moved, packed, b);
    assert NodeTyped(src, src[p]);
    SlotTyped(src, p, i);
    assert b.val in SlotItems(packed, b);
    CopyMeansSame(src, dst, r, moved, b.val, n);
    if !packed && b.key != 0 {
      assert Str(b.key) in SlotItems(packed, b);
      KeyStays(src, dst, r, moved, b.key);
    }
  }

  lemma KeyStays(src: Heap, dst: Heap, r: Region, moved: map<Ptr, Ptr>, p: Ptr)
    requires CopiedGraph(src, dst, r, moved) && Typed(src, Str(p)) && Known(r, moved, Str(p))
    ensures BytesAt(dst, Moved(r, moved, p)) == BytesAt(src, p)
    ensures Moved(r, moved, p) != 0
  {
    assert NodeTyped(src, src[p]);
    if !r.Contains(p) {
      assert Finished(src, dst, r, moved, p);
    }
  }

  /**
   * Slot for slot a copied array keeps what lookups in it rely on: holes stay holes, hashes and integer keys are the
   * same, and a string key reads the same; so are the number of elements and, unless there are no slots, the layout.
   */
  lemma SlotKept(src: Heap, dst: Heap, r: Region, moved: map<Ptr, Ptr>, p: Ptr, i: nat)
    requires CopiedGraph(src, dst, r, moved) && p in moved && p in src && src[p].ArrNode? && i < |src[p].buckets|
    ensures moved[p] in dst && dst[moved[p]].ArrNode? && |dst[moved[p]].buckets| == |src[p].buckets|
    ensures
      var n, n' := src[p], dst[moved[p]];
      var b, b' := n.buckets[i], n'.buckets[i];
      && n'.live == n.live && n'.packed == n.packed && n'.hashSlots == n.hashSlots
      && b'.h == b.h && (b'.val.Undef? <==> b.val.Undef?)
      && (!n.packed && !b.val.Undef? ==>
        (b'.key == 0 <==> b.key == 0) && (b.key != 0 ==> BytesAt(dst, b'.key) == BytesAt(src, b.key)))
  {
    assert Finished(src, dst, r, moved, p);
    var n, b := src[p], src[p].buckets[i];
    assert SlotKnown(r, moved, n.packed, b);
    if !n.packed && !b.val.Undef? && b.key != 0 {
      assert NodeTyped(src, n) && Str(b.key) in SlotItems(n.packed, b);
      SlotTyped(src, p, i);
      KeyStays(src, dst, r, moved, b.key);
    }
  }
}
