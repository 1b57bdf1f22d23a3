/** The two passes of immutable_cache_persist: count the bytes of a value, then copy it into one block. */
module Persist {
  import opened Focus
  import opened Layout
  import opened Options
  import opened Values
  import opened Traversal
  import opened Memo
  import opened Copies
  import opened Placement
  import opened Filling
  import opened Outcomes

  /** A serializer pair; decoding yields a value in a heap of its own. */
  datatype Serializer = Serializer(encode: (Heap, Zval) -> Option<Bytes>, decode: Bytes -> Option<(Heap, Zval)>)

  class Context {
    const region: Region
    const serializer: Serializer  // the configured one, or PHP's own
    var heap: Heap
    var size: nat
    var memo: bool
    var useSer: bool
    var serialized: Option<Bytes>
    var counted: set<nat>
    var copied: map<nat, Ptr>
    var alloc: Ptr
    var cur: Ptr
    ghost var seen: seq<Ptr>           // the pointers behind `counted`, in the order they were counted
    ghost var placed: seq<Ptr>         // the pointers behind `copied`, in the order they were copied
    ghost var moved: map<Ptr, Ptr>     // `copied`, under the pointers themselves

    /** immutable_cache_persist_init_context, with the flags the caller sets next. */
    constructor (region: Region, serializer: Serializer, heap: Heap, memo: bool, useSer: bool)
      ensures this.region == region && this.serializer == serializer && this.heap == heap
      ensures this.memo == memo && this.useSer == useSer && Blank()
    {
      this.region, this.serializer, this.heap, this.memo, this.useSer := region, serializer, heap, memo, useSer;
      size, serialized, counted, copied, alloc, cur := 0, None, {}, map[], 0, 0;
      seen, placed, moved := [], [], map[];
    }

    ghost predicate Blank()
      reads this
    {
      && size == 0 && serialized.None? && counted == {} && copied == map[]
      && seen == [] && placed == [] && moved == map[]
    }

    // ---- counting ----

    /** The counting table is in step with `seen`. */
    ghost predicate Counting()
      reads this
    {
      forall z {:trigger LookInside(z)} :: LookInside(z) ==> KeysOf(counted, seen)
    }

    /** Every node counted so far has been added to the size once. */
    ghost predicate Tallied()
      reads this
    {
      forall z {:trigger LookInside(z)} :: LookInside(z) ==> size == ENTRY + TotalBytes(heap, seen)
    }

    method CalcMemoize(p: Ptr) returns (again: bool)
      requires Counting() && p in heap && p < SIZE_LIMIT
      modifies `counted, `seen
      ensures Counting()
      ensures !memo ==> !again && seen == old(seen) && counted == old(counted)
      ensures memo ==> again == (p in old(seen)) && seen == (if again then old(seen) else old(seen) + [p])
    {
      if !memo {
        return false;
      }
      assert LookInside(0);
      if Rotated(p) in counted {
        return true;
      }
      assert LookInside(0);
      KeysOfMore(counted, seen, p);
      counted := counted + {Rotated(p)};
      seen := seen + [p];
      return false;
    }

    method CalcStr(p: Ptr)
      requires Counting() && Typed(heap, Str(p)) && p < SIZE_LIMIT
      modifies `counted, `seen, `size
      ensures Counting()
      ensures memo ==> seen == SeenAfter(heap, region, old(seen), Str(p))
      ensures memo && old(Tallied()) ==> Tallied()
      ensures !memo ==> seen == old(seen) && counted == old(counted)
      ensures !memo ==> size == old(size) + OutsideBytes(heap, region, Str(p))
    {
      assert LookInside(0);
      if region.Contains(p) {
        return;
      }
      var again := CalcMemoize(p);
      if again {
        return;
      }
      TotalMore(heap, old(seen), p);
      size := size + StrBytes(|heap[p].bytes|);
    }

    method CalcSerialize(v: Zval) returns (ok: bool)
      modifies `serialized, `size
      ensures ok <==> serializer.encode(heap, v).Some?
      ensures ok ==> serialized == serializer.encode(heap, v) && size == old(size) + StrBytes(|serialized.value|)
      ensures !ok ==> serialized == old(serialized) && size == old(size)
    {
      var buf := serializer.encode(heap, v);
      if buf.None? {
        return false;
      }
      serialized := buf;
      size := size + StrBytes(|buf.value|);
      return true;
    }

    /** What the pass does with the top-level value when the memo table is off. */
    ghost predicate PlainOutcome(v: Zval, ok: bool, wasSer: bool, was: nat)
      reads this
    {
      if v.Undef? || v.Scalar? then ok && size == was && useSer == wasSer
      else if wasSer then
        && useSer && (ok <==> serializer.encode(heap, v).Some?)
        && (ok ==> serialized == serializer.encode(heap, v) && size == was + StrBytes(|serialized.value|))
      else if v.Str? then
        ok && !useSer && size == was + OutsideBytes(heap, region, v)
      else !ok && useSer == !v.Res?
    }

    /** Counts the bytes of `v`; with the memo table on, the pass follows the walk of `Scan`. */
    method CalcZval(v: Zval, ghost rest: seq<Zval>) returns (ok: bool)
      requires WellFormed(heap) && Counting() && Typed(heap, v)
      requires memo ==> !useSer && Tallied()
      requires v.Arr? ==> memo || useSer
      modifies `size, `useSer, `serialized, `counted, `seen
      ensures Counting() && old(seen) <= seen
      ensures memo && ok ==> Tallied() && !useSer
      ensures memo ==> FollowsScan(heap, region, old(seen), [v] + rest, seen, rest, ok, useSer)
      ensures v.Undef? ==> ok && seen == old(seen)
      ensures !memo ==> seen == old(seen) && counted == old(counted)
      ensures !memo ==> PlainOutcome(v, ok, old(useSer), old(size))
      decreases if memo then Left(heap, seen) + 1 else 1, 0
    {
      FollowsOne(heap, region, seen, v, rest);
      if v.Undef? || v.Scalar? {
        return true;
      }
      if useSer {
        ok := CalcSerialize(v);
        return;
      }
      if Follows(v) {
        if region.Contains(v.p) {
          return true;
        }
        assert NodeTyped(heap, heap[v.p]);
        var again := CalcMemoize(v.p);
        if again {
          return true;
        }
        assert memo ==> size + BytesOf(heap, v.p) == ENTRY + TotalBytes(heap, seen) by {
          assert LookInside(0);
          TotalMore(heap, old(seen), v.p);
        }
        if memo {
          LeftShrinks(heap, old(seen), v.p);
        }
        ghost var before := seen;
        ok := CalcNode(v, rest);
        ThenFollows(old(seen), [v] + rest, before, Items(heap[v.p]) + rest, rest, ok);
      } else if v.Res? {
        return false;
      } else {
        useSer := true;
        return false;
      }
    }

    lemma ThenFollows(a: seq<Ptr>, work: seq<Zval>, b: seq<Ptr>, mid: seq<Zval>, rest: seq<Zval>, ok: bool)
      ensures
        memo && FollowsScan(heap, region, a, work, b, mid, true, false) &&
        FollowsScan(heap, region, b, mid, seen, rest, ok, useSer) ==>
        FollowsScan(heap, region, a, work, seen, rest, ok, useSer)
    {
    }

    /** A string or array not counted before. */
    method CalcNode(v: Zval, ghost rest: seq<Zval>) returns (ok: bool)
      requires WellFormed(heap) && Counting() && Typed(heap, v) && Follows(v) && !useSer && (v.Arr? ==> memo)
      requires memo ==> size + BytesOf(heap, v.p) == ENTRY + TotalBytes(heap, seen)
      modifies `size, `useSer, `serialized, `counted, `seen
      ensures Counting() && old(seen) <= seen
      ensures memo && ok ==> Tallied() && !useSer
      ensures memo ==> FollowsScan(heap, region, old(seen), Items(heap[v.p]) + rest, seen, rest, ok, useSer)
      ensures !memo ==>
        ok && !useSer && seen == old(seen) && counted == old(counted) &&
        size == old(size) + BytesOf(heap, v.p)
      decreases if memo then Left(heap, seen) + 1 else 0, 4
    {
      if v.Str? {
        FollowsNothing(heap, region, seen, Items(heap[v.p]) + rest, rest, useSer);
        size := size + StrBytes(|heap[v.p].bytes|);
        return true;
      }
      ok := CalcHt(v.p, rest);
    }

    /** The memoized array `p` has been entered in the table; its bytes and its items are counted here. */
    method CalcHt(p: Ptr, ghost rest: seq<Zval>) returns (ok: bool)
      requires WellFormed(heap) && Counting() && Typed(heap, Arr(p))
      requires memo && !useSer && size + BytesOf(heap, p) == ENTRY + TotalBytes(heap, seen)
      modifies `size, `useSer, `serialized, `counted, `seen
      ensures Counting() && old(seen) <= seen
      ensures ok ==> Tallied() && !useSer
      ensures FollowsScan(heap, region, old(seen), Items(heap[p]) + rest, seen, rest, ok, useSer)
      decreases Left(heap, seen) + 1, 3
    {
      var ht := heap[p];
      size := size + HASH_TABLE;
      if |ht.buckets| == 0 {
        FollowsNothing(heap, region, seen, Items(ht) + rest, rest, useSer);
        return true;
      }
      size := size + DataBytes(ht.packed, ht.hashSlots, |ht.buckets|);
      ok := CalcSlots(p, rest);
    }

    /** The counting loop over the slots of array `p`. */
    method CalcSlots(p: Ptr, ghost rest: seq<Zval>) returns (ok: bool)
      requires WellFormed(heap) && Counting() && Typed(heap, Arr(p)) && Tallied() && memo && !useSer
      modifies `size, `useSer, `serialized, `counted, `seen
      ensures Counting() && old(seen) <= seen
      ensures ok ==> Tallied() && !useSer
      ensures FollowsScan(heap, region, old(seen), ItemsFrom(heap[p].packed, heap[p].buckets, 0) + rest, seen, rest, ok,
        useSer)
      decreases Left(heap, seen) + 1, 2
    {
      var packed, bs := heap[p].packed, heap[p].buckets;
      ghost var was, work := seen, ItemsFrom(packed, bs, 0) + rest;
      FollowsNothing(heap, region, seen, work, work, false);
      ok := true;
      var i := 0;
      while i < |bs|
        invariant i <= |bs| && Counting() && Tallied() && !useSer && ok && was <= seen
        invariant FollowsScan(heap, region, was, work, seen, ItemsFrom(packed, bs, i) + rest, true, false)
      {
        ghost var before, next := seen, ItemsFrom(packed, bs, i + 1) + rest;
        ItemsFromStep(packed, bs, i, rest);
        SlotTyped(heap, p, i);
        LeftFalls(heap, was, seen);
        ok := CalcSlot(packed, bs[i], next);
        FollowsTwice(heap, region, was, work, before, SlotItems(packed, bs[i]) + next, seen, next, ok, useSer);
        if !ok {
          FollowsEnd(heap, region, was, work, seen, next, rest, useSer);
          return;
        }
        i := i + 1;
      }
      assert ItemsFrom(packed, bs, i) + rest == rest;
    }

    /** One round of the counting loop. */
    method CalcSlot(packed: bool, b: Bucket, ghost rest: seq<Zval>) returns (ok: bool)
      requires WellFormed(heap) && Counting() && Tallied() && memo && !useSer
      requires forall v :: v in SlotItems(packed, b) ==> Typed(heap, v)
      modifies `size, `useSer, `serialized, `counted, `seen
      ensures Counting() && old(seen) <= seen
      ensures ok ==> Tallied() && !useSer
      ensures FollowsScan(heap, region, old(seen), SlotItems(packed, b) + rest, seen, rest, ok, useSer)
      decreases Left(heap, seen) + 1, 1
    {
      if packed {
        if b.val.Undef? {
          ok := CalcZval(b.val, rest);
          FollowsNothing(heap, region, seen, SlotItems(packed, b) + rest, rest, useSer);
          return;
        }
        ok := CalcZval(b.val, rest);
      } else {
        if b.val.Undef? {
          FollowsNothing(heap, region, seen, SlotItems(packed, b) + rest, rest, useSer);
          return true;
        }
        if b.val.Indirect? {
          FollowsIndirect(heap, region, seen, b, rest);
          useSer := true;
          return false;
        }
        if b.key != 0 {
          FollowsKey(heap, region, seen, b, rest);
          assert Str(b.key) in SlotItems(packed, b) && NodeTyped(heap, heap[b.key]);
          CalcStr(b.key);
        } else {
          FollowsNothing(heap, region, seen, SlotItems(packed, b) + rest, [b.val] + rest, false);
        }
        LeftFalls(heap, old(seen), seen);
        ghost var before := seen;
        ok := CalcZval(b.val, rest);
        FollowsTwice(heap, region, old(seen), SlotItems(packed, b) + rest, before, [b.val] + rest, seen, rest, ok,
                     useSer);
      }
    }

    /** The whole counting pass: the entry, its key and its value. */
    method Calc(key: Ptr, v: Zval) returns (ok: bool)
      requires Blank() && WellFormed(heap) && Typed(heap, Str(key)) && Typed(heap, v)
      requires memo ==> !useSer
      requires v.Arr? ==> memo || useSer
      modifies `size, `useSer, `serialized, `counted, `seen
      ensures memo ==>
        Scan(heap, region, [], [Str(key), v]) ==
        if ok then Accept(seen) else if useSer then Serialize else Reject
      ensures memo && ok ==> !useSer && size == ENTRY + TotalBytes(heap, seen)
      ensures !memo ==> PlainOutcome(v, ok, old(useSer), ENTRY + OutsideBytes(heap, region, Str(key)))
    {
      size := size + AlignWord(ENTRY);
      assert NodeTyped(heap, heap[key]);
      CalcStr(key);
      ghost var mid := seen;
      ok := CalcZval(v, []);
      if memo {
        WholeScan(key, v, mid, ok);
      }
    }

    /** Key first, then value: what the two parts amount to. */
    lemma WholeScan(key: Ptr, v: Zval, mid: seq<Ptr>, ok: bool)
      requires Typed(heap, Str(key)) && mid == SeenAfter(heap, region, [], Str(key)) && (ok ==> !useSer && Tallied())
      requires FollowsScan(heap, region, mid, [v] + [], seen, [], ok, useSer)
      ensures Scan(heap, region, [], [Str(key), v]) == if ok then Accept(seen) else if useSer then Serialize else Reject
      ensures ok ==> size == ENTRY + TotalBytes(heap, seen)
    {
      FollowsOne(heap, region, [], Str(key), [v]);
      assert Items(heap[key]) + [v] == [v] && [v] + [] == [v] && [Str(key)] + [v] == [Str(key), v];
      FollowsTwice(heap, region, [], [Str(key), v], mid, [v], seen, [], ok, useSer);
      assert LookAtWalk(0) && LookInside(0);
    }

    // ---- copying ----

    ghost function Now(): Snap
      reads this
    {
      Snap(heap, cur, copied, placed, moved)
    }

    /** The pass is between two nodes of its work. */
    ghost predicate Copying(j: Job)
      reads this
    {
      && j.region == region && j.alloc == alloc && j.size == size
      && Stands(j, Now())
    }

    /** The assertion in immutable_cache_persist_alloc holds here: the block is never left. */
    method AllocMem(n: nat) returns (p: Ptr)
      requires n > 0 && cur + AlignWord(n) <= alloc + size
      modifies `cur
      ensures p == old(cur) && cur == p + AlignWord(n)
    {
      p := cur;
      cur := cur + AlignWord(n);
      assert cur <= alloc + size;
    }

    method GetAllocated(p: Ptr, ghost j: Job) returns (q: Ptr)
      requires p < SIZE_LIMIT && (memo ==> Copying(j) && p in j.src && !j.src[p].BoxNode?)
      ensures q == if region.Contains(p) then p else if memo && p in moved then moved[p] else 0
    {
      if region.Contains(p) {
        return p;
      }
      if memo {
        Lookup(j, Now(), p);
        return if Rotated(p) in copied then copied[Rotated(p)] else 0;
      }
      return 0;
    }

    method AddAllocated(p: Ptr, q: Ptr)
      requires p < SIZE_LIMIT
      modifies `copied
      ensures copied == if memo then old(copied)[Rotated(p) := q] else old(copied)
    {
      if memo {
        copied := copied[Rotated(p) := q];
      }
    }

    /** A string in the block, with its hash computed. */
    method CopyCstr(bytes: Bytes, hash: nat) returns (q: Ptr)
      requires cur + StrBytes(|bytes|) <= alloc + size && (hash == 0 || hash == HashOf(bytes))
      modifies `heap, `cur
      ensures q == old(cur) && cur == q + StrBytes(|bytes|)
      ensures heap == old(heap)[q := ShmStr(bytes)]
    {
      q := AllocMem(STRING_HEADER + |bytes| + 1);
      heap := heap[q := StrNode(bytes, hash, true)];
      if heap[q].hash == 0 {
        heap := heap[q := heap[q].(hash := HashOf(bytes))];
      }
    }

    /** Room for a copy of the string at `p`, if it needs one. */
    ghost predicate StrReady(p: Ptr)
      reads this
    {
      && p in heap && heap[p].StrNode? && 0 < p < SIZE_LIMIT && NodeTyped(heap, heap[p])
      && (!region.Contains(p) ==> cur + BytesOf(heap, p) <= alloc + size)
    }

    /** The string at `p` in shared memory: itself, its copy, or a new copy. */
    method GetOrCopyStr(p: Ptr, ghost j: Job, ghost rest: seq<Zval>) returns (q: Ptr)
      requires memo ==> Copying(j) && Typed(j.src, Str(p)) && Heads(j.src, region, placed, [Str(p)] + rest, j.goal)
      requires !memo ==> StrReady(p)
      modifies `heap, `cur, `copied, `placed, `moved
      ensures memo ==> Copying(j) && Heads(j.src, region, placed, rest, j.goal)
      ensures memo ==> Advances(j, old(Now()), Now())
      ensures memo ==> q == Moved(region, moved, p) && Known(region, moved, Str(p))
      ensures !memo ==> unchanged(`placed, `moved)
      ensures !memo && region.Contains(p) ==> q == p && unchanged(`heap, `cur)
      ensures !memo && !region.Contains(p) ==>
        && q == old(cur) && cur == q + BytesOf(old(heap), p)
        && heap == old(heap)[q := ShmStr(old(heap)[p].bytes)]
    {
      ghost var s := Now();
      if memo {
        StringMet(j, s, p, rest);
        AdvancesNot(j, s);
      }
      q := GetAllocated(p, j);
      if q != 0 {
        return;
      }
      q := CopyCstr(heap[p].bytes, heap[p].hash);
      AddAllocated(p, q);
      if memo {
        placed, moved := placed + [p], moved[p := q];
        assert Now() == Entered(j, s, p, ShmStr(j.src[p].bytes));
      }
    }

    /** The serialized form of `v`, which the assertions here take to be an array or an object. */
    method CopySerialize(v: Zval) returns (w: Zval)
      requires (v.Arr? || v.Obj?) && !memo && serialized.Some? && cur + StrBytes(|serialized.value|) <= alloc + size
      modifies `heap, `cur
      ensures w == Serialized(old(cur)) && cur == old(cur) + StrBytes(|serialized.value|)
      ensures heap == old(heap)[old(cur) := ShmStr(serialized.value)]
    {
      var q := CopyCstr(serialized.value, 0);
      w := Serialized(q);
    }

    /** What the pass needs for the top-level value when the memo table is off. */
    ghost predicate PlainReady(v: Zval)
      reads this
    {
      if v.Undef? || v.Scalar? then true
      else if useSer then (v.Arr? || v.Obj?) && serialized.Some? && cur + StrBytes(|serialized.value|) <= alloc + size
      else v.Str? && StrReady(v.p)
    }

    /** Bytes it takes. */
    ghost function PlainBytes(v: Zval): nat
      reads this
    {
      if v.Undef? || v.Scalar? then 0
      else if useSer then (if serialized.Some? then StrBytes(|serialized.value|) else 0)
      else OutsideBytes(heap, region, v)
    }

    ghost function KeyAdded(h: Heap, key: Ptr): Heap
      reads this
    {
      if region.Contains(key) then h else AddStr(h, alloc + ENTRY, BytesAt(h, key))
    }

    /** And what it does with it. */
    ghost predicate PlainCopy(v: Zval, w: Zval, was: Heap, at: Ptr)
      reads this
    {
      if v.Undef? || v.Scalar? then w == v && heap == was && cur == at
      else if useSer then
        && serialized.Some? && w == Serialized(at) && cur == at + StrBytes(|serialized.value|)
        && heap == was[at := ShmStr(serialized.value)]
      else if !v.Str? then false
      else if region.Contains(v.p) then w == v && heap == was && cur == at
      else
        && w == Str(at) && cur == at + BytesOf(was, v.p)
        && heap == was[at := ShmStr(BytesAt(was, v.p))]
    }

    /** Copies what `v` points to and returns the value to be stored in its place. */
    method CopyZval(v: Zval, ghost j: Job, ghost rest: seq<Zval>) returns (w: Zval)
      requires memo ==> !useSer && Copying(j) && Typed(j.src, v) && Heads(j.src, region, placed, [v] + rest, j.goal)
      requires !memo ==> PlainReady(v)
      modifies `heap, `cur, `copied, `placed, `moved
      ensures memo ==> Copying(j) && Heads(j.src, region, placed, rest, j.goal)
      ensures memo ==> Advances(j, old(Now()), Now())
      ensures memo ==> w == MovedVal(region, moved, v) && Known(region, moved, v)
      ensures !memo ==> PlainCopy(v, w, old(heap), old(cur))
      decreases if memo then Left(j.src, placed) else 0, 0
    {
      ghost var s := Now();
      if memo {
        HeadsOne(j.src, region, placed, v, rest, j.goal);
        AdvancesNot(j, s);
      }
      if v.Undef? || v.Scalar? {
        return v;
      }
      if useSer {
        w := CopySerialize(v);
        return;
      }
      if memo {
        Lookup(j, s, v.p);
      }
      var q := GetAllocated(v.p, j);
      if v.Str? {
        if q == 0 {
          q := GetOrCopyStr(v.p, j, rest);
        }
        return Str(q);
      } else {
        if q == 0 {
          LeftShrinks(j.src, placed, v.p);
          q := CopyHt(v.p, j, rest);
        }
        return Arr(q);
      }
    }

    /** A new copy of array `p`. */
    method CopyHt(p: Ptr, ghost j: Job, ghost rest: seq<Zval>) returns (q: Ptr)
      requires memo && !useSer && Copying(j) && Typed(j.src, Arr(p)) && Due(j, Now(), p)
      requires Heads(j.src, region, placed + [p], Items(j.src[p]) + rest, j.goal)
      modifies `heap, `cur, `copied, `placed, `moved
      ensures Copying(j) && Heads(j.src, region, placed, rest, j.goal)
      ensures Advances(j, old(Now()), Now())
      ensures p in moved && q == moved[p]
      decreases Left(j.src, placed + [p]), 4
    {
      ghost var s := Now();
      Lookup(j, s, p);
      EnterArray(j, s, p);
      q := NewTable(p, j);
      if |heap[q].buckets| == 0 {
        assert Items(j.src[p]) + rest == rest;
        return;
      }
      CopySlots(p, q, j, s, rest);
    }

    /** The header of a copy of array `p`, entered in the memo table and marked as never to be freed. */
    method NewHeader(p: Ptr) returns (q: Ptr)
      requires memo && p in heap && heap[p].ArrNode? && p < SIZE_LIMIT && cur + HASH_TABLE <= alloc + size
      modifies `heap, `cur, `copied, `placed, `moved
      ensures q == old(cur) && cur == q + HASH_TABLE
      ensures heap == old(heap)[q := old(heap)[p].(immutable := true)]
      ensures copied == old(copied)[Rotated(p) := q] && placed == old(placed) + [p] && moved == old(moved)[p := q]
    {
      var ht := heap[p];
      q := AllocMem(HASH_TABLE);
      heap := heap[q := ht];
      AddAllocated(p, q);
      placed, moved := placed + [p], moved[p := q];
      heap := heap[q := heap[q].(immutable := true)];
    }

    /** What the header says about the slots, which a non-empty array has in an area of its own. */
    method NewSlots(q: Ptr)
      requires q in heap && heap[q].ArrNode? && heap[q].immutable
      requires q + NodeBytes(heap[q]) <= alloc + size && cur == q + HASH_TABLE
      modifies `heap, `cur
      ensures cur == q + NodeBytes(old(heap)[q]) && heap == old(heap)[q := RawCopy(old(heap)[q], q)]
      ensures heap[q].ArrNode? && SlotsInside(q, heap[q]) && (heap[q].data == EMPTY_DATA <==> heap[q].buckets == [])
    {
      var ht := heap[q];
      if |ht.buckets| == 0 {
        heap := heap[q := heap[q].(packed := false, hashSlots := EMPTY_SLOTS, nextFree := 0, data := EMPTY_DATA)];
        return;
      }
      heap := heap[q := heap[q].(nextFree := 0, internal := NO_SLOT)];
      var data := AllocMem(DataSize(ht.packed, ht.hashSlots, |ht.buckets|));
      heap := heap[q := heap[q].(data := data)];
    }

    /** Header and slot area of a copy of array `p`, the slots not yet moved. */
    method NewTable(p: Ptr, ghost j: Job) returns (q: Ptr)
      requires memo && p in heap && heap[p].ArrNode? && p < SIZE_LIMIT && p in j.src && heap[p] == j.src[p]
      requires cur + NodeBytes(heap[p]) <= alloc + size
      modifies `heap, `cur, `copied, `placed, `moved
      ensures q == old(cur) && Now() == Entered(j, old(Now()), p, RawCopy(j.src[p], q))
      ensures q in heap && heap[q].ArrNode? && SlotsInside(q, heap[q])
      ensures heap[q].data == EMPTY_DATA <==> heap[q].buckets == []
    {
      q := NewHeader(p);
      NewSlots(q);
    }

    /** The copy of array `p` at `q` has its first `i` slots moved; the walk stands before slot `i`. */
    ghost predicate AtRound(p: Ptr, q: Ptr, i: nat, j: Job, a: Snap, rest: seq<Zval>)
      reads this
    {
      && p in j.src && j.src[p].ArrNode? && i <= |j.src[p].buckets|
      && q in heap && heap[q].ArrNode? && |heap[q].buckets| == |j.src[p].buckets|
      && forall z {:trigger LookInside(z)} :: LookInside(z) ==>
        && memo && !useSer && Copying(j) && Busy(j, a, Now(), p) && q == moved[p]
        && Heads(j.src, region, placed, ItemsFrom(j.src[p].packed, j.src[p].buckets, i) + rest, j.goal)
        && Filled(region, moved, j.src[p], heap[q], q, i) && Booked(j.src[p], heap[q], i)
        && (i < |j.src[p].buckets| ==> heap[q].buckets[i] == j.src[p].buckets[i])
    }

    lemma RoundsEnd(p: Ptr, q: Ptr, j: Job, a: Snap, rest: seq<Zval>)
      requires p in j.src && j.src[p].ArrNode? && AtRound(p, q, |j.src[p].buckets|, j, a, rest)
      ensures Copying(j) && Heads(j.src, region, placed, rest, j.goal) && Advances(j, a, Now())
      ensures p in moved && q == moved[p]
    {
      assert LookInside(0);
      assert ItemsFrom(j.src[p].packed, j.src[p].buckets, |j.src[p].buckets|) + rest == rest;
      ArrayDone(j, a, Now(), p);
    }

    /** The copying loop over the slots of the copy at `q`. */
    method CopySlots(p: Ptr, q: Ptr, ghost j: Job, ghost a: Snap, ghost rest: seq<Zval>)
      requires AtRound(p, q, 0, j, a, rest)
      modifies `heap, `cur, `copied, `placed, `moved
      ensures Copying(j) && Heads(j.src, region, placed, rest, j.goal)
      ensures Advances(j, a, Now())
      ensures p in moved && q == moved[p]
      decreases Left(j.src, placed), 3
    {
      var used := |heap[q].buckets|;
      var i := 0;
      while i < used
        invariant i <= used == |j.src[p].buckets| && AtRound(p, q, i, j, a, rest)
        invariant Left(j.src, placed) <= Left(j.src, old(placed))
      {
        CopySlot(p, q, i, j, a, rest);
        i := i + 1;
      }
      RoundsEnd(p, q, j, a, rest);
    }

    /** One round of the copying loop: the header's bookkeeping, then key and value of slot `i`. */
    method CopySlot(p: Ptr, q: Ptr, i: nat, ghost j: Job, ghost a: Snap, ghost after: seq<Zval>)
      requires AtRound(p, q, i, j, a, after) && i < |j.src[p].buckets|
      modifies `heap, `cur, `copied, `placed, `moved
      ensures AtRound(p, q, i + 1, j, a, after) && Left(j.src, placed) <= Left(j.src, old(placed))
      decreases Left(j.src, placed), 2
    {
      assert LookInside(0);
      ghost var rest := ItemsFrom(j.src[p].packed, j.src[p].buckets, i + 1) + after;
      ItemsFromStep(j.src[p].packed, j.src[p].buckets, i, after);
      ghost var n := j.src[p];
      var b := heap[q].buckets[i];
      if b.val.Undef? {
        BookedHole(n, heap[q], i);
        FilledMore(region, moved, n, heap[q], q, i);
        assert SlotItems(n.packed, b) + rest == rest;
        return;
      }
      assert !j.src[p].buckets[i].val.Undef?;
      NoteSlot(p, q, i, j, a);
      CopyKey(p, q, i, j, a, rest);
      CopyVal(p, q, i, j, a, after);
    }

    /** The slot being worked on is live and the header has taken note of it. */
    ghost predicate AtSlot(p: Ptr, q: Ptr, i: nat, j: Job, a: Snap)
      reads this
    {
      && memo && !useSer && Copying(j) && Busy(j, a, Now(), p) && q == moved[p]
      && j.src[p].ArrNode? && i < |j.src[p].buckets|
      && Filled(region, moved, j.src[p], heap[q], q, i) && Booked(j.src[p], heap[q], i + 1)
    }

    /** First live slot and next free key. */
    method NoteSlot(p: Ptr, q: Ptr, i: nat, ghost j: Job, ghost a: Snap)
      requires memo && !useSer && Copying(j) && Busy(j, a, Now(), p)
      requires q == moved[p] && Typed(j.src, Arr(p)) && i < |j.src[p].buckets|
      requires Filled(region, moved, j.src[p], heap[q], q, i) && Booked(j.src[p], heap[q], i)
      requires heap[q].buckets[i] == j.src[p].buckets[i] && !heap[q].buckets[i].val.Undef?
      modifies `heap
      ensures AtSlot(p, q, i, j, a) && heap[q].buckets == old(heap[q].buckets)
    {
      ghost var n := Noted(heap[q], i);
      Lookup(j, Now(), p);
      BookedLive(j.src[p], heap[q], i);
      NotedKeeps(region, moved, j.src[p], heap[q], q, i);
      PatchKeeps(j, a, Now(), p, n);
      if heap[q].internal == NO_SLOT {
        heap := heap[q := heap[q].(internal := i)];
      }
      if heap[q].packed {
        if i >= heap[q].nextFree {
          heap := heap[q := heap[q].(nextFree := i + 1)];
        }
      } else if heap[q].buckets[i].key == 0 && heap[q].buckets[i].h >= heap[q].nextFree {
        heap := heap[q := heap[q].(nextFree := Wrapped(heap[q].buckets[i].h + 1))];
      }
      assert Now() == Patched(old(Now()), q, n);
    }

    method PatchSlot(p: Ptr, q: Ptr, i: nat, b: Bucket, ghost j: Job, ghost a: Snap)
      requires AtSlot(p, q, i, j, a)
      modifies `heap
      ensures AtSlot(p, q, i, j, a)
      ensures heap[q].buckets == old(heap[q].buckets)[i := b]
    {
      WithSlotKeeps(region, moved, j.src[p], heap[q], q, i, b);
      PatchKeeps(j, a, Now(), p, WithSlot(heap[q], i, b));
      heap := heap[q := heap[q].(buckets := heap[q].buckets[i := b])];
      assert Now() == Patched(old(Now()), q, WithSlot(old(heap[q]), i, b));
    }

    /** The key of slot `i`, if it is a string. */
    method CopyKey(p: Ptr, q: Ptr, i: nat, ghost j: Job, ghost a: Snap, ghost rest: seq<Zval>)
      requires AtSlot(p, q, i, j, a)
      requires heap[q].buckets[i] == j.src[p].buckets[i] && !heap[q].buckets[i].val.Undef?
      requires Heads(j.src, region, placed, SlotItems(j.src[p].packed, j.src[p].buckets[i]) + rest, j.goal)
      modifies `heap, `cur, `copied, `placed, `moved
      ensures AtSlot(p, q, i, j, a) && Left(j.src, placed) <= Left(j.src, old(placed))
      ensures Heads(j.src, region, placed, [j.src[p].buckets[i].val] + rest, j.goal)
      ensures KeyMoved(region, moved, j.src[p].packed, j.src[p].buckets[i], heap[q].buckets[i])
    {
      ghost var n := j.src[p];
      var b := heap[q].buckets[i];
      if !heap[q].packed && b.key != 0 {
        ghost var s := Now();
        Lookup(j, s, p);
        SlotTyped(j.src, p, i);
        assert Str(b.key) in SlotItems(n.packed, b);
        assert SlotItems(n.packed, b) + rest == [Str(b.key)] + ([b.val] + rest);
        var k := GetOrCopyStr(b.key, j, [b.val] + rest);
        LeftFalls(j.src, s.placed, placed);
        BusyAdvances(j, a, s, Now(), p);
        FilledStays(region, s.moved, moved, n, heap[q], q, i);
        PatchSlot(p, q, i, heap[q].buckets[i].(key := k), j, a);
      } else {
        assert SlotItems(n.packed, b) + rest == [b.val] + rest;
      }
    }

    /** The value of slot `i`. */
    method CopyVal(p: Ptr, q: Ptr, i: nat, ghost j: Job, ghost a: Snap, ghost after: seq<Zval>)
      requires AtSlot(p, q, i, j, a) && !j.src[p].buckets[i].val.Undef?
      requires KeyMoved(region, moved, j.src[p].packed, j.src[p].buckets[i], heap[q].buckets[i])
      requires Heads(j.src, region, placed,
                 [j.src[p].buckets[i].val] + (ItemsFrom(j.src[p].packed, j.src[p].buckets, i + 1) + after), j.goal)
      modifies `heap, `cur, `copied, `placed, `moved
      ensures AtRound(p, q, i + 1, j, a, after) && Left(j.src, placed) <= Left(j.src, old(placed))
      decreases Left(j.src, placed), 1
    {
      ghost var n, s := j.src[p], Now();
      Lookup(j, s, p);
      SlotTyped(j.src, p, i);
      var w := CopyZval(heap[q].buckets[i].val, j, ItemsFrom(n.packed, n.buckets, i + 1) + after);
      LeftFalls(j.src, s.placed, placed);
      BusyAdvances(j, a, s, Now(), p);
      FilledStays(region, s.moved, moved, n, heap[q], q, i);
      SlotMoved(region, s.moved, moved, n.packed, n.buckets[i], heap[q].buckets[i], w);
      PatchSlot(p, q, i, heap[q].buckets[i].(val := w), j, a);
      FilledMore(region, moved, n, heap[q], q, i);
    }

    /** The block is unused. */
    ghost predicate BlockUnused()
      reads this
    {
      forall q :: alloc <= q < alloc + size ==> q !in heap
    }

    lemma CopyStarts(j: Job, work: seq<Zval>)
      requires j == Job(heap, region, j.goal, alloc, size) && WellFormed(heap) && BlockUnused()
      requires alloc > 0 && cur == alloc + ENTRY && size == ENTRY + TotalBytes(heap, j.goal)
      requires placed == [] && moved == map[] && copied == map[]
      requires Scan(heap, region, [], work) == Accept(j.goal)
      ensures Copying(j) && Heads(heap, region, placed, work, j.goal)
    {
    }

    lemma CopyEnds(j: Job, a: Snap, b: Snap)
      requires Copying(j) && Heads(j.src, region, placed, [], j.goal) && Advances(j, a, b) && Advances(j, b, Now())
      requires a.moved == map[]
      ensures Done(j, Now())
    {
      AdvancesTwice(j, a, b, Now());
      assert LookAtWalk(0) && LookAtState(0) && LookAtProgress(0);
    }

    lemma KeyFits(key: Ptr, v: Zval)
      requires WellFormed(heap) && Typed(heap, Str(key)) && cur == alloc + ENTRY && BlockUnused()
      requires size == ENTRY + OutsideBytes(heap, region, Str(key)) + PlainBytes(v)
      ensures StrReady(key) && (!region.Contains(key) ==> alloc + ENTRY !in heap)
    {
      assert NodeTyped(heap, heap[key]);
      NodeHasBytes(heap, key);
    }

    /** With the key in place there is room for the value. */
    lemma ValueFits(was: Heap, key: Ptr, v: Zval, room: nat)
      requires WellFormed(was) && Typed(was, v) && heap == KeyAdded(was, key)
      requires !region.Contains(key) ==> alloc + ENTRY !in was
      requires cur + room == alloc + size
      requires useSer ==> (v.Arr? || v.Obj?) && serialized.Some? && room == StrBytes(|serialized.value|)
      requires !useSer ==> v.Undef? || v.Scalar? || (v.Str? && room == OutsideBytes(was, region, v))
      ensures PlainReady(v)
    {
      if v.Str? {
        assert NodeTyped(was, was[v.p]);
      }
    }

    /** The whole copying pass: the entry, its key and its value. */
    method Copy(key: Ptr, v: Zval, ghost j: Job) returns (e: Stored)
      requires j == Job(heap, region, j.goal, alloc, size) && WellFormed(heap) && BlockUnused()
      requires Typed(heap, Str(key)) && Typed(heap, v)
      requires alloc > 0 && cur == alloc && placed == [] && moved == map[] && copied == map[]
      requires memo ==> !useSer && size == ENTRY + TotalBytes(heap, j.goal)
      requires memo ==> Scan(heap, region, [], [Str(key), v]) == Accept(j.goal)
      requires !memo && useSer ==> serialized.Some? && (v.Arr? || v.Obj?)
      requires !memo && !useSer ==> v.Undef? || v.Scalar? || v.Str?
      requires !memo ==> size == ENTRY + OutsideBytes(heap, region, Str(key)) + PlainBytes(v)
      modifies `heap, `cur, `copied, `placed, `moved
      ensures e.at == alloc && e.memSize == size && cur == alloc + size
      ensures memo ==> Done(j, Now()) && Known(region, moved, Str(key)) && Known(region, moved, v)
      ensures memo ==> e.key == Moved(region, moved, key) && e.val == MovedVal(region, moved, v)
      ensures !memo ==> e.key == (if region.Contains(key) then key else alloc + ENTRY)
      ensures !memo ==> PlainCopy(v, e.val, KeyAdded(old(heap), key),
        alloc + ENTRY + OutsideBytes(old(heap), region, Str(key)))
    {
      var at := AllocMem(ENTRY);
      ghost var a := Now();
      if memo {
        CopyStarts(j, [Str(key), v]);
        assert [Str(key), v] == [Str(key)] + [v];
      }
      var k := CopyEntryKey(key, v, j);
      var w := CopyEntryVal(key, v, j, a);
      e := Stored(at, k, w, size);
    }

    /** The entry's value goes last, and the block is used up. */
    method CopyEntryVal(key: Ptr, v: Zval, ghost j: Job, ghost a: Snap) returns (w: Zval)
      requires memo ==> !useSer && Copying(j) && Typed(j.src, v) && Heads(j.src, region, placed, [v], j.goal)
      requires memo ==> Advances(j, a, Now()) && a.moved == map[] && Known(region, moved, Str(key))
      requires !memo ==> PlainReady(v)
      modifies `heap, `cur, `copied, `placed, `moved
      ensures memo ==> Done(j, Now()) && Known(region, moved, Str(key)) && Known(region, moved, v)
      ensures memo ==> Moved(region, moved, key) == Moved(region, old(moved), key) && w == MovedVal(region, moved, v)
      ensures !memo ==> PlainCopy(v, w, old(heap), old(cur))
    {
      ghost var b := Now();
      assert [v] == [v] + [];
      w := CopyZval(v, j, []);
      if memo {
        KnownStays(j, b, Now(), Str(key));
        CopyEnds(j, a, b);
      }
    }

    /** The entry's key goes first; there is room for the value behind it. */
    method CopyEntryKey(key: Ptr, v: Zval, ghost j: Job) returns (k: Ptr)
      requires memo ==> Copying(j) && Typed(j.src, Str(key)) && Heads(j.src, region, placed, [Str(key)] + [v], j.goal)
      requires !memo ==>
        WellFormed(heap) && Typed(heap, Str(key)) && Typed(heap, v) && cur == alloc + ENTRY &&
        BlockUnused()
      requires !memo ==> size == ENTRY + OutsideBytes(heap, region, Str(key)) + PlainBytes(v)
      requires !memo && useSer ==> serialized.Some? && (v.Arr? || v.Obj?)
      requires !memo && !useSer ==> v.Undef? || v.Scalar? || v.Str?
      modifies `heap, `cur, `copied, `placed, `moved
      ensures memo ==> Copying(j) && Heads(j.src, region, placed, [v], j.goal) && Advances(j, old(Now()), Now())
      ensures memo ==> k == Moved(region, moved, key) && Known(region, moved, Str(key))
      ensures !memo ==> PlainReady(v) && heap == KeyAdded(old(heap), key)
      ensures !memo ==> cur == alloc + ENTRY + OutsideBytes(old(heap), region, Str(key))
      ensures !memo ==> k == (if region.Contains(key) then key else alloc + ENTRY)
      ensures !memo && !useSer && v.Str? ==> BytesOf(heap, v.p) == BytesOf(old(heap), v.p)
    {
      ghost var was, room := heap, PlainBytes(v);
      if !memo {
        KeyFits(key, v);
      }
      k := GetOrCopyStr(key, j, [v]);
      if !memo {
        ValueFits(was, key, v, room);
      }
    }
  }
}
