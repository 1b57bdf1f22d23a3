/** PHP values as a graph of heap nodes, and what a value means. */
module Values {
  import opened Layout

  type Ptr = nat  // an address; 0 is NULL
  type Bytes = seq<bv8>

  /** The ranges of addresses at which the data segments are mapped. */
  datatype Region = Region(base: seq<nat>, size: nat) {
    predicate Contains(p: Ptr) {
      exists i :: 0 <= i < |base| && base[i] <= p < base[i] + size
    }
  }

  /** A zval: plain data, or a pointer to a node. `Serialized` is the IS_PTR form used inside the cache. */
  datatype Zval =
    | Undef
    | Scalar(bits: int)
    | Str(p: Ptr)
    | Arr(p: Ptr)
    | Obj(p: Ptr)
    | Res(p: Ptr)
    | Ref(p: Ptr)
    | Indirect(p: Ptr)
    | Serialized(p: Ptr)

  /** An array slot; packed arrays have neither hash nor key. */
  datatype Bucket = Bucket(h: int, key: Ptr, val: Zval)

  /** `interned` and `immutable` are the type flags that keep PHP from counting references to a node or freeing it. */
  datatype Node =
    | StrNode(bytes: Bytes, hash: nat, interned: bool)
    | ArrNode(packed: bool, hashSlots: nat, buckets: seq<Bucket>, data: Ptr, nextFree: int, internal: nat, live: nat,
              immutable: bool)
    | BoxNode(kind: nat, kids: seq<Zval>)  // objects and references

  type Heap = map<Ptr, Node>

  /** Memory without the nodes in [lo, hi). */
  function Without(h: Heap, lo: Ptr, hi: Ptr): Heap {
    map q | q in h && !(lo <= q < hi) :: h[q]
  }

  const NO_SLOT: nat := 0xFFFF_FFFF       // HT_INVALID_IDX
  const MAX_LONG: int := 0x7FFF_FFFF_FFFF_FFFF
  const MIN_LONG: int := -0x8000_0000_0000_0000

  // ---- sizes on a 64-bit build of PHP 8.2 ----

  const ENTRY: nat := 64          // sizeof(immutable_cache_cache_entry_t)
  const HASH_TABLE: nat := 56     // sizeof(HashTable)
  const STRING_HEADER: nat := 24  // offset of the characters in a zend_string
  const ZVAL: nat := 16
  const BUCKET: nat := 32

  function StrBytes(len: nat): nat {
    AlignWord(STRING_HEADER + len + 1)
  }

  /** The slot area: HT_PACKED_USED_SIZE or HT_USED_SIZE. */
  function DataSize(packed: bool, hashSlots: nat, used: nat): nat {
    if packed then 8 + used * ZVAL else hashSlots * 4 + used * BUCKET
  }

  function DataBytes(packed: bool, hashSlots: nat, used: nat): nat
    requires used > 0
  {
    AlignWord(DataSize(packed, hashSlots, used))
  }

  /** Bytes one node takes in shared memory. */
  function NodeBytes(n: Node): nat {
    match n
    case StrNode(bytes, _, _) => StrBytes(|bytes|)
    case ArrNode(packed, hashSlots, buckets, _, _, _, _, _) =>
      HASH_TABLE + if buckets == [] then 0 else DataBytes(packed, hashSlots, |buckets|)
    case BoxNode(_, _) => 0
  }

  function BytesOf(h: Heap, p: Ptr): nat {
    if p in h then NodeBytes(h[p]) else 0
  }

  /** Bytes the node of `v` will take, unless it is in shared memory already. */
  function OutsideBytes(h: Heap, r: Region, v: Zval): nat {
    if (v.Str? || v.Arr?) && !r.Contains(v.p) then BytesOf(h, v.p) else 0
  }

  /** Bytes of the nodes at `ps`, in order. */
  function TotalBytes(h: Heap, ps: seq<Ptr>): nat {
    if ps == [] then 0 else TotalBytes(h, ps[..|ps| - 1]) + BytesOf(h, ps[|ps| - 1])
  }

  lemma TotalMore(h: Heap, ps: seq<Ptr>, p: Ptr)
    ensures TotalBytes(h, ps + [p]) == TotalBytes(h, ps) + BytesOf(h, p)
  {
  }

  lemma {:induction false} TotalPrefix(h: Heap, ps: seq<Ptr>, qs: seq<Ptr>)
    requires ps <= qs
    ensures TotalBytes(h, ps) <= TotalBytes(h, qs)
    decreases |qs|
  {
    if |ps| < |qs| {
      TotalPrefix(h, ps, qs[..|qs| - 1]);
    } else {
      assert ps == qs;
    }
  }

  // ---- traversal ----

  /** What a slot contributes to a traversal: its key, as a string, and then its value. */
  function SlotItems(packed: bool, b: Bucket): seq<Zval> {
    if b.val.Undef? then []
    else if packed || b.key == 0 then [b.val]
    else [Str(b.key), b.val]
  }

  function ItemsFrom(packed: bool, bs: seq<Bucket>, i: nat): seq<Zval>
    requires i <= |bs|
    decreases |bs| - i
  {
    if i == |bs| then [] else SlotItems(packed, bs[i]) + ItemsFrom(packed, bs, i + 1)
  }

  function Items(n: Node): seq<Zval> {
    if n.ArrNode? then ItemsFrom(n.packed, n.buckets, 0) else []
  }

  /** Values whose node a traversal enters. */
  predicate Follows(v: Zval) {
    v.Str? || v.Arr?
  }

  /** Values that force serialization of the whole entry. */
  predicate Mutable(v: Zval) {
    v.Obj? || v.Ref? || v.Indirect?
  }

  /** The value points at a node of its own kind. */
  ghost predicate Typed(h: Heap, v: Zval) {
    match v
    case Str(p) => p in h && h[p].StrNode?
    case Arr(p) => p in h && h[p].ArrNode?
    case Obj(p) => p in h && h[p].BoxNode?
    case Ref(p) => p in h && h[p].BoxNode?
    case Indirect(p) => p in h && h[p].BoxNode?
    case Serialized(_) => false
    case _ => true
  }

  /** zend_inline_hash_func: times 33 on 64 bits, with the top bit set so that a computed hash is never 0. */
  function HashOf(bytes: Bytes): nat {
    var x := HashSteps(bytes);
    if x < SIZE_LIMIT / 2 then x + SIZE_LIMIT / 2 else x
  }

  function HashSteps(bytes: Bytes): nat {
    if bytes == [] then 5381
    else (HashSteps(bytes[..|bytes| - 1]) * 33 + bytes[|bytes| - 1] as nat) % SIZE_LIMIT
  }

  /** A string as shared memory holds it: with its hash computed, and never freed. */
  function ShmStr(bytes: Bytes): Node {
    StrNode(bytes, HashOf(bytes), true)
  }

  function LiveSlots(bs: seq<Bucket>): nat {
    if bs == [] then 0 else LiveSlots(bs[..|bs| - 1]) + (if bs[|bs| - 1].val.Undef? then 0 else 1)
  }

  ghost predicate NodeTyped(h: Heap, n: Node) {
    match n
    case StrNode(bytes, hash, _) => hash == 0 || hash == HashOf(bytes)
    case ArrNode(packed, _, buckets, _, _, _, live, _) =>
      && live == LiveSlots(buckets) && |buckets| < NO_SLOT
      && (forall i :: 0 <= i < |buckets| ==> MIN_LONG <= buckets[i].h <= MAX_LONG)
      && (forall v :: v in Items(n) ==> Typed(h, v))
    case BoxNode(_, kids) => forall v :: v in kids ==> Typed(h, v)
  }

  /** Addresses fit a machine word, and every node points only at nodes of the right kind. */
  ghost predicate WellFormed(h: Heap) {
    forall p {:trigger NodeTyped(h, h[p])} :: p in h ==> 0 < p < SIZE_LIMIT && NodeTyped(h, h[p])
  }

  /** What one slot contributes is among the items of its array. */
  lemma {:induction false} SlotItemsIn(packed: bool, bs: seq<Bucket>, i: nat, from: nat)
    requires from <= i < |bs|
    ensures forall v :: v in SlotItems(packed, bs[i]) ==> v in ItemsFrom(packed, bs, from)
    ensures !bs[i].val.Undef? ==> bs[i].val in ItemsFrom(packed, bs, from)
    ensures !bs[i].val.Undef? && !packed && bs[i].key != 0 ==> Str(bs[i].key) in ItemsFrom(packed, bs, from)
  {
    LiveItems(packed, bs[i]);
    forall v | v in SlotItems(packed, bs[i]) ensures v in ItemsFrom(packed, bs, from) {
      ItemIn(packed, bs, i, from, v);
    }
  }

  lemma LiveItems(packed: bool, b: Bucket)
    ensures !b.val.Undef? ==> b.val in SlotItems(packed, b)
    ensures !b.val.Undef? && !packed && b.key != 0 ==> Str(b.key) in SlotItems(packed, b)
  {
  }

  lemma {:induction false} ItemIn(packed: bool, bs: seq<Bucket>, i: nat, from: nat, v: Zval)
    requires from <= i < |bs| && v in SlotItems(packed, bs[i])
    ensures v in ItemsFrom(packed, bs, from)
    decreases i - from
  {
    if from < i {
      ItemIn(packed, bs, i, from + 1, v);
    }
  }

  lemma ItemsFromStep(packed: bool, bs: seq<Bucket>, i: nat, rest: seq<Zval>)
    requires i < |bs|
    ensures ItemsFrom(packed, bs, i) + rest == SlotItems(packed, bs[i]) + (ItemsFrom(packed, bs, i + 1) + rest)
  {
  }

  lemma SlotTyped(h: Heap, p: Ptr, i: nat)
    requires Typed(h, Arr(p)) && NodeTyped(h, h[p]) && i < |h[p].buckets|
    ensures forall v :: v in SlotItems(h[p].packed, h[p].buckets[i]) ==> Typed(h, v)
  {
    SlotItemsIn(h[p].packed, h[p].buckets, i, 0);
    assert NodeTyped(h, h[p]);
  }

  // ---- meaning ----

  datatype Key = IntKey(n: int) | StrKey(bytes: Bytes)

  /** A value unfolded to a finite depth. */
  datatype Tree =
    | Cut
    | Plain(bits: int)
    | Text(bytes: Bytes)
    | Table(slots: seq<(Key, Tree)>)
    | Box(kind: nat, parts: seq<Tree>)
    | Opaque(p: Ptr)

  function BytesAt(h: Heap, p: Ptr): Bytes {
    if p in h && h[p].StrNode? then h[p].bytes else []
  }

  function KeyOf(h: Heap, packed: bool, b: Bucket, i: nat): Key {
    if packed then IntKey(i)
    else if b.key == 0 then IntKey(b.h)
    else StrKey(BytesAt(h, b.key))
  }

  /** What PHP code can observe of `v` down to depth `n`; holes in arrays are invisible. */
  function Unfold(h: Heap, v: Zval, n: nat): Tree
    decreases n, 0, 1
  {
    match v
    case Undef => Cut
    case Scalar(bits) => Plain(bits)
    case Str(p) => Text(BytesAt(h, p))
    case Res(p) => Opaque(p)
    case Serialized(p) => Opaque(p)
    case Arr(p) =>
      if n > 0 && p in h && h[p].ArrNode? then
        Table(UnfoldSlots(h, h[p].packed, h[p].buckets, |h[p].buckets|, n - 1))
      else Cut
    case Obj(p) => UnfoldBox(h, p, n)
    case Ref(p) => UnfoldBox(h, p, n)
    case Indirect(p) => UnfoldBox(h, p, n)
  }

  function UnfoldBox(h: Heap, p: Ptr, n: nat): Tree
    decreases n, 0, 0
  {
    if n > 0 && p in h && h[p].BoxNode? then Box(h[p].kind, UnfoldAll(h, h[p].kids, |h[p].kids|, n - 1)) else Cut
  }

  function UnfoldAll(h: Heap, vs: seq<Zval>, k: nat, n: nat): seq<Tree>
    requires k <= |vs|
    decreases n, k, 2
  {
    if k == 0 then [] else UnfoldAll(h, vs, k - 1, n) + [Unfold(h, vs[k - 1], n)]
  }

  /** The first `k` slots, in order, without the holes. */
  function UnfoldSlots(h: Heap, packed: bool, bs: seq<Bucket>, k: nat, n: nat): seq<(Key, Tree)>
    requires k <= |bs|
    decreases n, k, 2
  {
    if k == 0 then []
    else
      UnfoldSlots(h, packed, bs, k - 1, n) +
      if bs[k - 1].val.Undef? then []
      else [(KeyOf(h, packed, bs[k - 1], k - 1), Unfold(h, bs[k - 1].val, n))]
  }
}
