/** immutable_cache_persist and immutable_cache_unpersist: into a block of the pool, and back out. */
module Store {
  import opened Focus
  import opened Layout
  import opened Options
  import opened Tiles
  import opened Segment
  import opened Pool
  import opened Values
  import opened Traversal
  import opened Trails
  import opened Copies
  import opened Placement
  import opened Outcomes
  import opened Leads
  import opened Housing
  import opened Persist

  // ---- what will be stored ----

  /** The decision of the counting pass: copy the graph, store serialized bytes, store a lone value, or refuse. */
  datatype Plan = Graph(nodes: seq<Ptr>) | Encoded(bytes: Bytes) | Lone | Refused

  /** The serializer in use: the configured one, or PHP's own. */
  function Chosen(configured: Option<Serializer>, php: Serializer): Serializer {
    if configured.Some? then configured.value else php
  }

  function EncodePlan(ser: Serializer, h: Heap, v: Zval): Plan {
    match ser.encode(h, v)
    case Some(bytes) => Encoded(bytes)
    case None => Refused
  }

  function PlanOf(h: Heap, r: Region, configured: bool, ser: Serializer, key: Ptr, v: Zval): Plan {
    if v.Obj? || (configured && v.Arr?) then EncodePlan(ser, h, v)
    else if v.Arr? then
      match Scan(h, r, [], [Str(key), v])
      case Accept(seen) => Graph(seen)
      case Serialize => EncodePlan(ser, h, v)
      case Reject => Refused
    else if v.Res? then Refused
    else Lone
  }

  // ---- what that comes to ----

  /** Nothing reachable from key and value outside shared memory stands in the way of a copy. */
  ghost predicate Clean(h: Heap, r: Region, key: Ptr, v: Zval) {
    forall w {:trigger ReachesValue(h, r, [Str(key), v], w)} :: ReachesValue(h, r, [Str(key), v], w) ==> !Stops(w)
  }

  /** An object, or an array under a configured serializer, or one in which an object or reference comes first. */
  ghost predicate NeedsBytes(h: Heap, r: Region, configured: bool, v: Zval) {
    || v.Obj?
    || (v.Arr? && configured)
    || (v.Arr? && exists w {:trigger Decides(h, r, v, w)} :: Decides(h, r, v, w) && Mutable(w))
  }

  /** A resource, or an array in which one comes first, or a value that the serializer gives no bytes for. */
  ghost predicate CannotStore(h: Heap, r: Region, configured: bool, ser: Serializer, v: Zval) {
    || v.Res?
    || (v.Arr? && !configured && exists w {:trigger Decides(h, r, v, w)} :: Decides(h, r, v, w) && !Mutable(w))
    || (NeedsBytes(h, r, configured, v) && ser.encode(h, v).None?)
  }

  /** Something reachable outside shared memory is an object, a reference or an INDIRECT. */
  ghost predicate HasMutable(h: Heap, r: Region, key: Ptr, v: Zval) {
    exists w {:trigger ReachesValue(h, r, [Str(key), v], w)} :: ReachesValue(h, r, [Str(key), v], w) && Mutable(w)
  }

  ghost predicate HasResource(h: Heap, r: Region, key: Ptr, v: Zval) {
    exists w {:trigger ReachesValue(h, r, [Str(key), v], w)} :: ReachesValue(h, r, [Str(key), v], w) && w.Res?
  }

  lemma ReachedTyped(h: Heap, r: Region, roots: seq<Zval>, w: Zval)
    requires WellFormed(h) && (forall u :: u in roots ==> Typed(h, u)) && ReachesValue(h, r, roots, w)
    ensures Typed(h, w)
  {
    if w !in roots {
      var p :| Reaches(h, r, roots, p) && p in h && w in Items(h[p]);
      assert NodeTyped(h, h[p]);
    }
  }

  /** What ends the walk is there. */
  lemma VerdictReaches(h: Heap, r: Region, key: Ptr, v: Zval)
    requires WellFormed(h) && Typed(h, Str(key)) && Typed(h, v)
    ensures Scan(h, r, [], [Str(key), v]).Serialize? ==> HasMutable(h, r, key, v)
    ensures Scan(h, r, [], [Str(key), v]).Reject? ==> HasResource(h, r, key, v)
  {
    var roots := [Str(key), v];
    ScanReaches(h, r, roots, [], roots);
    if Scan(h, r, [], roots).Reject? {
      var w :| ReachesValue(h, r, roots, w) && (w.Res? || w.Serialized?);
      ReachedTyped(h, r, roots, w);
    }
  }

  /** With one kind of obstacle only, what comes first is of that kind. */
  lemma OneKind(h: Heap, r: Region, key: Ptr, v: Zval)
    requires WellFormed(h) && Typed(h, Str(key)) && Typed(h, v)
    ensures
      var verdict := Scan(h, r, [], [Str(key), v]);
      && (HasResource(h, r, key, v) && !HasMutable(h, r, key, v) ==> verdict.Reject?)
      && (HasMutable(h, r, key, v) && !HasResource(h, r, key, v) ==> verdict.Serialize?)
  {
    VerdictReaches(h, r, key, v);
    AcceptsIffClean(h, r, [Str(key), v]);
  }

  /** What the plan is, without the walk that finds it. */
  lemma PlanIs(h: Heap, r: Region, configured: bool, ser: Serializer, key: Ptr, v: Zval)
    requires WellFormed(h) && Typed(h, Str(key)) && Typed(h, v) && Storable(v)
    ensures
      var plan := PlanOf(h, r, configured, ser, key, v);
      && (plan.Refused? <==> CannotStore(h, r, configured, ser, v))
      && (plan.Encoded? <==> NeedsBytes(h, r, configured, v) && ser.encode(h, v).Some?)
      && (plan.Encoded? ==> ser.encode(h, v) == Some(plan.bytes))
      && (plan.Graph? <==> v.Arr? && !configured && Clean(h, r, key, v))
    ensures v.Arr? && !configured && HasResource(h, r, key, v) && !HasMutable(h, r, key, v) ==>
      CannotStore(h, r, configured, ser, v)
    ensures v.Arr? && !configured && HasMutable(h, r, key, v) && !HasResource(h, r, key, v) ==>
      NeedsBytes(h, r, configured, v)
  {
    VerdictIs(h, r, key, v);
    OneKind(h, r, key, v);
    assert Clean(h, r, key, v) <==> forall w :: ReachesValue(h, r, [Str(key), v], w) ==> !Stops(w);
  }

  function PlanSize(h: Heap, r: Region, key: Ptr, v: Zval, plan: Plan): nat {
    match plan
    case Graph(nodes) => ENTRY + TotalBytes(h, nodes)
    case Encoded(bytes) => ENTRY + OutsideBytes(h, r, Str(key)) + StrBytes(|bytes|)
    case Lone => ENTRY + OutsideBytes(h, r, Str(key)) + OutsideBytes(h, r, v)
    case Refused => 0
  }

  /** Values that PHP code can pass in; the top-level value is never a reference. */
  predicate Storable(v: Zval) {
    !v.Ref? && !v.Indirect? && !v.Serialized?
  }

  /** The context holds what the counting pass found out. */
  ghost predicate Counted(c: Context, h: Heap, key: Ptr, v: Zval, plan: Plan)
    reads c
  {
    && c.heap == h && c.placed == [] && c.moved == map[] && c.copied == map[]
    && c.size == PlanSize(h, c.region, key, v, plan)
    && match plan
       case Graph(nodes) => c.memo && !c.useSer && Scan(h, c.region, [], [Str(key), v]) == Accept(nodes)
       case Encoded(bytes) => !c.memo && c.useSer && c.serialized == Some(bytes) && (v.Arr? || v.Obj?)
       case Lone => !c.memo && !c.useSer && (v.Undef? || v.Scalar? || v.Str?)
       case Refused => true
  }

  /** The counting pass, and a second one with serialization when the first finds that it is needed. */
  method Count(region: Region, configured: Option<Serializer>, php: Serializer, h: Heap, key: Ptr, v: Zval)
    returns (c: Context, ok: bool)
    requires WellFormed(h) && Typed(h, Str(key)) && Typed(h, v) && Storable(v)
    ensures fresh(c) && c.region == region
    ensures
      var plan := PlanOf(h, region, configured.Some?, Chosen(configured, php), key, v);
      (ok <==> !plan.Refused?) && (ok ==> Counted(c, h, key, v, plan))
  {
    var ser := Chosen(configured, php);
    var memo := configured.None? && v.Arr?;
    var useSer := v.Obj? || (configured.Some? && v.Arr?);
    c := new Context(region, ser, h, memo, useSer);
    ok := c.Calc(key, v);
    if !ok {
      if !c.useSer {
        return;
      }
      c := new Context(region, ser, h, false, true);
      ok := c.Calc(key, v);
    }
  }

  /** What the entry `e` in heap `h'` is of the key and value stored. */
  ghost predicate Keeps(h: Heap, h': Heap, r: Region, key: Ptr, v: Zval, plan: Plan, e: Stored) {
    && SameKey(h, h', key, e) && Anchored(h', r, e)
    && LeadsBack(h, h', [Str(key), v], Roots(e.key, e.val)) && EdgesBack(h, h', [Str(key), v])
    && if plan.Encoded? then StoredBytes(h', plan.bytes, e.val) else SameValue(h, h', v, e.val)
  }

  /** The key is in place; what remains is a string for the value, or nothing. */
  lemma LoneKeeps(h: Heap, r: Region, at: Ptr, size: nat, key: Ptr, e: Stored, m: Heap)
    requires WellFormed(h) && ShmClosed(h, r) && BlockIn(r, at, size) && Typed(h, Str(key))
    requires size >= ENTRY + OutsideBytes(h, r, Str(key)) && forall q :: at <= q < at + size ==> q !in h
    requires m == if r.Contains(key) then h else AddStr(h, at + ENTRY, BytesAt(h, key))
    requires e.key == if r.Contains(key) then key else at + ENTRY
    ensures Grown(h, m, r, at, size) && SameKey(h, m, key, e) && r.Contains(e.key) && (e.key in h ==> e.key == key)
    ensures OnlyStrings(h, m)
    ensures forall q :: at + ENTRY + OutsideBytes(h, r, Str(key)) <= q < at + size ==> q !in m
  {
    if r.Contains(key) {
      GrownNot(h, r, at, size);
    } else {
      AddStrGrown(h, r, at, size, at + ENTRY, BytesAt(h, key));
    }
  }

  /** The copying pass in a fresh block at `p`. */
  method CopyInto(c: Context, p: Ptr, h: Heap, key: Ptr, v: Zval, ghost plan: Plan) returns (e: Stored, h': Heap)
    requires Counted(c, h, key, v, plan) && !plan.Refused?
    requires WellFormed(h) && ShmClosed(h, c.region) && Typed(h, Str(key)) && Typed(h, v) && Storable(v)
    requires BlockIn(c.region, p, c.size) && forall q :: p <= q < p + c.size ==> q !in h
    modifies c
    ensures e.at == p && e.memSize == PlanSize(h, c.region, key, v, plan)
    ensures Grown(h, h', c.region, p, e.memSize) && Keeps(h, h', c.region, key, v, plan, e)
  {
    c.alloc, c.cur := p, p;
    ghost var j := Job(h, c.region, if plan.Graph? then plan.nodes else [], p, c.size);
    e := c.Copy(key, v, j);
    h' := c.heap;
    if plan.Graph? {
      GraphKeeps(j, c.Now(), key, v, plan, e);
    } else {
      PlainKeeps(c, p, h, key, v, plan, e);
    }
  }

  lemma GraphKeeps(j: Job, s: Snap, key: Ptr, v: Zval, plan: Plan, e: Stored)
    requires Done(j, s) && plan == Graph(j.goal) && j.size == PlanSize(j.src, j.region, key, v, plan)
    requires Scan(j.src, j.region, [], [Str(key), v]) == Accept(j.goal)
    requires ShmClosed(j.src, j.region) && Typed(j.src, Str(key))
    requires Typed(j.src, v) && BlockIn(j.region, j.alloc, j.size)
    requires forall q :: j.alloc <= q < j.alloc + j.size ==> q !in j.src
    requires Known(j.region, s.moved, Str(key)) && Known(j.region, s.moved, v)
    requires e.key == Moved(j.region, s.moved, key) && e.val == MovedVal(j.region, s.moved, v)
    ensures Grown(j.src, s.heap, j.region, j.alloc, j.size) && Keeps(j.src, s.heap, j.region, key, v, plan, e)
  {
    DoneGrown(j, s);
    DoneMeans(j, s, key, v, e);
    DoneLeadsBack(j, s, key, v, e);
    DoneEdgesBack(j, s, key, v);
  }

  lemma DoneLeadsBack(j: Job, s: Snap, key: Ptr, v: Zval, e: Stored)
    requires Done(j, s) && j.size == ENTRY + TotalBytes(j.src, j.goal) && Typed(j.src, Str(key)) && Typed(j.src, v)
    requires forall q :: j.alloc <= q < j.alloc + j.size ==> q !in j.src
    requires Known(j.region, s.moved, Str(key)) && Known(j.region, s.moved, v)
    requires e.key == Moved(j.region, s.moved, key) && e.val == MovedVal(j.region, s.moved, v)
    ensures LeadsBack(j.src, s.heap, [Str(key), v], Roots(e.key, e.val))
  {
    DoneAddedIn(j, s);
    GraphLeadsBack(j.src, s.heap, j.region, s.moved, [Str(key), v], Roots(e.key, e.val));
  }

  lemma DoneEdgesBack(j: Job, s: Snap, key: Ptr, v: Zval)
    requires Done(j, s) && j.size == ENTRY + TotalBytes(j.src, j.goal)
    requires Scan(j.src, j.region, [], [Str(key), v]) == Accept(j.goal)
    requires forall q :: j.alloc <= q < j.alloc + j.size ==> q !in j.src
    ensures EdgesBack(j.src, s.heap, [Str(key), v])
  {
    DoneAddedIn(j, s);
    forall q | q in s.moved ensures Reaches(j.src, ANYWHERE, [Str(key), v], q) {
      CopiedIsReachable(j, s, [Str(key), v], q);
      ReachesAnywhere(j.src, j.region, [Str(key), v], q);
    }
    CopyEdgesBack(j.src, s.heap, j.region, s.moved, [Str(key), v]);
  }

  lemma PlainKeeps(c: Context, p: Ptr, h: Heap, key: Ptr, v: Zval, plan: Plan, e: Stored)
    requires !c.memo && c.alloc == p && c.size == PlanSize(h, c.region, key, v, plan)
    requires
      match plan
      case Encoded(bytes) => c.useSer && c.serialized == Some(bytes) && (v.Arr? || v.Obj?)
      case Lone => !c.useSer && (v.Undef? || v.Scalar? || v.Str?)
      case _ => false
    requires WellFormed(h) && ShmClosed(h, c.region) && Typed(h, Str(key)) && Typed(h, v) && Storable(v)
    requires BlockIn(c.region, p, c.size) && forall q :: p <= q < p + c.size ==> q !in h
    requires e.key == if c.region.Contains(key) then key else p + ENTRY
    requires c.PlainCopy(v, e.val, c.KeyAdded(h, key), p + ENTRY + OutsideBytes(h, c.region, Str(key)))
    ensures Grown(h, c.heap, c.region, p, c.size) && Keeps(h, c.heap, c.region, key, v, plan, e)
  {
    LoneKeeps(h, c.region, p, c.size, key, e, c.KeyAdded(h, key));
    ValueKeeps(h, c.region, p, c.size, key, v, plan, e, c.KeyAdded(h, key), c.heap);
  }

  /** The value has been put at `q`, behind the key, unless it is in shared memory already. */
  ghost predicate ValuePut(m: Heap, h': Heap, r: Region, q: Ptr, v: Zval, plan: Plan, w: Zval) {
    if plan.Encoded? then w == Serialized(q) && h' == AddStr(m, q, plan.bytes)
    else if v.Undef? || v.Scalar? then w == v && h' == m
    else v.Str? && if r.Contains(v.p) then w == v && h' == m else w == Str(q) && h' == AddStr(m, q, BytesAt(m, v.p))
  }

  lemma ValueGrown(h: Heap, r: Region, at: Ptr, size: nat, key: Ptr, v: Zval, plan: Plan, w: Zval, m: Heap, h': Heap)
    requires WellFormed(h) && Typed(h, v) && Storable(v) && BlockIn(r, at, size) && Grown(h, m, r, at, size)
    requires size == PlanSize(h, r, key, v, plan) && (plan.Encoded? || plan.Lone?)
    requires forall q :: at + ENTRY + OutsideBytes(h, r, Str(key)) <= q < at + size ==> q !in m
    requires ValuePut(m, h', r, at + ENTRY + OutsideBytes(h, r, Str(key)), v, plan, w)
    ensures Grown(h, h', r, at, size) && Extends(m, h')
    ensures plan.Encoded? || (v.Str? && !r.Contains(v.p)) ==> r.Contains(at + ENTRY + OutsideBytes(h, r, Str(key)))
  {
    var q := at + ENTRY + OutsideBytes(h, r, Str(key));
    if plan.Encoded? || (v.Str? && !r.Contains(v.p)) {
      AddStrGrown(m, r, at, size, q, if plan.Encoded? then plan.bytes else BytesAt(m, v.p));
      GrownTwice(h, m, h', r, at, size);
    }
  }

  lemma ValueLeads(h: Heap, m: Heap, h': Heap, r: Region, q: Ptr, key: Ptr, v: Zval, plan: Plan, e: Stored)
    requires Extends(h, m) && Extends(m, h') && OnlyStrings(h, m) && Typed(h, v)
    requires (plan.Encoded? || (v.Str? && !r.Contains(v.p))) ==> q !in h
    requires ValuePut(m, h', r, q, v, plan, e.val) && (plan.Encoded? || !v.Arr?)
    requires e.key in m && m[e.key].StrNode? && (e.key in h ==> e.key == key)
    ensures LeadsBack(h, h', [Str(key), v], Roots(e.key, e.val)) && EdgesBack(h, h', [Str(key), v])
  {
    StringsLeadBack(h, h', [Str(key), v], Roots(e.key, e.val));
    StringsEdge(h, h', [Str(key), v]);
  }

  lemma ValueReads(h: Heap, m: Heap, h': Heap, r: Region, q: Ptr, key: Ptr, v: Zval, plan: Plan, e: Stored)
    requires WellFormed(h) && Typed(h, v) && Storable(v) && (plan.Encoded? || plan.Lone?)
    requires Extends(h, m) && Extends(m, h') && WellFormed(m) && SameKey(h, m, key, e) && r.Contains(e.key)
    requires ValuePut(m, h', r, q, v, plan, e.val) && (plan.Encoded? || (v.Str? && !r.Contains(v.p)) ==> r.Contains(q))
    ensures SameKey(h, h', key, e) && Anchored(h', r, e)
    ensures if plan.Encoded? then StoredBytes(h', plan.bytes, e.val) else SameValue(h, h', v, e.val)
  {
    StrKept(m, h', e.key, 0);
    if v.Str? {
      StrKept(h, m, v.p, 0);
    }
  }

  lemma ValueKeeps(h: Heap, r: Region, at: Ptr, size: nat, key: Ptr, v: Zval, plan: Plan, e: Stored, m: Heap, h': Heap)
    requires WellFormed(h) && Typed(h, v) && Storable(v) && BlockIn(r, at, size)
    requires Grown(h, m, r, at, size) && SameKey(h, m, key, e) && r.Contains(e.key) && (e.key in h ==> e.key == key)
    requires size == PlanSize(h, r, key, v, plan) && (plan.Encoded? || plan.Lone?) && OnlyStrings(h, m)
    requires forall q :: at + ENTRY + OutsideBytes(h, r, Str(key)) <= q < at + size ==> q !in m
    requires ValuePut(m, h', r, at + ENTRY + OutsideBytes(h, r, Str(key)), v, plan, e.val)
    ensures Grown(h, h', r, at, size) && Keeps(h, h', r, key, v, plan, e)
  {
    var q := at + ENTRY + OutsideBytes(h, r, Str(key));
    ValueGrown(h, r, at, size, key, v, plan, e.val, m, h');
    ValueReads(h, m, h', r, q, key, v, plan, e);
    ValueLeads(h, m, h', r, q, key, v, plan, e);
  }

  // ---- the whole of it ----

  ghost predicate SoundHeap(h: Heap, base: seq<nat>, size: nat, rows: seq<seq<Tile>>) {
    WellFormed(h) && ShmClosed(h, Region(base, size)) && Backed(base, size, rows, h)
  }

  /** No segment has a free block for `n` bytes. */
  ghost predicate NoRoom(rows: seq<seq<Tile>>, n: nat) {
    forall i :: 0 <= i < |rows| ==> NoneFits(rows[i], Need(n))
  }

  /**
   * What immutable_cache_persist has done when it returns `r`: nothing, if the plan was to refuse or no
   * segment had room; otherwise one block of exactly the planned size was taken and filled.
   */
  ghost predicate Settles(h: Heap, h': Heap, base: seq<nat>, size: nat, rows: seq<seq<Tile>>, rows': seq<seq<Tile>>,
                          key: Ptr, v: Zval, plan: Plan, r: Option<Stored>, w: nat, at: nat)
  {
    var region := Region(base, size);
    var n := PlanSize(h, region, key, v, plan);
    && |rows| == |base|
    && (r.None? <==> plan.Refused? || NoRoom(rows, n))
    && (r.None? ==> h' == h && rows' == rows)
    && (r.Some? ==>
      && Served(rows, rows', w, n, at)
      && r.value.memSize == n && r.value.at == base[w] + rows[w][at].off + BLOCK
      && Grown(h, h', region, r.value.at, n) && Keeps(h, h', region, key, v, plan, r.value))
  }

  /**
   * How a call to immutable_cache_persist that has returned `res` has dealt with the value, in terms of what lies in
   * the value.
   */
  ghost predicate AsDecided(h: Heap, h': Heap, r: Region, configured: Option<Serializer>, php: Serializer, key: Ptr,
                            v: Zval, res: Option<Stored>)
  {
    var ser := if configured.Some? then configured.value else php;
    && (CannotStore(h, r, configured.Some?, ser, v) ==> res.None?)
    && (res.Some? ==>
      && (res.value.val.Serialized? <==> NeedsBytes(h, r, configured.Some?, v))
      && (res.value.val.Serialized? ==>
        ser.encode(h, v).Some? && StoredBytes(h', ser.encode(h, v).value, res.value.val)))
    && (v.Arr? && configured.None? ==>
      && (res.Some? ==> (!res.value.val.Serialized? <==> Clean(h, r, key, v)))
      && (HasResource(h, r, key, v) && !HasMutable(h, r, key, v) ==> res.None?)
      && (HasMutable(h, r, key, v) && !HasResource(h, r, key, v) && res.Some? ==> res.value.val.Serialized?))
  }

  lemma SettlesAsDecided(h: Heap, h': Heap, base: seq<nat>, size: nat, rows: seq<seq<Tile>>, rows': seq<seq<Tile>>,
                         configured: Option<Serializer>, php: Serializer, key: Ptr, v: Zval, res: Option<Stored>,
                         w: nat, at: nat)
    requires WellFormed(h) && Typed(h, Str(key)) && Typed(h, v) && Storable(v)
    requires
      Settles(h, h', base, size, rows, rows', key, v,
              PlanOf(h, Region(base, size), configured.Some?, Chosen(configured, php), key, v), res, w, at)
    ensures AsDecided(h, h', Region(base, size), configured, php, key, v, res)
    ensures
      var r := Region(base, size);
      var plan := PlanOf(h, r, configured.Some?, Chosen(configured, php), key, v);
      res.None? <==>
        || CannotStore(h, r, configured.Some?, if configured.Some? then configured.value else php, v)
        || NoRoom(rows, PlanSize(h, r, key, v, plan))
  {
    PlanIs(h, Region(base, size), configured.Some?, Chosen(configured, php), key, v);
  }

  /** A block for `n` bytes, in which no node lies yet. */
  method Claim(pool: Pool, n: nat, h: Heap) returns (p: Ptr, ghost which: nat, ghost at: nat)
    requires pool.Valid() && SoundHeap(h, pool.base, pool.size, pool.Rows()) && n + BLOCK + WORD <= SIZE_LIMIT
    modifies pool`last, pool.segs
    ensures pool.Valid()
    ensures p == 0 <==> NoRoom(old(pool.Rows()), n)
    ensures p == 0 ==> pool.Rows() == old(pool.Rows())
    ensures |old(pool.Rows())| == |pool.base| && Apart(pool.base, pool.size) && Tiled(old(pool.Rows()), pool.size)
    ensures p != 0 ==>
      && Served(old(pool.Rows()), pool.Rows(), which, n, at)
      && p == pool.base[which] + old(pool.Rows())[which][at].off + BLOCK
      && BlockIn(Region(pool.base, pool.size), p, n) && forall q :: p <= q < p + n ==> q !in h
  {
    ghost var rows := pool.Rows();
    pool.RowsTiled();
    var usable;
    p, usable, which, at := pool.MallocEx(n);
    if p != 0 {
      ServedUnused(pool.base, pool.size, rows, pool.Rows(), which, n, at, h);
    }
  }

  /** The counting pass and the copying pass leave the allocator alone. */
  method CountFor(pool: Pool, configured: Option<Serializer>, php: Serializer, h: Heap, key: Ptr, v: Zval)
    returns (c: Context, ok: bool)
    requires pool.Valid() && WellFormed(h) && Typed(h, Str(key)) && Typed(h, v) && Storable(v)
    ensures pool.Valid() && pool.Rows() == old(pool.Rows())
    ensures fresh(c) && c.region == Region(pool.base, pool.size)
    ensures
      var plan := PlanOf(h, Region(pool.base, pool.size), configured.Some?, Chosen(configured, php), key, v);
      (ok <==> !plan.Refused?) && (ok ==> Counted(c, h, key, v, plan))
  {
    c, ok := Count(Region(pool.base, pool.size), configured, php, h, key, v);
  }

  method CopyFor(pool: Pool, c: Context, p: Ptr, h: Heap, key: Ptr, v: Zval, ghost plan: Plan) returns (e: Stored,
        h': Heap)
    requires pool.Valid() && Counted(c, h, key, v, plan) && !plan.Refused?
    requires WellFormed(h) && ShmClosed(h, c.region) && Typed(h, Str(key)) && Typed(h, v) && Storable(v)
    requires BlockIn(c.region, p, c.size) && forall q :: p <= q < p + c.size ==> q !in h
    modifies c
    ensures pool.Valid() && pool.Rows() == old(pool.Rows())
    ensures e.at == p && e.memSize == PlanSize(h, c.region, key, v, plan)
    ensures Grown(h, h', c.region, p, e.memSize) && Keeps(h, h', c.region, key, v, plan, e)
  {
    e, h' := CopyInto(c, p, h, key, v, plan);
  }

  /** The plan, one allocation and the copy. */
  method FollowPlan(pool: Pool, configured: Option<Serializer>, php: Serializer, h: Heap, key: Ptr, v: Zval)
    returns (r: Option<Stored>, h': Heap, ghost which: nat, ghost at: nat)
    requires pool.Valid() && SoundHeap(h, pool.base, pool.size, pool.Rows())
    requires Typed(h, Str(key)) && Typed(h, v) && Storable(v)
    requires
      var region := Region(pool.base, pool.size);
      var plan := PlanOf(h, region, configured.Some?, Chosen(configured, php), key, v);
      PlanSize(h, region, key, v, plan) + BLOCK + WORD <= SIZE_LIMIT
    modifies pool`last, pool.segs
    ensures pool.Valid() && SoundHeap(h', pool.base, pool.size, pool.Rows())
    ensures r.Some? ==> Apart(pool.base, pool.size) && Tiled(old(pool.Rows()), pool.size)
    ensures
      Settles(h, h', pool.base, pool.size, old(pool.Rows()), pool.Rows(), key, v,
              PlanOf(h, Region(pool.base, pool.size), configured.Some?, Chosen(configured, php), key, v), r, which, at)
  {
    ghost var region := Region(pool.base, pool.size);
    ghost var plan := PlanOf(h, region, configured.Some?, Chosen(configured, php), key, v);
    ghost var rows := pool.Rows();
    r, h', which, at := None, h, 0, 0;
    var c, ok := CountFor(pool, configured, php, h, key, v);
    if !ok {
      return;
    }
    var p;
    p, which, at := Claim(pool, c.size, h);
    if p == 0 {
      return;
    }
    var e;
    e, h' := CopyFor(pool, c, p, h, key, v, plan);
    ServedBacked(pool.base, pool.size, rows, pool.Rows(), which, e.memSize, at, h, h');
    r := Some(e);
  }

  /** immutable_cache_persist. */
  method PersistEntry(pool: Pool, configured: Option<Serializer>, php: Serializer, h: Heap, key: Ptr, v: Zval)
    returns (r: Option<Stored>, h': Heap, ghost which: nat, ghost at: nat)
    requires pool.Valid() && SoundHeap(h, pool.base, pool.size, pool.Rows())
    requires Typed(h, Str(key)) && Typed(h, v) && Storable(v)
    requires
      var region := Region(pool.base, pool.size);
      var plan := PlanOf(h, region, configured.Some?, Chosen(configured, php), key, v);
      PlanSize(h, region, key, v, plan) + BLOCK + WORD <= SIZE_LIMIT
    modifies pool`last, pool.segs
    ensures pool.Valid() && SoundHeap(h', pool.base, pool.size, pool.Rows())
    ensures r.Some? ==> Apart(pool.base, pool.size) && Tiled(old(pool.Rows()), pool.size)
    ensures
      Settles(h, h', pool.base, pool.size, old(pool.Rows()), pool.Rows(), key, v,
              PlanOf(h, Region(pool.base, pool.size), configured.Some?, Chosen(configured, php), key, v), r, which, at)
    ensures AsDecided(h, h', Region(pool.base, pool.size), configured, php, key, v, r)
    ensures
      var region := Region(pool.base, pool.size);
      var plan := PlanOf(h, region, configured.Some?, Chosen(configured, php), key, v);
      r.None? <==>
        || CannotStore(h, region, configured.Some?, if configured.Some? then configured.value else php, v)
        || NoRoom(old(pool.Rows()), PlanSize(h, region, key, v, plan))
  {
    ghost var rows := pool.Rows();
    r, h', which, at := FollowPlan(pool, configured, php, h, key, v);
    SettlesAsDecided(h, h', pool.base, pool.size, rows, pool.Rows(), configured, php, key, v, r, which, at);
  }

  // ---- and back ----

  const NULL_VALUE: Zval := Scalar(0)

  lemma {:induction false} NoLiveSlots(h: Heap, packed: bool, bs: seq<Bucket>, k: nat, n: nat)
    requires k <= |bs| && LiveSlots(bs) == 0
    ensures UnfoldSlots(h, packed, bs, k, n) == []
    decreases k
  {
    if k > 0 {
      NoLiveSlots(h, packed, bs, k - 1, n);
      AllHoles(bs, k - 1);
    }
  }

  lemma {:induction false} AllHoles(bs: seq<Bucket>, i: nat)
    requires i < |bs| && LiveSlots(bs) == 0
    ensures bs[i].val.Undef?
    decreases |bs|
  {
    if i < |bs| - 1 {
      AllHoles(bs[..|bs| - 1], i);
    }
  }

  /** A string or array is marked as never to be freed. */
  ghost predicate Sealed(h: Heap, v: Zval) {
    match v
    case Str(p) => p in h && h[p].StrNode? && h[p].interned
    case Arr(p) => p in h && h[p].ArrNode? && h[p].immutable
    case _ => true
  }

  /**
   * immutable_cache_unpersist: bytes are decoded, anything else is used in place, an array without
   * elements giving way to PHP's own empty array `empty`.
   */
  method Unpersist(h: Heap, w: Zval, configured: Option<Serializer>, php: Serializer, empty: Ptr)
    returns (ok: bool, h': Heap, v: Zval)
    requires WellFormed(h)
    requires if w.Serialized? then Typed(h, Str(w.p)) else Typed(h, w) && !Stops(w) && Sealed(h, w)
    requires Typed(h, Arr(empty)) && h[empty].buckets == []
    ensures w.Serialized? ==>
      match (if configured.Some? then configured.value.decode(h[w.p].bytes) else php.decode(h[w.p].bytes))
      case Some(out) => ok && h' == out.0 && v == out.1
      case None => !ok && v == NULL_VALUE
    ensures !w.Serialized? ==> ok && h' == h && v == if w.Arr? && h[w.p].live == 0 then Arr(empty) else w
    ensures !w.Serialized? ==> forall n :: Unfold(h, v, n) == Unfold(h, w, n)
  {
    if w.Serialized? {
      var out := Chosen(configured, php).decode(h[w.p].bytes);
      if out.Some? {
        return true, out.value.0, out.value.1;
      }
      return false, h, NULL_VALUE;
    }
    ok, h', v := true, h, w;
    if w.Str? {
      assert h[w.p].interned;
    } else if w.Arr? && h[w.p].live > 0 {
      assert h[w.p].immutable;
    } else if w.Arr? {
      v := Arr(empty);
      assert NodeTyped(h, h[w.p]);
      forall n | n > 0 ensures Unfold(h, v, n) == Unfold(h, w, n) {
        NoLiveSlots(h, h[w.p].packed, h[w.p].buckets, |h[w.p].buckets|, n - 1);
      }
    }
  }

  /** Decoding undoes the encoding of `v`, as far as PHP code can tell. */
  ghost predicate RoundTrips(ser: Serializer, h: Heap, v: Zval) {
    ser.encode(h, v).Some? ==>
      var out := ser.decode(ser.encode(h, v).value);
      out.Some? && forall n :: Unfold(out.value.0, out.value.1, n) == Unfold(h, v, n)
  }
}
