/** ImmutableCacheIterator: the table is read a chunk of slots at a time, and may grow in between. */
module Iteration {
  import opened Focus
  import opened Options
  import opened Sequences
  import opened Tiles
  import opened Values
  import opened Chains
  import opened Protocol
  import opened Invariants
  import opened Safety
  import opened Stack

  const DEFAULT_CHUNK: nat := 100

  datatype Item = Item(entry: Ptr, key: Bytes)

  /** Chains only get longer, and entries keep their names. */
  ghost predicate Grows(a: Shared, b: Shared) {
    && |a.slots| == |b.slots| && |a.chains| == |b.chains|
    && forall s {:trigger a.chains[s]} {:trigger b.chains[s]} ::
      0 <= s < |a.chains| ==> ChainGrows(a, b, a.chains[s], b.chains[s])
  }

  ghost predicate ChainGrows(a: Shared, b: Shared, c: seq<Ptr>, d: seq<Ptr>) {
    c <= d && forall p :: p in c ==> KeyAt(b, p) == KeyAt(a, p)
  }

  /** What an iterator sees as time goes by, each time under the global read lock. */
  ghost predicate GrowingTable(env: nat -> Shared) {
    forall z {:trigger LookAtWalk(z)} :: LookAtWalk(z) ==>
      && (forall i :: Structure(env(i)))
      && (forall i, j :: i <= j ==> Grows(env(i), env(j)))
  }

  lemma ViewAt(env: nat -> Shared, i: nat, j: nat)
    requires GrowingTable(env) && i <= j
    ensures Structure(env(j)) && Grows(env(i), env(j)) && |env(j).slots| == |env(i).slots| == |env(j).chains|
  {
    assert LookAtWalk(0);
  }

  /** One step down a chain. */
  lemma ChainStep(v: Shared, s: nat, j: nat)
    requires Structure(v) && s < |v.chains|
    ensures v.slots[s] == First(v.chains[s])
    ensures j < |v.chains[s]| ==>
      var c := v.chains[s];
      c[j] != 0 && c[j] in v.mem && v.mem[c[j]].next == if j + 1 < |c| then c[j + 1] else 0
  {
    assert LookAtState(0);
    assert ChainGood(v, s, v.chains[s]);
    assert j + 1 < |v.chains[s]| ==> Adjacent(j, j + 1);
  }

  function ItemAt(v: Shared, p: Ptr): Item {
    Item(p, KeyAt(v, p))
  }

  /** The wanted ones among the first `j` entries of a chain. */
  function Picks(v: Shared, wanted: Bytes -> bool, c: seq<Ptr>, j: nat): seq<Item>
    requires j <= |c|
    decreases j
  {
    if j == 0 then []
    else
      var it := ItemAt(v, c[j - 1]);
      Picks(v, wanted, c, j - 1) + if wanted(it.key) then [it] else []
  }

  /** The wanted entries of slot `s`. */
  function Row(v: Shared, wanted: Bytes -> bool, s: nat): seq<Item> {
    if s < |v.chains| then Picks(v, wanted, v.chains[s], |v.chains[s]|) else []
  }

  /** The wanted entries of slots a..b. */
  function Chunk(v: Shared, wanted: Bytes -> bool, a: nat, b: nat): seq<Item>
    requires a <= b
    decreases b
  {
    if a == b then [] else Chunk(v, wanted, a, b - 1) + Row(v, wanted, b - 1)
  }

  /** No slot was read once more than a chunk had been collected. */
  ghost predicate Frugal(v: Shared, wanted: Bytes -> bool, a: nat, b: nat, chunk: nat)
    requires a <= b
  {
    forall z {:trigger LookAtSlots(z)} :: LookAtSlots(z) ==> a < b ==> |Chunk(v, wanted, a, b - 1)| <= chunk
  }

  /** `got` is what slots a..b hold, and no slot was read too many. */
  ghost predicate Fetched(v: Shared, wanted: Bytes -> bool, a: nat, b: nat, chunk: nat, got: seq<Item>) {
    forall z {:trigger LookAtProgress(z)} :: LookAtProgress(z) ==>
      a <= b && got == Chunk(v, wanted, a, b) && Frugal(v, wanted, a, b, chunk)
  }

  lemma FetchedMore(v: Shared, wanted: Bytes -> bool, a: nat, b: nat, chunk: nat, got: seq<Item>)
    requires Fetched(v, wanted, a, b, chunk, got) && |got| <= chunk
    ensures Fetched(v, wanted, a, b + 1, chunk, got + Row(v, wanted, b))
  {
    assert LookAtProgress(0);
  }

  lemma FetchedMeans(v: Shared, wanted: Bytes -> bool, a: nat, b: nat, chunk: nat, got: seq<Item>)
    requires Fetched(v, wanted, a, b, chunk, got)
    ensures a <= b && got == Chunk(v, wanted, a, b) && Frugal(v, wanted, a, b, chunk)
  {
    assert LookAtProgress(0);
  }

  /** The first `n` rows, one after the other. */
  function Gathered(rows: seq<seq<Item>>, n: nat): seq<Item>
    requires n <= |rows|
    decreases n
  {
    if n == 0 then [] else Gathered(rows, n - 1) + rows[n - 1]
  }

  /** `more` continues `rows` with the slots up to `n` as `v` has them. */
  ghost predicate Continues(rows: seq<seq<Item>>, more: seq<seq<Item>>, v: Shared, wanted: Bytes -> bool) {
    && |rows| <= |more|
    && (forall s {:trigger more[s]} :: 0 <= s < |rows| ==> more[s] == rows[s])
    && (forall s {:trigger more[s]} :: |rows| <= s < |more| ==> more[s] == Row(v, wanted, s))
  }

  lemma {:induction false} GatherSame(rows: seq<seq<Item>>, more: seq<seq<Item>>, v: Shared, wanted: Bytes -> bool,
        n: nat)
    requires Continues(rows, more, v, wanted) && n <= |rows|
    ensures Gathered(more, n) == Gathered(rows, n)
    decreases n
  {
    if n > 0 {
      GatherSame(rows, more, v, wanted, n - 1);
    }
  }

  lemma {:induction false} GatherChunk(rows: seq<seq<Item>>, more: seq<seq<Item>>, v: Shared, wanted: Bytes -> bool,
        n: nat)
    requires Continues(rows, more, v, wanted) && |rows| <= n <= |more|
    ensures Gathered(more, n) == Gathered(rows, |rows|) + Chunk(v, wanted, |rows|, n)
    decreases n
  {
    if n == |rows| {
      GatherSame(rows, more, v, wanted, n);
    } else {
      GatherChunk(rows, more, v, wanted, n - 1);
      assert more[n - 1] == Row(v, wanted, n - 1);
    }
  }

  /** The rows of slots |rows|..n, read from `v`. */
  function ReadOn(rows: seq<seq<Item>>, v: Shared, wanted: Bytes -> bool, n: nat): (more: seq<seq<Item>>)
    requires |rows| <= n
    ensures |more| == n && Continues(rows, more, v, wanted)
    decreases n
  {
    if n == |rows| then rows else ReadOn(rows, v, wanted, n - 1) + [Row(v, wanted, n - 1)]
  }

  /** Every row is that of its slot at some moment. */
  ghost predicate ReadLater(env: nat -> Shared, wanted: Bytes -> bool, rows: seq<seq<Item>>) {
    forall s {:trigger rows[s]} :: 0 <= s < |rows| ==> ReadAt(env, wanted, s, rows[s])
  }

  ghost predicate ReadAt(env: nat -> Shared, wanted: Bytes -> bool, s: nat, row: seq<Item>) {
    exists i: nat :: row == Row(env(i), wanted, s)
  }

  lemma ReadMore(env: nat -> Shared, wanted: Bytes -> bool, rows: seq<seq<Item>>, more: seq<seq<Item>>, now: nat)
    requires ReadLater(env, wanted, rows) && Continues(rows, more, env(now), wanted)
    ensures ReadLater(env, wanted, more)
  {
  }

  // ---- what a foreach yields ----

  /** A wanted entry bound in `v`. */
  ghost predicate Present(v: Shared, wanted: Bytes -> bool, it: Item) {
    it.key in v.table && v.table[it.key] == it.entry && wanted(it.key)
  }

  lemma {:induction false} PicksHas(v: Shared, wanted: Bytes -> bool, c: seq<Ptr>, j: nat, it: Item)
    requires j <= |c|
    ensures it in Picks(v, wanted, c, j) <==> exists i :: 0 <= i < j && it == ItemAt(v, c[i]) && wanted(it.key)
    decreases j
  {
    if j > 0 {
      PicksHas(v, wanted, c, j - 1, it);
    }
  }

  /** The row of slot `s` holds exactly the wanted entries whose keys belong to that slot. */
  lemma RowHas(v: Shared, wanted: Bytes -> bool, s: nat, it: Item)
    requires Structure(v) && s < |v.chains|
    ensures it in Row(v, wanted, s) <==> Present(v, wanted, it) && SlotOf(it.key, |v.slots|) == s
  {
    assert LookAtState(0);
    var c := v.chains[s];
    assert ChainGood(v, s, c);
    PicksHas(v, wanted, c, |c|, it);
    if Present(v, wanted, it) && SlotOf(it.key, |v.slots|) == s {
      assert it.entry in ChainFor(v, it.key);
      var i :| 0 <= i < |c| && c[i] == it.entry;
      assert it == ItemAt(v, c[i]);
    }
  }

  lemma {:induction false} PicksOnce(v: Shared, wanted: Bytes -> bool, c: seq<Ptr>, j: nat)
    requires j <= |c| && Unrepeated(c)
    ensures Unrepeated(Picks(v, wanted, c, j))
    decreases j
  {
    if j > 0 {
      PicksOnce(v, wanted, c, j - 1);
      var it := ItemAt(v, c[j - 1]);
      PicksHas(v, wanted, c, j - 1, it);
      assert it !in Picks(v, wanted, c, j - 1) by {
        assert LookInside(0);
      }
      UnrepeatedMore(Picks(v, wanted, c, j - 1), it);
    }
  }

  lemma RowOnce(v: Shared, wanted: Bytes -> bool, s: nat)
    requires Structure(v) && s < |v.chains|
    ensures Unrepeated(Row(v, wanted, s))
  {
    assert LookAtState(0);
    assert ChainGood(v, s, v.chains[s]);
    PicksOnce(v, wanted, v.chains[s], |v.chains[s]|);
  }

  /** What was bound once is bound later, to the same entry. */
  lemma PresentLater(a: Shared, b: Shared, wanted: Bytes -> bool, it: Item)
    requires Structure(a) && Structure(b) && Grows(a, b) && Present(a, wanted, it)
    ensures Present(b, wanted, it)
  {
    assert LookAtState(0);
    var s := SlotOf(it.key, |a.slots|);
    assert it.entry in ChainFor(a, it.key) && ChainGrows(a, b, a.chains[s], b.chains[s]);
    assert it.entry in b.chains[s];
    var i :| 0 <= i < |b.chains[s]| && b.chains[s][i] == it.entry;
    assert ChainGood(b, s, b.chains[s]);
  }

  lemma {:induction false} GatheredHas(rows: seq<seq<Item>>, n: nat, it: Item)
    requires n <= |rows|
    ensures it in Gathered(rows, n) <==> exists s :: 0 <= s < n && it in rows[s]
    decreases n
  {
    if n > 0 {
      GatheredHas(rows, n - 1, it);
    }
  }

  /** Rows of different slots have nothing in common. */
  lemma {:induction false} GatheredOnce(rows: seq<seq<Item>>, nslots: nat, n: nat)
    requires n <= |rows| && nslots > 0
    requires forall s {:trigger rows[s]} :: 0 <= s < n ==> RowOf(rows[s], nslots, s)
    ensures Unrepeated(Gathered(rows, n))
    decreases n
  {
    if n > 0 {
      GatheredOnce(rows, nslots, n - 1);
      var a, b := Gathered(rows, n - 1), rows[n - 1];
      forall it | it in a ensures it !in b {
        GatheredHas(rows, n - 1, it);
        var s :| 0 <= s < n - 1 && it in rows[s];
        assert RowOf(rows[s], nslots, s);
      }
      UnrepeatedJoin(a, b);
    }
  }

  /** No repetitions, and only keys of slot `s`. */
  ghost predicate RowOf(row: seq<Item>, nslots: nat, s: nat)
    requires nslots > 0
  {
    Unrepeated(row) && forall it :: it in row ==> SlotOf(it.key, nslots) == s
  }

  lemma RowFacts(env: nat -> Shared, wanted: Bytes -> bool, rows: seq<seq<Item>>, s: nat)
    requires GrowingTable(env) && ReadLater(env, wanted, rows) && |rows| == |env(0).slots| && s < |rows|
    ensures Unrepeated(rows[s])
    ensures forall it :: it in rows[s] ==> SlotOf(it.key, |rows|) == s && exists i: nat :: Present(env(i), wanted, it)
    ensures forall it :: Present(env(0), wanted, it) && SlotOf(it.key, |rows|) == s ==> it in rows[s]
  {
    assert ReadAt(env, wanted, s, rows[s]);
    var i: nat :| rows[s] == Row(env(i), wanted, s);
    ViewAt(env, 0, i);
    RowOnce(env(i), wanted, s);
    forall it | it in rows[s] ensures SlotOf(it.key, |rows|) == s && Present(env(i), wanted, it) {
      RowHas(env(i), wanted, s, it);
    }
    forall it | Present(env(0), wanted, it) && SlotOf(it.key, |rows|) == s ensures it in rows[s] {
      ViewAt(env, 0, 0);
      PresentLater(env(0), env(i), wanted, it);
      RowHas(env(i), wanted, s, it);
    }
  }

  /** Exactly once what was there at rewind; nothing twice; nothing that is not wanted or never was there. */
  lemma ForeachYields(env: nat -> Shared, wanted: Bytes -> bool, rows: seq<seq<Item>>)
    requires GrowingTable(env) && ReadLater(env, wanted, rows) && |rows| == |env(0).slots|
    ensures Unrepeated(Gathered(rows, |rows|))
    ensures forall it :: Present(env(0), wanted, it) ==> it in Gathered(rows, |rows|)
    ensures forall it :: it in Gathered(rows, |rows|) ==> exists i: nat :: Present(env(i), wanted, it)
  {
    ViewAt(env, 0, 0);
    forall s | 0 <= s < |rows| ensures RowOf(rows[s], |rows|, s) {
      RowFacts(env, wanted, rows, s);
    }
    GatheredOnce(rows, |rows|, |rows|);
    forall it | Present(env(0), wanted, it) ensures it in Gathered(rows, |rows|) {
      RowFacts(env, wanted, rows, SlotOf(it.key, |rows|));
      GatheredHas(rows, |rows|, it);
    }
    forall it | it in Gathered(rows, |rows|) ensures exists i: nat :: Present(env(i), wanted, it) {
      GatheredHas(rows, |rows|, it);
      var s :| 0 <= s < |rows| && it in rows[s];
      RowFacts(env, wanted, rows, s);
    }
  }

  // ---- totals ----

  /** Sizes and hits of the entries of `y` among its first `n` items. */
  function MemSum(v: Shared, y: seq<Item>, n: nat): nat
    requires n <= |y|
    decreases n
  {
    if n == 0 then 0 else MemSum(v, y, n - 1) + (if y[n - 1].entry in v.mem then v.mem[y[n - 1].entry].memSize else 0)
  }

  function HitSum(v: Shared, y: seq<Item>, n: nat): nat
    requires n <= |y|
    decreases n
  {
    if n == 0 then 0 else HitSum(v, y, n - 1) + (if y[n - 1].entry in v.mem then v.mem[y[n - 1].entry].hits else 0)
  }

  lemma {:induction false} SumsJoin(v: Shared, a: seq<Item>, b: seq<Item>, n: nat)
    requires n <= |a|
    ensures MemSum(v, a + b, n) == MemSum(v, a, n) && HitSum(v, a + b, n) == HitSum(v, a, n)
    decreases n
  {
    if n > 0 {
      SumsJoin(v, a, b, n - 1);
    }
  }

  /** The counters have been raised by what the items of `y` amount to. */
  ghost predicate Counts(v: Shared, y: seq<Item>, count: nat, bytes: nat, hits: nat) {
    count == |y| && bytes == MemSum(v, y, |y|) && hits == HitSum(v, y, |y|)
  }

  lemma CountsMore(v: Shared, y: seq<Item>, it: Item)
    requires it.entry in v.mem
    ensures MemSum(v, y + [it], |y| + 1) == MemSum(v, y, |y|) + v.mem[it.entry].memSize
    ensures HitSum(v, y + [it], |y| + 1) == HitSum(v, y, |y|) + v.mem[it.entry].hits
  {
    SumsJoin(v, y, [it], |y|);
  }

  class Iterator {
    const chunk: nat
    const wanted: Bytes -> bool
    const stack: Stack<Item>
    var slotIdx: nat
    var stackIdx: nat
    var keyIdx: nat
    var totalsFlag: bool
    var count: nat
    var bytes: nat
    var hits: nat

    ghost predicate Valid()
      reads this, stack
    {
      stack.Valid() && (stack.size == 0 ==> stackIdx == 0)
    }

    /** The position is in the chunk, or at its end. */
    ghost predicate InChunk()
      reads this, stack
    {
      Valid() && stackIdx <= stack.size
    }

    /** Items fetched and not passed yet. */
    ghost function Ahead(): seq<Item>
      requires InChunk()
      reads this, stack, stack.data
    {
      stack.Contents()[stackIdx..]
    }

    constructor (chunkSize: nat, wanted: Bytes -> bool)
      ensures Valid() && fresh(stack) && fresh(stack.data) && slotIdx == 0 && stack.Contents() == []
      ensures chunk == (if chunkSize == 0 then DEFAULT_CHUNK else chunkSize) && this.wanted == wanted && !totalsFlag
      ensures count == bytes == hits == 0
    {
      slotIdx, stackIdx, keyIdx := 0, 0, 0;
      chunk := if chunkSize == 0 then DEFAULT_CHUNK else chunkSize;
      this.wanted := wanted;
      stack := new Stack<Item>(chunkSize);
      totalsFlag, count, bytes, hits := false, 0, 0, 0;
    }

    /** The stack is emptied item by item. */
    method Drain()
      requires stack.Valid()
      modifies stack`size
      ensures stack.Valid() && stack.Contents() == []
    {
      while stack.size > 0
        invariant stack.Valid()
        decreases stack.size
      {
        var item := stack.Pop();
      }
    }

    /** immutable_cache_iterator_fetch_active: whole slots, until more than a chunk has been collected. */
    method FetchActive(v: Shared) returns (found: nat)
      requires stack.Valid() && Structure(v) && slotIdx <= |v.slots|
      modifies this`slotIdx, this`stackIdx, stack, stack.data
      ensures Valid() && stackIdx == 0 && (stack.data == old(stack.data) || fresh(stack.data))
      ensures old(slotIdx) <= slotIdx <= |v.slots| && stack.Contents() == Chunk(v, wanted, old(slotIdx), slotIdx)
      ensures found == stack.size
      ensures found <= chunk ==> slotIdx == |v.slots|
      ensures old(slotIdx) < |v.slots| ==> old(slotIdx) < slotIdx
      ensures Frugal(v, wanted, old(slotIdx), slotIdx, chunk)
    {
      found := 0;
      Drain();
      while found <= chunk && slotIdx < |v.slots|
        invariant stack.Valid() && (stack.data == old(stack.data) || fresh(stack.data))
        invariant old(slotIdx) <= slotIdx <= |v.slots| && found == stack.size
        invariant slotIdx == old(slotIdx) ==> found == 0
        invariant Fetched(v, wanted, old(slotIdx), slotIdx, chunk, stack.Contents())
      {
        found := NextSlot(v, old(slotIdx), found);
      }
      FetchedMeans(v, wanted, old(slotIdx), slotIdx, chunk, stack.Contents());
      stackIdx := 0;
    }

    /** One slot more, after those from `from` on. */
    method NextSlot(v: Shared, ghost from: nat, before: nat) returns (found: nat)
      requires stack.Valid() && Structure(v) && slotIdx < |v.slots| && before == stack.size <= chunk
      requires Fetched(v, wanted, from, slotIdx, chunk, stack.Contents())
      modifies this`slotIdx, stack, stack.data
      ensures stack.Valid() && (stack.data == old(stack.data) || fresh(stack.data))
      ensures slotIdx == old(slotIdx) + 1 && found == stack.size
      ensures Fetched(v, wanted, from, slotIdx, chunk, stack.Contents())
    {
      FetchedMore(v, wanted, from, slotIdx, chunk, stack.Contents());
      found := FetchSlot(v, before);
      slotIdx := slotIdx + 1;
    }

    /** The inner loop: down the chain of the current slot. */
    method FetchSlot(v: Shared, before: nat) returns (found: nat)
      requires stack.Valid() && Structure(v) && slotIdx < |v.slots| && before == stack.size
      modifies stack, stack.data
      ensures stack.Valid() && (stack.data == old(stack.data) || fresh(stack.data))
      ensures stack.Contents() == old(stack.Contents()) + Row(v, wanted, slotIdx)
      ensures found == stack.size
    {
      found := before;
      ghost var c := v.chains[slotIdx];
      ChainStep(v, slotIdx, 0);
      var entry := v.slots[slotIdx];
      ghost var j := 0;
      while entry != 0
        invariant j <= |c| && entry == (if j < |c| then c[j] else 0)
        invariant stack.Valid() && (stack.data == old(stack.data) || fresh(stack.data))
        invariant stack.Contents() == old(stack.Contents()) + Picks(v, wanted, c, j) && found == stack.size
        decreases |c| - j
      {
        ChainStep(v, slotIdx, j);
        var item := ItemAt(v, entry);
        if wanted(item.key) {
          found := found + 1;
          stack.Push(item);
        }
        entry, j := v.mem[entry].next, j + 1;
      }
      ChainStep(v, slotIdx, j);
    }

    method Rewind(v: Shared)
      requires stack.Valid() && Structure(v)
      modifies this`slotIdx, this`stackIdx, this`keyIdx, stack, stack.data
      ensures Valid() && stackIdx == 0 && keyIdx == 0 && (stack.data == old(stack.data) || fresh(stack.data))
      ensures slotIdx <= |v.slots| && stack.Contents() == Chunk(v, wanted, 0, slotIdx)
      ensures stack.size == 0 ==> slotIdx == |v.slots|
    {
      slotIdx, stackIdx, keyIdx := 0, 0, 0;
      var found := FetchActive(v);
    }

    /** What a call has left of the chunk: as it was, or the next one if it was used up. */
    twostate predicate Refilled(v: Shared)
      requires old(Valid()) && Valid()
      reads this, stack, stack.data
    {
      && old(slotIdx) <= slotIdx <= |v.slots|
      && (old(stackIdx != stack.size) ==>
        slotIdx == old(slotIdx) && stackIdx == old(stackIdx) && stack.size == old(stack.size) &&
          stack.Contents() == old(stack.Contents()))
      && (old(stackIdx == stack.size) ==>
        && stackIdx == 0 && stack.Contents() == Chunk(v, wanted, old(slotIdx), slotIdx)
        && (old(slotIdx) < |v.slots| ==> old(slotIdx) < slotIdx) && (stack.size == 0 ==> slotIdx == |v.slots|))
    }

    /**
     * valid(): a used-up chunk is replaced by the next. The answer is whether an item is at hand, exactly when
     * the position is not beyond the chunk; beyond it the answer is always yes.
     */
    method IsValid(v: Shared) returns (b: bool)
      requires Valid() && Structure(v) && slotIdx <= |v.slots|
      modifies this`slotIdx, this`stackIdx, stack, stack.data
      ensures Valid() && (stack.data == old(stack.data) || fresh(stack.data)) && Refilled(v)
      ensures b <==> stack.size > 0
      ensures (b <==> stackIdx < stack.size) <==> old(InChunk())
    {
      if stack.size == stackIdx {
        var found := FetchActive(v);
      }
      b := stack.size != 0;
    }

    /** current() and key(): the item at hand, from the next chunk if this one is used up; none when the table is. */
    method Current(v: Shared) returns (item: Option<Item>)
      requires InChunk() && Structure(v) && slotIdx <= |v.slots|
      modifies this`slotIdx, this`stackIdx, stack, stack.data
      ensures InChunk() && (stack.data == old(stack.data) || fresh(stack.data)) && Refilled(v)
      ensures item == if stackIdx < stack.size then Some(stack.Contents()[stackIdx]) else None
      ensures item.None? ==>
        old(stackIdx == stack.size) && slotIdx == |v.slots| &&
        Chunk(v, wanted, old(slotIdx), slotIdx) == []
    {
      if stack.size == stackIdx {
        var found := FetchActive(v);
        if found == 0 {
          return None;
        }
      }
      var at := stack.Get(stackIdx);
      item := Some(at);
    }

    /** next(): one further, whatever there is; nothing happens when nothing was fetched. */
    method Next()
      requires Valid()
      modifies this`stackIdx, this`keyIdx
      ensures Valid()
      ensures stack.size > 0 ==> stackIdx == old(stackIdx) + 1 && keyIdx == old(keyIdx) + 1
      ensures stack.size == 0 ==> stackIdx == old(stackIdx) && keyIdx == old(keyIdx)
      ensures InChunk() <==> stack.size == 0 || old(stackIdx) < stack.size
    {
      if stack.size == 0 {
        return;
      }
      stackIdx := stackIdx + 1;
      keyIdx := keyIdx + 1;
    }

    /** immutable_cache_iterator_totals, the first time one of the totals is asked for. */
    method GetTotals(v: Shared) returns (c: nat, b: nat, h: nat)
      requires Structure(v) && (!totalsFlag ==> count == bytes == hits == 0)
      modifies this`totalsFlag, this`count, this`bytes, this`hits
      ensures totalsFlag && c == count && b == bytes && h == hits
      ensures !old(totalsFlag) ==> Counts(v, Chunk(v, wanted, 0, |v.slots|), count, bytes, hits)
      ensures old(totalsFlag) ==> count == old(count) && bytes == old(bytes) && hits == old(hits)
    {
      if !totalsFlag {
        var i := 0;
        while i < |v.slots|
          invariant i <= |v.slots| && !totalsFlag && Counts(v, Chunk(v, wanted, 0, i), count, bytes, hits)
        {
          TotalSlot(v, i, Chunk(v, wanted, 0, i));
          i := i + 1;
        }
        totalsFlag := true;
      }
      c, b, h := count, bytes, hits;
    }

    method TotalSlot(v: Shared, s: nat, ghost y: seq<Item>)
      requires Structure(v) && s < |v.slots| && Counts(v, y, count, bytes, hits)
      modifies this`count, this`bytes, this`hits
      ensures Counts(v, y + Row(v, wanted, s), count, bytes, hits)
    {
      ghost var c := v.chains[s];
      ChainStep(v, s, 0);
      assert y + Picks(v, wanted, c, 0) == y;
      var entry := v.slots[s];
      ghost var j := 0;
      while entry != 0
        invariant j <= |c| && entry == (if j < |c| then c[j] else 0)
        invariant Counts(v, y + Picks(v, wanted, c, j), count, bytes, hits)
        decreases |c| - j
      {
        ChainStep(v, s, j);
        ghost var so := y + Picks(v, wanted, c, j);
        var item := ItemAt(v, entry);
        assert y + Picks(v, wanted, c, j + 1) == if wanted(item.key) then so + [item] else so;
        if wanted(item.key) {
          CountsMore(v, so, item);
          bytes := bytes + v.mem[entry].memSize;
          hits := hits + v.mem[entry].hits;
          count := count + 1;
        }
        entry, j := v.mem[entry].next, j + 1;
      }
      ChainStep(v, s, j);
    }

    /** So much of the table has been read, and so much of that yielded. */
    ghost predicate AtRow(env: nat -> Shared, rows: seq<seq<Item>>, yielded: seq<Item>)
      reads this, stack, stack.data
    {
      && InChunk() && |rows| == slotIdx <= |env(0).slots|
      && yielded + Ahead() == Gathered(rows, |rows|) && ReadLater(env, wanted, rows)
    }

    /** A full foreach, each refill at a later moment of a table that grows meanwhile. */
    method Foreach(env: nat -> Shared) returns (yielded: seq<Item>, ghost rows: seq<seq<Item>>)
      requires Valid() && GrowingTable(env)
      modifies this`slotIdx, this`stackIdx, this`keyIdx, stack, stack.data
      ensures |rows| == |env(0).slots| && yielded == Gathered(rows, |rows|) && ReadLater(env, wanted, rows)
      ensures Unrepeated(yielded)
      ensures forall it :: Present(env(0), wanted, it) ==> it in yielded
      ensures forall it :: it in yielded ==> exists i: nat :: Present(env(i), wanted, it)
    {
      yielded := [];
      rows := Begin(env);
      var now, more := 1, true;
      while more
        invariant AtRow(env, rows, yielded) && (stack.data == old(stack.data) || fresh(stack.data))
        invariant !more ==> slotIdx == |env(0).slots| && Ahead() == []
        decreases |env(0).slots| - slotIdx, stack.size - stackIdx, if more then 1 else 0
      {
        more, yielded, rows := Round(env, now, rows, yielded);
        now := now + 1;
      }
      ForeachYields(env, wanted, rows);
    }

    /** rewind(), in terms of what has been read. */
    method Begin(env: nat -> Shared) returns (ghost rows: seq<seq<Item>>)
      requires Valid() && GrowingTable(env)
      modifies this`slotIdx, this`stackIdx, this`keyIdx, stack, stack.data
      ensures AtRow(env, rows, []) && (stack.data == old(stack.data) || fresh(stack.data))
    {
      ViewAt(env, 0, 0);
      var v := env(0);
      Rewind(v);
      rows := ReadOn([], v, wanted, slotIdx);
      GatherChunk([], rows, v, wanted, slotIdx);
      ReadMore(env, wanted, [], rows, 0);
      assert [] + Ahead() == stack.Contents() == Gathered(rows, |rows|);
    }

    /** valid(), current() and next(). */
    method Round(env: nat -> Shared, now: nat, ghost rows: seq<seq<Item>>, yielded: seq<Item>) returns (ok: bool,
          yielded': seq<Item>, ghost rows': seq<seq<Item>>)
      requires GrowingTable(env) && AtRow(env, rows, yielded)
      modifies this`slotIdx, this`stackIdx, this`keyIdx, stack, stack.data
      ensures AtRow(env, rows', yielded') && (stack.data == old(stack.data) || fresh(stack.data))
      ensures !ok ==> slotIdx == |env(0).slots| && Ahead() == []
      ensures old(slotIdx) < slotIdx ||
        (old(slotIdx) == slotIdx && (ok ==> stack.size - stackIdx < old(stack.size - stackIdx)))
      ensures old(slotIdx) == slotIdx && !ok ==> stack.size - stackIdx <= old(stack.size - stackIdx)
    {
      ViewAt(env, 0, now);
      var v := env(now);
      yielded' := yielded;
      ok, rows' := Refill(v, rows, yielded);
      ReadMore(env, wanted, rows, rows', now);
      if ok {
        var item := PassOne(v, yielded);
        yielded' := yielded + [item];
      }
    }

    /** The item at hand is yielded, and the iterator moves on. */
    method PassOne(v: Shared, ghost yielded: seq<Item>) returns (item: Item)
      requires InChunk() && stackIdx < stack.size && Structure(v) && slotIdx <= |v.slots|
      modifies this`slotIdx, this`stackIdx, this`keyIdx, stack, stack.data
      ensures InChunk() && slotIdx == old(slotIdx) && stackIdx == old(stackIdx) + 1 && stack.size == old(stack.size)
      ensures stack.data == old(stack.data) || fresh(stack.data)
      ensures yielded + [item] + Ahead() == yielded + old(Ahead())
    {
      var at := Current(v);
      item := at.value;
      Next();
    }

    /** valid(), in terms of what has been read so far. */
    method Refill(v: Shared, ghost rows: seq<seq<Item>>, ghost yielded: seq<Item>) returns (ok: bool,
          ghost more: seq<seq<Item>>)
      requires InChunk() && Structure(v) && |rows| == slotIdx <= |v.slots|
      requires yielded + Ahead() == Gathered(rows, |rows|)
      modifies this`slotIdx, this`stackIdx, stack, stack.data
      ensures InChunk() && (stack.data == old(stack.data) || fresh(stack.data))
      ensures |more| == slotIdx <= |v.slots| && yielded + Ahead() == Gathered(more, |more|)
      ensures Continues(rows, more, v, wanted)
      ensures ok ==> stackIdx < stack.size
      ensures !ok ==> slotIdx == |v.slots| && Ahead() == [] && stack.size == stackIdx
      ensures old(slotIdx) < slotIdx ||
        (old(slotIdx) == slotIdx && (ok ==> old(stack.size - stackIdx) == stack.size - stackIdx))
    {
      ghost var refill, ahead := stackIdx == stack.size, Ahead();
      ok := IsValid(v);
      more := ReadOn(rows, v, wanted, slotIdx);
      GatherChunk(rows, more, v, wanted, slotIdx);
      if refill {
        assert ahead == [] && yielded + ahead == yielded;
        assert Ahead() == stack.Contents();
      } else {
        assert more == rows && Ahead() == ahead;
      }
    }
  }

  /** Two calls of next() on a chunk of one item: valid() says yes, though nothing is at hand. */
  method ValidBeyondEnd(it: Iterator, v: Shared) returns (b: bool)
    requires it.Valid() && Structure(v) && it.slotIdx <= |v.slots| && it.stack.size == 1 && it.stackIdx == 0
    modifies it, it.stack, it.stack.data
    ensures it.Valid() && b && !(it.stackIdx < it.stack.size)
  {
    it.Next();
    it.Next();
    b := it.IsValid(v);
  }
}
