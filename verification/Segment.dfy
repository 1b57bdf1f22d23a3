/** One shared-memory segment: the boundary-tag allocator of immutable_cache_sma.c. */
module Segment {
  import opened Layout
  import opened Tiles
  import opened Headers
  import opened FreeList
  import opened HeaderWrites
  import opened Focus

  /** The block at list position `j` holds `need` bytes. */
  ghost predicate Serves(m: Memory, fl: seq<nat>, need: nat, j: nat) {
    j < |fl| && fl[j] in m && m[fl[j]].size >= need
  }

  /** The first block of the list, between its sentinels, that holds `need` bytes. */
  ghost predicate FirstFit(m: Memory, fl: seq<nat>, need: nat, k: nat) {
    0 < k < |fl| - 1 && Serves(m, fl, need, k) && (forall j :: 0 < j < k ==> !Serves(m, fl, need, j))
  }

  /** `o` is a smallest fitting block among position `k` and the next `window` blocks of the list. */
  ghost predicate BestOf(m: Memory, fl: seq<nat>, need: nat, k: nat, window: nat, o: nat) {
    && o in m
    && (exists x :: k <= x <= k + window && x < |fl| - 1 && Serves(m, fl, need, x) && fl[x] == o)
    && (forall j :: k <= j <= k + window && j < |fl| - 1 && Serves(m, fl, need, j) ==> m[o].size <= m[fl[j]].size)
  }

  ghost predicate BestFit(m: Memory, fl: seq<nat>, need: nat, o: nat) {
    exists k :: FirstFit(m, fl, need, k) && BestOf(m, fl, need, k, BEST_FIT_LIMIT, o)
  }

  ghost predicate NoneFits(ts: seq<Tile>, need: nat) {
    forall i :: 0 <= i < |ts| && ts[i].free ==> ts[i].size < need
  }

  /** Bytes a request occupies, header included. */
  function Need(n: nat): (r: nat)
    ensures r % WORD == 0 && n + BLOCK <= r < n + BLOCK + WORD
  {
    AlignWord(n + BLOCK)
  }

  /** Whether the block is cut, or handed out whole because the rest would be too small. */
  predicate Splits(t: Tile, need: nat, fragment: nat) {
    t.size >= need + MIN_BLOCK + fragment
  }

  /** Size of the block handed out. */
  function Handed(t: Tile, need: nat, fragment: nat): nat {
    if Splits(t, need, fragment) then need else t.size
  }

  datatype Allocation = Full | Got(offset: nat, usable: nat)

  ghost predicate StoredIn(m: Memory, ts: seq<Tile>, fl: seq<nat>, hi: nat) {
    Tagged(m, ts, hi) && Linked(m, fl) && Lists(ts, fl, hi)
  }

  lemma TakeStored(m: Memory, ts: seq<Tile>, fl: seq<nat>, lo: nat, hi: nat, i: nat, need: nat, j: nat)
    requires WellTiled(ts, lo, hi) && lo > HEADER && StoredIn(m, ts, fl, hi)
    requires i < |ts| && ts[i].free && 0 < j < |fl| - 1 && fl[j] == ts[i].off
    ensures m[fl[j]].fnext in m && m[fl[j]].fprev in m && After(ts, i + 1, hi) in m && m[fl[j]].fnext != m[fl[j]].fprev
    ensures
      var m' := TakeMem(m, fl[j], After(ts, i + 1, hi));
      StoredIn(m', AllocAt(ts, i, need, false), Without(fl, j), hi) && fl[j] in m' && m'[fl[j]].size == ts[i].size
  {
    TakeCorrect(m, ts, fl, lo, hi, i, j);
    TakeLists(ts, fl, lo, hi, i, j);
    SpliceAt(ts, i, i + 1, Taken(ts[i], 0, false), i);
    var r := AllocAt(ts, i, 0, false);
    assert r == AllocAt(ts, i, need, false);
    assert Records(TakeMem(m, fl[j], After(ts, i + 1, hi)), r[i], TagBefore(r, i));
    assert m[fl[j]].fnext == fl[j + 1] && m[fl[j]].fprev == fl[j - 1] by {
      UnlinkLinked(m, fl, j);
    }
  }

  lemma CutStored(m: Memory, ts: seq<Tile>, fl: seq<nat>, lo: nat, hi: nat, i: nat, need: nat, j: nat)
    requires WellTiled(ts, lo, hi) && lo > HEADER && StoredIn(m, ts, fl, hi)
    requires i < |ts| && ts[i].free && 0 < j < |fl| - 1 && fl[j] == ts[i].off && 0 < need < ts[i].size
    ensures m[fl[j]].fnext in m && m[fl[j]].fprev in m && After(ts, i + 1, hi) in m && need <= m[fl[j]].size
    ensures fl[j] < fl[j] + need < After(ts, i + 1, hi)
    ensures
      var m' := CutMem(m, fl[j], need, After(ts, i + 1, hi));
      StoredIn(m', AllocAt(ts, i, need, true), fl[j := fl[j] + need], hi) && fl[j] in m' && m'[fl[j]].size == need
  {
    CutLists(ts, fl, lo, hi, i, need, j);
    CutCorrect(m, ts, fl, lo, hi, i, need, j);
    SpliceAt(ts, i, i + 1, Taken(ts[i], need, true), i);
    var r := AllocAt(ts, i, need, true);
    assert Records(CutMem(m, fl[j], need, After(ts, i + 1, hi)), r[i], TagBefore(r, i));
  }

  lemma AllocAligned(ts: seq<Tile>, i: nat, need: nat, split: bool)
    requires WordAligned(ts) && i < |ts| && ts[i].free && need % WORD == 0 && (split ==> need <= ts[i].size)
    ensures WordAligned(AllocAt(ts, i, need, split))
  {
    SpliceAligned(ts, i, i + 1, Taken(ts[i], need, split));
  }

  lemma AllocTile(ts: seq<Tile>, i: nat, need: nat, split: bool)
    requires i < |ts| && (split ==> need <= ts[i].size)
    ensures
      var r := AllocAt(ts, i, need, split);
      i < |r| && r[i] == Tile(ts[i].off, if split then need else ts[i].size, false)
  {
    SpliceAt(ts, i, i + 1, Taken(ts[i], need, split), i);
  }

  lemma AllocTiles(ts: seq<Tile>, lo: nat, hi: nat, i: nat, need: nat, split: bool)
    requires WellTiled(ts, lo, hi) && WordAligned(ts) && i < |ts| && ts[i].free
    requires need % WORD == 0 && BLOCK <= need <= ts[i].size
    requires split ==> need + BLOCK <= ts[i].size
    ensures
      var r := AllocAt(ts, i, need, split);
      && WellTiled(r, lo, hi) && WordAligned(r) && i < |r|
      && FreeBytes(r) == FreeBytes(ts) - r[i].size
      && r[i] == Tile(ts[i].off, if split then need else ts[i].size, false)
  {
    AllocTile(ts, i, need, split);
    AllocAligned(ts, i, need, split);
    AllocAtBytes(ts, i, need, split);
    AllocAtWellTiled(ts, lo, hi, i, need, split);
  }

  /**
   * The row after an allocation: the block is cut exactly when the rest would be a block of the smallest size with
   * `fragment` bytes to spare, and that rest follows it, free; otherwise the whole block is handed out.
   */
  lemma CutShape(ts: seq<Tile>, i: nat, need: nat, fragment: nat, ts': seq<Tile>)
    requires i < |ts| && ts[i].free && need <= ts[i].size
    requires ts' == AllocAt(ts, i, need, Splits(ts[i], need, fragment))
    ensures |ts'| == |ts| + 1 <==> ts[i].size >= need + MIN_BLOCK + fragment
    ensures |ts'| == |ts| + 1 ==>
      && ts'[i] == Tile(ts[i].off, need, false) && ts'[i + 1] == Tile(ts[i].off + need, ts[i].size - need, true)
      && ts'[i + 1].size >= MIN_BLOCK + fragment
    ensures |ts'| != |ts| + 1 ==> |ts'| == |ts| && ts'[i] == Tile(ts[i].off, ts[i].size, false)
    ensures ts'[..i] == ts[..i] && ts'[i + 1 + (|ts'| - |ts|)..] == ts[i + 1..]
  {
  }

  /** The segment invariant: a coalesced tiling, its headers, its free list and its byte count. */
  ghost predicate Sound(m: Memory, avail: nat, ts: seq<Tile>, fl: seq<nat>, hi: nat) {
    && WellTiled(ts, FIRST_BLOCK, hi)
    && WordAligned(ts)
    && StoredIn(m, ts, fl, hi)
    && avail == FreeBytes(ts) + BLOCK
  }

  /** The same, folded. */
  ghost predicate Kept(m: Memory, avail: nat, ts: seq<Tile>, fl: seq<nat>, hi: nat) {
    forall z {:trigger LookInside(z)} :: LookInside(z) ==> Sound(m, avail, ts, fl, hi)
  }

  /** What HandOut relies on in either branch: the block's header and its neighbours in list and row. */
  ghost predicate Poised(m: Memory, cur: nat, size: nat) {
    && cur in m && m[cur].size == size && cur + m[cur].size in m
    && m[cur].fnext in m && m[cur].fprev in m && m[cur].fnext != m[cur].fprev
  }

  lemma PoisedAt(m: Memory, ts: seq<Tile>, fl: seq<nat>, lo: nat, hi: nat, i: nat, j: nat)
    requires WellTiled(ts, lo, hi) && Tagged(m, ts, hi) && Linked(m, fl)
    requires i < |ts| && 0 < j < |fl| - 1 && fl[j] == ts[i].off
    ensures Poised(m, fl[j], ts[i].size) && m[fl[j]].fnext == fl[j + 1]
    ensures fl[j] + ts[i].size == After(ts, i + 1, hi)
  {
    assert Records(m, ts[i], TagBefore(ts, i));
    assert Adjacent(j - 1, j) && Adjacent(j, j + 1);
    AfterInside(m, ts, lo, hi, i);
  }

  /** Once headers and list fit the new tiling, the whole invariant holds again. */
  lemma SoundAfter(m: Memory, avail: nat, ts: seq<Tile>, fl: seq<nat>, hi: nat, i: nat, need: nat, split: bool)
    requires WellTiled(ts, FIRST_BLOCK, hi) && WordAligned(ts) && avail == FreeBytes(ts) + BLOCK
    requires i < |ts| && ts[i].free
    requires need % WORD == 0 && BLOCK <= need <= ts[i].size && (split ==> need + BLOCK <= ts[i].size)
    requires StoredIn(m, AllocAt(ts, i, need, split), fl, hi)
    ensures
      var ts' := AllocAt(ts, i, need, split);
      && i < |ts'| && ts'[i].size == (if split then need else ts[i].size) <= avail
      && Sound(m, avail - ts'[i].size, ts', fl, hi)
  {
    FreeTileBound(ts, i);
    AllocTiles(ts, FIRST_BLOCK, hi, i, need, split);
  }

  /** The two ways sma_allocate rewrites headers, list and tiling. */
  ghost predicate HandsOut(m: Memory, m': Memory, ts: seq<Tile>, ts': seq<Tile>, fl: seq<nat>, fl': seq<nat>,
                           i: nat, need: nat, j: nat, split: bool)
    requires i < |ts| && j < |fl|
    requires Poised(m, fl[j], ts[i].size) && 0 < need <= ts[i].size && (split ==> need < ts[i].size)
  {
    var cur := fl[j];
    && ts' == AllocAt(ts, i, need, split)
    && (split ==> m' == CutMem(m, cur, need, cur + m[cur].size) && fl' == fl[j := cur + need])
    && (!split ==> m' == TakeMem(m, cur, cur + m[cur].size) && fl' == Without(fl, j))
  }

  lemma HandOutKeeps(m: Memory, m': Memory, avail: nat, avail': nat, ts: seq<Tile>, ts': seq<Tile>,
                     fl: seq<nat>, fl': seq<nat>, hi: nat, i: nat, need: nat, j: nat, split: bool)
    requires Kept(m, avail, ts, fl, hi)
    requires i < |ts| && ts[i].free && 0 < j < |fl| - 1 && fl[j] == ts[i].off && Poised(m, fl[j], ts[i].size)
    requires need % WORD == 0 && BLOCK <= need <= ts[i].size && (split ==> need + BLOCK <= ts[i].size)
    requires HandsOut(m, m', ts, ts', fl, fl', i, need, j, split)
    requires avail' == avail - (if split then need else ts[i].size)
    ensures Kept(m', avail', ts', fl', hi)
  {
    assert LookInside(0);
    PoisedAt(m, ts, fl, FIRST_BLOCK, hi, i, j);
    if split {
      CutStored(m, ts, fl, FIRST_BLOCK, hi, i, need, j);
    } else {
      TakeStored(m, ts, fl, FIRST_BLOCK, hi, i, need, j);
    }
    SoundAfter(m', avail, ts, fl', hi, i, need, split);
  }

  /** What the list and the row say about a block about to be handed out. */
  lemma HandOutReady(m: Memory, avail: nat, ts: seq<Tile>, fl: seq<nat>, hi: nat, i: nat, j: nat)
    requires Kept(m, avail, ts, fl, hi)
    requires i < |ts| && ts[i].free && 0 < j < |fl| - 1 && fl[j] == ts[i].off
    ensures Poised(m, fl[j], ts[i].size) && fl[j] + ts[i].size == After(ts, i + 1, hi) && ts[i].size <= avail
    ensures ts[i].off < ts[i].off + ts[i].size
  {
    assert LookInside(0);
    PoisedAt(m, ts, fl, FIRST_BLOCK, hi, i, j);
    FreeTileBound(ts, i);
  }

  /** What the row says about a block about to be released. */
  lemma DeallocateReady(m: Memory, avail: nat, ts: seq<Tile>, fl: seq<nat>, hi: nat, i: nat)
    requires Kept(m, avail, ts, fl, hi) && i < |ts| && !ts[i].free
    ensures ts[i].off in m && m[ts[i].off].size == ts[i].size
  {
    assert LookInside(0);
    assert Records(m, ts[i], TagBefore(ts, i));
  }

  lemma MergedReady(m: Memory, m2: Memory, avail: nat, ts: seq<Tile>, fl: seq<nat>, fl2: seq<nat>, hi: nat, i: nat)
    requires Kept(m, avail, ts, fl, hi) && i < |ts| && !ts[i].free
    requires Merging(m, m2, ts, fl, fl2, MergeLo(ts, i), MergeHi(ts, i))
    ensures
      var c := Merged(ts, i).off;
      && HEADER in m2 && c in m2 && m2[HEADER].fnext in m2 && c + m2[c].size in m2 && |fl2| > 0
  {
    assert LookInside(0);
    assert LookAtSlots(0);
    ReleaseReady(m, m2, ts, fl, fl2, FIRST_BLOCK, hi, i);
  }

  // The four steps of a release, each from the folded invariant.

  lemma BackReady(m: Memory, avail: nat, ts: seq<Tile>, fl: seq<nat>, hi: nat, i: nat)
    requires Kept(m, avail, ts, fl, hi) && i < |ts| && !ts[i].free
    ensures ts[i].off in m && m[ts[i].off].size == ts[i].size
    ensures m[ts[i].off].prevSize != 0 <==> i > 0 && ts[i - 1].free
    ensures i > 0 && ts[i - 1].free ==>
      var p := ts[i - 1].off;
      && p <= ts[i].off && m[ts[i].off].prevSize == ts[i].off - p && p in m && m[p].fnext in m && m[p].fprev in m
    ensures Merging(m, m, ts, fl, fl, i, i + 1)
  {
    assert LookInside(0);
    PrevReady(m, ts, fl, FIRST_BLOCK, hi, i);
    MergingStarts(m, ts, fl, hi, i);
    assert i > 0 ==> Adjacent(i - 1, i);
  }

  lemma BackMerged(m: Memory, m': Memory, avail: nat, ts: seq<Tile>, fl: seq<nat>, hi: nat,
        i: nat) returns (fl': seq<nat>)
    requires Kept(m, avail, ts, fl, hi) && 0 < i < |ts| && ts[i - 1].free && !ts[i].free
    requires ts[i - 1].off in m && m[ts[i - 1].off].fnext in m && m[ts[i - 1].off].fprev in m
    requires m' == Absorb(m, ts[i - 1].off, ts[i - 1].off, ts[i].size)
    ensures Merging(m, m', ts, fl, fl', i - 1, i + 1)
  {
    assert LookInside(0);
    fl' := MergePrev(m, m', ts, fl, FIRST_BLOCK, hi, i);
  }

  lemma ForwardReady(m: Memory, m1: Memory, avail: nat, ts: seq<Tile>, fl: seq<nat>, fl1: seq<nat>, hi: nat, a: nat,
        b: nat)
    requires Kept(m, avail, ts, fl, hi) && a < |ts| && a < b <= |ts| && Merging(m, m1, ts, fl, fl1, a, b)
    ensures ts[a].off in m1
    ensures
      var n := ts[a].off + m1[ts[a].off].size;
      && n in m1 && (b < |ts| ==> n == ts[b].off)
      && (m1[n].fnext != 0 <==> b < |ts| && ts[b].free)
      && (b < |ts| ==> m1[n].size == ts[b].size)
      && (m1[n].fnext != 0 ==> m1[n].fnext in m1 && m1[n].fprev in m1)
  {
    assert LookInside(0);
    NextReady(m, m1, ts, fl, fl1, FIRST_BLOCK, hi, a, b);
  }

  lemma ForwardMerged(m: Memory, m1: Memory, m': Memory, avail: nat, ts: seq<Tile>, fl: seq<nat>, fl1: seq<nat>,
        hi: nat, a: nat, b: nat)
    returns (fl': seq<nat>)
    requires Kept(m, avail, ts, fl, hi) && a < b < |ts| && ts[b].free && Merging(m, m1, ts, fl, fl1, a, b)
    requires ts[b].off in m1 && m1[ts[b].off].fnext in m1 && m1[ts[b].off].fprev in m1 && ts[a].off in m1
    requires m' == Absorb(m1, ts[b].off, ts[a].off, ts[b].size)
    ensures Merging(m, m', ts, fl, fl', a, b + 1)
  {
    assert LookInside(0);
    fl' := MergeNext(m, m1, m', ts, fl, fl1, FIRST_BLOCK, hi, a, b);
  }

  lemma DeallocateKeeps(m: Memory, m2: Memory, m': Memory, avail: nat, avail': nat, ts: seq<Tile>, ts': seq<Tile>,
                        fl: seq<nat>, fl2: seq<nat>, fl': seq<nat>, hi: nat, i: nat)
    requires Kept(m, avail, ts, fl, hi)
    requires i < |ts| && !ts[i].free
    requires Merging(m, m2, ts, fl, fl2, MergeLo(ts, i), MergeHi(ts, i))
    requires
      var c := Merged(ts, i).off;
      && HEADER in m2 && c in m2 && m2[HEADER].fnext in m2 && c + m2[c].size in m2 && |fl2| > 0
      && m' == ReleaseMem(m2, c, c + m2[c].size) && fl' == Pushed(fl2, c)
    requires ts' == FreeAt(ts, i) && avail' == avail + ts[i].size
    ensures Kept(m', avail', ts', fl', hi)
  {
    assert LookInside(0);
    ReleaseCorrect(m, m2, m', ts, fl, fl2, FIRST_BLOCK, hi, i);
    FreeAtWellTiled(ts, FIRST_BLOCK, hi, i);
    FreeAtBytes(ts, i);
    SpliceAligned(ts, MergeLo(ts, i), MergeHi(ts, i), [Merged(ts, i)]);
  }

  class Segment {
    const size: nat
    var blocks: Memory
    var avail: nat
    ghost var tiles: seq<Tile>
    ghost var list: seq<nat>

    /** Offset of the zero-size sentinel that closes the segment. */
    ghost function End(): nat
    {
      if size >= HEADER + 4 * BLOCK then size - 2 * BLOCK else 0
    }

    ghost predicate Valid()
      reads this
    {
      && size >= HEADER + 4 * BLOCK
      && Kept(blocks, avail, tiles, list, End())
    }

    lemma RowTiled()
      requires Valid()
      ensures WellTiled(tiles, FIRST_BLOCK, End()) && avail == FreeBytes(tiles) + BLOCK
    {
      assert LookInside(0);
    }

    /** The layout written by immutable_cache_sma_init: sentinel, one empty block, sentinel. */
    constructor (segsize: nat)
      requires segsize >= HEADER + 4 * BLOCK
      ensures Valid() && size == segsize
      ensures avail == segsize - HEADER - 2 * BLOCK
      ensures tiles == [Tile(FIRST_BLOCK, segsize - HEADER - 3 * BLOCK, true)]
    {
      size := segsize;
      avail := segsize - HEADER - BLOCK - BLOCK;
      var empty := HEADER + BLOCK;
      var emptySize := segsize - HEADER - BLOCK - BLOCK - BLOCK;
      var last := empty + emptySize;
      blocks := map[
        HEADER := Block(0, 0, empty, 0),
        empty := Block(emptySize, 0, last, HEADER),
        last := Block(0, emptySize, 0, empty)];
      tiles := [Tile(empty, emptySize, true)];
      list := [HEADER, empty, last];
      new;
      BytesOfOne(tiles[0]);
      assert IsFree(tiles, tiles[0].off);
    }

    /** find_block: first fit, then a smaller fit among the next few blocks of the list; 0 when none fits. */
    method FindBlock(need: nat) returns (found: nat, ghost k: nat)
      requires Linked(blocks, list) && list[0] == HEADER && blocks[list[|list| - 1]].size == 0 && need > 0
      ensures found == 0 ==> forall j :: 0 < j < |list| - 1 ==> !Serves(blocks, list, need, j)
      ensures found != 0 ==> found in blocks && FirstFit(blocks, list, need, k)
      ensures found != 0 ==> BestOf(blocks, list, need, k, BEST_FIT_LIMIT, found)
    {
      var prv, cur := HEADER, HEADER;
      found := 0;
      k := 0;
      while blocks[prv].fnext != 0
        invariant k < |list| && prv == list[k] && found == 0
        invariant forall j :: 0 < j <= k ==> !Serves(blocks, list, need, j)
        decreases |list| - k
      {
        assert Adjacent(k, k + 1);
        cur := blocks[prv].fnext;
        k := k + 1;
        if blocks[cur].size >= need {
          found := cur;
          break;
        }
        prv := cur;
      }
      if found != 0 {
        prv := cur;
        var i := 0;
        assert BestOf(blocks, list, need, k, 0, found);
        while i < BEST_FIT_LIMIT && blocks[prv].fnext != 0
          invariant i <= BEST_FIT_LIMIT && k + i < |list| && prv == list[k + i]
          invariant FirstFit(blocks, list, need, k)
          invariant found != 0 && found in blocks && BestOf(blocks, list, need, k, i, found)
        {
          assert Adjacent(k + i, k + i + 1);
          cur := blocks[prv].fnext;
          if blocks[cur].size >= need && blocks[cur].size < blocks[found].size {
            found := cur;
          }
          prv := cur;
          i := i + 1;
        }
        OnlyLastEnds(blocks, list);
      } else {
        OnlyLastEnds(blocks, list);
      }
    }

    /** The stores of sma_allocate that unlink the whole block. */
    method TakeWhole(cur: nat, next: nat)
      requires cur in blocks && next in blocks && blocks[cur].fnext in blocks && blocks[cur].fprev in blocks
      requires blocks[cur].fnext != blocks[cur].fprev
      modifies `blocks
      ensures blocks == TakeMem(old(blocks), cur, next)
      ensures cur in blocks && blocks[cur].size == old(blocks)[cur].size
    {
      var prv, nxt := blocks[cur].fprev, blocks[cur].fnext;
      blocks := blocks[prv := blocks[prv].(fnext := nxt)];
      blocks := blocks[nxt := blocks[nxt].(fprev := prv)];
      blocks := blocks[next := blocks[next].(prevSize := 0)];
      blocks := blocks[cur := blocks[cur].(fnext := 0)];
    }

    /** The stores of sma_allocate that cut the block in two. */
    method Cut(cur: nat, need: nat, next: nat)
      requires cur in blocks && next in blocks && blocks[cur].fnext in blocks && blocks[cur].fprev in blocks
      requires 0 < need <= blocks[cur].size && cur + need < next
      modifies `blocks
      ensures blocks == CutMem(old(blocks), cur, need, next)
      ensures cur in blocks && blocks[cur].size == need
    {
      var oldSize, nxt := blocks[cur].size, cur + need;
      var n, p := blocks[cur].fnext, blocks[cur].fprev;
      blocks := blocks[cur := blocks[cur].(size := need)];
      blocks := blocks[nxt := Block(oldSize - need, 0, 0, 0)];
      blocks := blocks[next := blocks[next].(prevSize := oldSize - need)];
      blocks := blocks[nxt := blocks[nxt].(fnext := n, fprev := p)];
      blocks := blocks[n := blocks[n].(fprev := nxt)];
      blocks := blocks[p := blocks[p].(fnext := nxt)];
      blocks := blocks[cur := blocks[cur].(fnext := 0)];
    }

    /** Takes block `cur` off the free list, cutting it when the rest is worth keeping. */
    method HandOut(cur: nat, need: nat, fragment: nat, ghost at: nat, ghost j: nat) returns (usable: nat)
      requires Valid()
      requires at < |tiles| && tiles[at].free && tiles[at].off == cur && 0 < j < |list| - 1 && list[j] == cur
      requires need % WORD == 0 && BLOCK <= need <= tiles[at].size
      modifies this
      ensures Valid()
      ensures tiles == AllocAt(old(tiles), at, need, Splits(old(tiles)[at], need, fragment))
      ensures usable == Handed(old(tiles)[at], need, fragment) - BLOCK
      ensures need - BLOCK <= usable < need - BLOCK + MIN_BLOCK + fragment
      ensures avail == old(avail) - (usable + BLOCK)
      ensures |tiles| == |old(tiles)| + 1 <==> old(tiles)[at].size >= need + MIN_BLOCK + fragment
      ensures |tiles| == |old(tiles)| + 1 ==>
        usable + BLOCK == need && tiles[at + 1].free && tiles[at + 1].size >= MIN_BLOCK + fragment
      ensures |tiles| != |old(tiles)| + 1 ==> |tiles| == |old(tiles)| && usable + BLOCK == old(tiles)[at].size
    {
      ghost var m, ts, fl := blocks, tiles, list;
      ghost var split := Splits(ts[at], need, fragment);
      HandOutReady(m, avail, ts, fl, End(), at, j);
      if blocks[cur].size == need || (blocks[cur].size > need && blocks[cur].size < need + (MIN_BLOCK + fragment)) {
        usable := blocks[cur].size - BLOCK;
        TakeWhole(cur, cur + blocks[cur].size);
        list := Without(list, j);
      } else {
        usable := need - BLOCK;
        Cut(cur, need, cur + blocks[cur].size);
        list := list[j := cur + need];
      }
      avail := avail - blocks[cur].size;
      tiles := AllocAt(tiles, at, need, split);
      HandOutKeeps(m, blocks, old(avail), avail, ts, tiles, fl, list, End(), at, need, j, split);
      CutShape(ts, at, need, fragment, tiles);
    }

    /** sma_allocate: hands out a block for `n` bytes, or nothing when no free block fits. */
    method Allocate(n: nat, fragment: nat) returns (r: Allocation, ghost at: nat)
      requires Valid()
      requires n + BLOCK + WORD <= SIZE_LIMIT
      modifies this
      ensures Valid()
      ensures r.Full? <==> NoneFits(old(tiles), Need(n))
      ensures r.Full? ==> blocks == old(blocks) && avail == old(avail) && tiles == old(tiles) && list == old(list)
      ensures r.Got? ==> at < |old(tiles)| && old(tiles)[at].free && Need(n) <= old(tiles)[at].size
      ensures r.Got? ==> BestFit(old(blocks), old(list), Need(n), old(tiles)[at].off)
      ensures r.Got? ==> tiles == AllocAt(old(tiles), at, Need(n), Splits(old(tiles)[at], Need(n), fragment))
      ensures r.Got? ==> r.offset == old(tiles)[at].off + BLOCK
      ensures r.Got? ==> r.usable == Handed(old(tiles)[at], Need(n), fragment) - BLOCK
      ensures r.Got? ==> avail == old(avail) - (r.usable + BLOCK)
      ensures r.Got? ==> n <= r.usable < n + (WORD - 1) + MIN_BLOCK + fragment
      ensures r.Got? ==> (|tiles| == |old(tiles)| + 1 <==> old(tiles)[at].size >= Need(n) + MIN_BLOCK + fragment)
      ensures r.Got? && |tiles| == |old(tiles)| + 1 ==>
        r.usable + BLOCK == Need(n) && tiles[at + 1].free && tiles[at + 1].size >= MIN_BLOCK + fragment
      ensures r.Got? && |tiles| != |old(tiles)| + 1 ==>
        |tiles| == |old(tiles)| && r.usable + BLOCK == old(tiles)[at].size
      ensures r.Got? ==> FIRST_BLOCK + BLOCK <= r.offset && r.offset % WORD == 0 && r.offset + r.usable <= End()
    {
      var need := AlignWord(n + BLOCK);
      if avail < need {
        NoFitWithoutBytes(need);
        return Full, 0;
      }
      var cur;
      ghost var j;
      cur, at, j := Choose(need);
      if cur == 0 {
        return Full, 0;
      }
      InsideAt(at);
      var usable := HandOut(cur, need, fragment, at, j);
      r := Got(cur + BLOCK, usable);
    }

    /** The block to hand out, as a tile and as a list position, or 0. */
    method Choose(need: nat) returns (cur: nat, ghost at: nat, ghost j: nat)
      requires Valid() && need > 0
      ensures cur == 0 <==> NoneFits(tiles, need)
      ensures cur != 0 ==> at < |tiles| && tiles[at].free && tiles[at].off == cur && need <= tiles[at].size
      ensures cur != 0 ==> 0 < j < |list| - 1 && list[j] == cur && BestFit(blocks, list, need, cur)
    {
      ghost var k;
      ListReady();
      cur, k := FindBlock(need);
      at, j := 0, 0;
      if cur == 0 {
        NothingListed(need);
      } else {
        at, j := Located(need, k, cur);
        InsideAt(at);
      }
    }

    lemma ListReady()
      requires Valid()
      ensures Linked(blocks, list) && list[0] == HEADER
      ensures list[|list| - 1] in blocks && blocks[list[|list| - 1]].size == 0
    {
      assert LookInside(0);
    }

    /** Blocks are aligned, lie between the sentinels, and are never at offset 0. */
    lemma InsideAt(at: nat)
      requires Valid() && at < |tiles|
      ensures FIRST_BLOCK <= tiles[at].off && tiles[at].off % WORD == 0 && tiles[at].off + tiles[at].size <= End()
    {
      assert LookInside(0);
      TileInside(tiles, FIRST_BLOCK, End(), at);
    }

    /** The two stores that take block `o` out of the free list. */
    method UnlinkBlock(o: nat)
      requires o in blocks && blocks[o].fnext in blocks && blocks[o].fprev in blocks
      modifies `blocks
      ensures blocks == Unlink(old(blocks), o) && blocks.Keys == old(blocks).Keys
      ensures forall p :: p in blocks ==> blocks[p].size == old(blocks)[p].size
    {
      var n, p := blocks[o].fnext, blocks[o].fprev;
      blocks := blocks[n := blocks[n].(fprev := p)];
      blocks := blocks[p := blocks[p].(fnext := n)];
    }

    /** Merges the block being released into the one before it, if that one is free. */
    method MergeBack(cur: nat, ghost at: nat) returns (start: nat, ghost fl: seq<nat>)
      requires Kept(blocks, avail, tiles, list, End())
      requires at < |tiles| && !tiles[at].free && cur == tiles[at].off
      modifies `blocks
      ensures Merging(old(blocks), blocks, tiles, list, fl, MergeLo(tiles, at), at + 1)
      ensures start == tiles[MergeLo(tiles, at)].off
    {
      ghost var m := blocks;
      BackReady(m, avail, tiles, list, End(), at);
      start, fl := cur, list;
      if blocks[cur].prevSize != 0 {
        var prv := cur - blocks[cur].prevSize;
        UnlinkBlock(prv);
        blocks := blocks[prv := blocks[prv].(size := blocks[prv].size + blocks[cur].size)];
        start := prv;
        fl := BackMerged(m, blocks, avail, tiles, list, End(), at);
      }
    }

    /** Merges the block after the one being released into it, if that one is free. */
    method MergeForward(start: nat, ghost m: Memory, ghost fl1: seq<nat>, ghost at: nat) returns (ghost fl: seq<nat>)
      requires Kept(m, avail, tiles, list, End())
      requires at < |tiles| && !tiles[at].free && start == tiles[MergeLo(tiles, at)].off
      requires Merging(m, blocks, tiles, list, fl1, MergeLo(tiles, at), at + 1)
      modifies `blocks
      ensures Merging(m, blocks, tiles, list, fl, MergeLo(tiles, at), MergeHi(tiles, at))
    {
      ghost var m1, a := blocks, MergeLo(tiles, at);
      ForwardReady(m, m1, avail, tiles, list, fl1, End(), a, at + 1);
      fl := fl1;
      var nxt := start + blocks[start].size;
      if blocks[nxt].fnext != 0 {
        UnlinkBlock(nxt);
        blocks := blocks[start := blocks[start].(size := blocks[start].size + blocks[nxt].size)];
        fl := ForwardMerged(m, m1, blocks, avail, tiles, list, fl1, End(), a, at + 1);
      }
    }

    /** Sets the tag behind the merged block and puts the block at the front of the free list. */
    method Release(start: nat)
      requires HEADER in blocks && start in blocks && blocks[HEADER].fnext in blocks
      requires start + blocks[start].size in blocks
      modifies `blocks
      ensures blocks == ReleaseMem(old(blocks), start, start + old(blocks)[start].size)
    {
      var next := start + blocks[start].size;
      blocks := blocks[next := blocks[next].(prevSize := blocks[start].size)];
      blocks := blocks[start := blocks[start].(fnext := blocks[HEADER].fnext)];
      var n := blocks[start].fnext;
      blocks := blocks[HEADER := blocks[HEADER].(fnext := start)];
      blocks := blocks[start := blocks[start].(fprev := HEADER)];
      blocks := blocks[n := blocks[n].(fprev := start)];
    }

    /** sma_deallocate: takes a block back and merges it with its free neighbours. */
    method Deallocate(offset: nat, ghost at: nat) returns (freed: nat)
      requires Valid()
      requires at < |tiles| && !tiles[at].free && offset == tiles[at].off + BLOCK
      modifies this
      ensures Valid()
      ensures tiles == FreeAt(old(tiles), at)
      ensures freed == old(tiles)[at].size && avail == old(avail) + freed
    {
      ghost var m, ts, fl := blocks, tiles, list;
      var cur := offset - BLOCK;
      DeallocateReady(m, avail, ts, fl, End(), at);
      freed := blocks[cur].size;
      ghost var fl2;
      cur, fl2 := MergeBack(cur, at);
      fl2 := MergeForward(cur, m, fl2, at);
      ghost var m2 := blocks;
      MergedReady(m, m2, avail, ts, fl, fl2, End(), at);
      Release(cur);
      avail := avail + freed;
      tiles, list := FreeAt(tiles, at), Pushed(fl2, cur);
      DeallocateKeeps(m, m2, blocks, old(avail), avail, ts, tiles, fl, fl2, list, End(), at);
    }

    /** The walk of immutable_cache_sma_info over one segment: offset and size of each free block. */
    method FreeBlocks() returns (links: seq<(nat, nat)>)
      requires Valid()
      ensures forall o: nat, n: nat :: (o, n) in links <==> Tile(o, n, true) in tiles
      ensures forall x, y :: 0 <= x < y < |links| ==> links[x].0 != links[y].0
    {
      assert LookInside(0);
      links := [];
      var prv := HEADER;
      ghost var k := 0;
      EndListed();
      while blocks[blocks[prv].fnext].fnext != 0
        invariant k < |list| - 1 && prv == list[k] && blocks[prv].fnext == list[k + 1] && |links| == k
        invariant forall j :: 0 <= j < k ==> links[j] == (list[j + 1], blocks[list[j + 1]].size)
        decreases |list| - k
      {
        var cur := blocks[prv].fnext;
        links := links + [(cur, blocks[cur].size)];
        assert Adjacent(k + 1, k + 2);
        prv := cur;
        k := k + 1;
      }
      OnlyLastEnds(blocks, list);
      WalkedAll(links);
    }

    lemma EndListed()
      requires Sound(blocks, avail, tiles, list, End())
      ensures blocks[list[0]].fnext == list[1] && list[0] == HEADER && list[|list| - 1] == End()
      ensures blocks[End()].fnext == 0 && blocks[End()].size == 0
    {
      assert Adjacent(0, 1);
    }

    lemma WalkedAll(links: seq<(nat, nat)>)
      requires Sound(blocks, avail, tiles, list, End()) && |links| == |list| - 2
      requires forall j :: 0 <= j < |links| ==> links[j] == (list[j + 1], blocks[list[j + 1]].size)
      ensures forall o: nat, n: nat :: (o, n) in links <==> Tile(o, n, true) in tiles
    {
      assert LookInside(0);
      forall o: nat, n: nat ensures (o, n) in links <==> Tile(o, n, true) in tiles {
        if (o, n) in links {
          var j :| 0 <= j < |links| && links[j] == (o, n);
          var i := FindTile(tiles, list, End(), j + 1);
          assert Records(blocks, tiles[i], TagBefore(tiles, i));
        }
        if Tile(o, n, true) in tiles {
          var i :| 0 <= i < |tiles| && tiles[i] == Tile(o, n, true);
          var j := FindInList(tiles, list, FIRST_BLOCK, End(), i);
          assert Records(blocks, tiles[i], TagBefore(tiles, i));
          assert links[j - 1] == (o, n);
        }
      }
    }

    /** The test on `avail` never turns away a request that some block could serve. */
    lemma NoFitWithoutBytes(need: nat)
      requires Valid() && avail < need
      ensures NoneFits(tiles, need)
    {
      assert LookInside(0);
      forall i | 0 <= i < |tiles| && tiles[i].free ensures tiles[i].size < need {
        FreeTileBound(tiles, i);
      }
    }

    /** The chosen block as a tile and as a list position. */
    lemma Located(need: nat, k: nat, found: nat) returns (at: nat, j: nat)
      requires Valid() && need > 0 && FirstFit(blocks, list, need, k)
      requires found in blocks && BestOf(blocks, list, need, k, BEST_FIT_LIMIT, found)
      ensures at < |tiles| && tiles[at].free && tiles[at].off == found && tiles[at].size >= need
      ensures blocks[found].size == tiles[at].size
      ensures 0 < j < |list| - 1 && list[j] == found
    {
      assert LookInside(0);
      j :| k <= j <= k + BEST_FIT_LIMIT && j < |list| - 1 && list[j] == found && Serves(blocks, list, need, j);
      at := FindTile(tiles, list, End(), j);
      assert Records(blocks, tiles[at], TagBefore(tiles, at));
    }

    lemma NothingListed(need: nat)
      requires Valid() && need > 0
      requires forall j :: 0 < j < |list| - 1 ==> !Serves(blocks, list, need, j)
      ensures NoneFits(tiles, need)
    {
      assert LookInside(0);
      forall i | 0 <= i < |tiles| && tiles[i].free ensures tiles[i].size < need {
        var j := FindInList(tiles, list, FIRST_BLOCK, End(), i);
        assert Records(blocks, tiles[i], TagBefore(tiles, i));
        assert !Serves(blocks, list, need, j);
      }
    }
  }
}
