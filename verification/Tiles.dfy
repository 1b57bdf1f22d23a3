/** The address-ordered view of a segment: a row of adjacent blocks, each allocated or free. */
module Tiles {
  import opened Layout

  datatype Tile = Tile(off: nat, size: nat, free: bool)

  /** Position `j` follows `i`; named so that facts about neighbours are used only where they are asked for. */
  predicate Adjacent(i: nat, j: nat) {
    j == i + 1
  }

  /** The blocks cover [lo, hi) without gap or overlap. */
  ghost predicate Covers(ts: seq<Tile>, lo: nat, hi: nat) {
    && |ts| > 0
    && ts[0].off == lo
    && ts[|ts| - 1].off + ts[|ts| - 1].size == hi
    && (forall i: nat, j: nat {:trigger Adjacent(i, j)} ::
      j < |ts| && Adjacent(i, j) ==> ts[i].off + ts[i].size == ts[j].off)
  }

  /** Every block can hold its own header. */
  ghost predicate BigEnough(ts: seq<Tile>) {
    forall i :: 0 <= i < |ts| ==> ts[i].size >= BLOCK
  }

  /** No two neighbours are both free. */
  ghost predicate Coalesced(ts: seq<Tile>) {
    forall i: nat, j: nat {:trigger Adjacent(i, j)} :: j < |ts| && Adjacent(i, j) ==> !(ts[i].free && ts[j].free)
  }

  ghost predicate Ordered(ts: seq<Tile>) {
    forall i, j :: 0 <= i < j < |ts| ==> ts[i].off + ts[i].size <= ts[j].off
  }

  /** The segment invariant on the tiling. */
  ghost predicate WellTiled(ts: seq<Tile>, lo: nat, hi: nat) {
    Covers(ts, lo, hi) && BigEnough(ts) && Coalesced(ts) && Ordered(ts)
  }

  lemma {:induction false} OrderedAt(ts: seq<Tile>, lo: nat, hi: nat, i: nat, j: nat)
    requires Covers(ts, lo, hi)
    requires i < j < |ts|
    ensures ts[i].off + ts[i].size <= ts[j].off
    decreases j
  {
    if i + 1 < j {
      OrderedAt(ts, lo, hi, i, j - 1);
    }
    assert Adjacent(j - 1, j);
  }

  lemma CoversIsOrdered(ts: seq<Tile>, lo: nat, hi: nat)
    requires Covers(ts, lo, hi)
    ensures Ordered(ts)
  {
    forall i, j | 0 <= i < j < |ts| ensures ts[i].off + ts[i].size <= ts[j].off {
      OrderedAt(ts, lo, hi, i, j);
    }
  }

  // ---- replacing a run of tiles ----

  /** Tiles a..b give way to `mid`. */
  function Splice(ts: seq<Tile>, a: nat, b: nat, mid: seq<Tile>): (r: seq<Tile>)
    requires a <= b <= |ts|
    ensures |r| == |ts| - (b - a) + |mid|
  {
    ts[..a] + mid + ts[b..]
  }

  lemma SpliceAt(ts: seq<Tile>, a: nat, b: nat, mid: seq<Tile>, k: nat)
    requires a <= b <= |ts|
    requires k < |ts| - (b - a) + |mid|
    ensures Splice(ts, a, b, mid)[k] ==
      if k < a then ts[k] else if k < a + |mid| then mid[k - a] else ts[k - |mid| - a + b]
  {
  }

  ghost predicate Fits(ts: seq<Tile>, a: nat, b: nat, mid: seq<Tile>)
    requires a < b <= |ts|
  {
    Covers(mid, ts[a].off, ts[b - 1].off + ts[b - 1].size)
  }

  lemma SpliceCovers(ts: seq<Tile>, lo: nat, hi: nat, a: nat, b: nat, mid: seq<Tile>)
    requires Covers(ts, lo, hi) && a < b <= |ts| && Fits(ts, a, b, mid)
    ensures Covers(Splice(ts, a, b, mid), lo, hi)
  {
    var r := Splice(ts, a, b, mid);
    SpliceAt(ts, a, b, mid, 0);
    SpliceAt(ts, a, b, mid, |r| - 1);
    forall i: nat, j: nat | j < |r| && Adjacent(i, j) ensures r[i].off + r[i].size == r[j].off {
      assert i < a - 1 || i >= a + |mid| ==>
        Adjacent(if i < a then i else i - |mid| - a + b, if i < a then j else j - |mid| - a + b);
      assert i == a - 1 ==> Adjacent(i, a);
      assert a <= i < a + |mid| - 1 ==> Adjacent(i - a, j - a);
      assert b < |ts| ==> Adjacent(b - 1, b);
      SpliceAt(ts, a, b, mid, i);
      SpliceAt(ts, a, b, mid, j);
    }
  }

  /** The new run does not bring two free tiles together. */
  ghost predicate Parted(ts: seq<Tile>, a: nat, b: nat, mid: seq<Tile>)
    requires a < b <= |ts|
  {
    && |mid| > 0
    && Coalesced(mid)
    && (a > 0 ==> !(ts[a - 1].free && mid[0].free))
    && (b < |ts| ==> !(mid[|mid| - 1].free && ts[b].free))
  }

  lemma SpliceCoalesced(ts: seq<Tile>, a: nat, b: nat, mid: seq<Tile>)
    requires Coalesced(ts) && a < b <= |ts| && Parted(ts, a, b, mid)
    ensures Coalesced(Splice(ts, a, b, mid))
  {
    var r := Splice(ts, a, b, mid);
    forall i: nat, j: nat | j < |r| && Adjacent(i, j) ensures !(r[i].free && r[j].free) {
      assert i < a - 1 || i >= a + |mid| ==>
        Adjacent(if i < a then i else i - |mid| - a + b, if i < a then j else j - |mid| - a + b);
      assert a <= i < a + |mid| - 1 ==> Adjacent(i - a, j - a);
      SpliceAt(ts, a, b, mid, i);
      SpliceAt(ts, a, b, mid, j);
    }
  }

  lemma SpliceWellTiled(ts: seq<Tile>, lo: nat, hi: nat, a: nat, b: nat, mid: seq<Tile>)
    requires WellTiled(ts, lo, hi) && a < b <= |ts|
    requires Fits(ts, a, b, mid) && BigEnough(mid) && Parted(ts, a, b, mid)
    ensures WellTiled(Splice(ts, a, b, mid), lo, hi)
  {
    var r := Splice(ts, a, b, mid);
    SpliceCovers(ts, lo, hi, a, b, mid);
    SpliceCoalesced(ts, a, b, mid);
    CoversIsOrdered(r, lo, hi);
    forall k | 0 <= k < |r| ensures r[k].size >= BLOCK {
      SpliceAt(ts, a, b, mid, k);
    }
  }

  // ---- allocation ----

  /** What takes the place of free tile `t`: the whole of it, or `need` bytes and a free rest. */
  function Taken(t: Tile, need: nat, split: bool): seq<Tile>
    requires split ==> need <= t.size
  {
    if split then [Tile(t.off, need, false), Tile(t.off + need, t.size - need, true)]
    else [t.(free := false)]
  }

  function AllocAt(ts: seq<Tile>, i: nat, need: nat, split: bool): seq<Tile>
    requires i < |ts|
    requires split ==> need <= ts[i].size
  {
    Splice(ts, i, i + 1, Taken(ts[i], need, split))
  }

  lemma AllocAtWellTiled(ts: seq<Tile>, lo: nat, hi: nat, i: nat, need: nat, split: bool)
    requires WellTiled(ts, lo, hi)
    requires i < |ts| && ts[i].free
    requires split ==> BLOCK <= need && need + BLOCK <= ts[i].size
    ensures WellTiled(AllocAt(ts, i, need, split), lo, hi)
  {
    assert i > 0 ==> Adjacent(i - 1, i);
    assert i + 1 < |ts| ==> Adjacent(i, i + 1);
    SpliceWellTiled(ts, lo, hi, i, i + 1, Taken(ts[i], need, split));
  }

  // ---- deallocation ----

  /** First and one-past-last tile merged when tile `i` is released. */
  function MergeLo(ts: seq<Tile>, i: nat): nat
    requires i < |ts|
  {
    if i > 0 && ts[i - 1].free then i - 1 else i
  }

  function MergeHi(ts: seq<Tile>, i: nat): nat
    requires i < |ts|
  {
    if i + 1 < |ts| && ts[i + 1].free then i + 2 else i + 1
  }

  function Merged(ts: seq<Tile>, i: nat): Tile
    requires i < |ts|
  {
    var before := if MergeLo(ts, i) < i then ts[i - 1].size else 0;
    var after := if MergeHi(ts, i) == i + 2 then ts[i + 1].size else 0;
    Tile(ts[MergeLo(ts, i)].off, before + ts[i].size + after, true)
  }

  /** Tile `i` becomes free and absorbs the free tiles on both sides. */
  function FreeAt(ts: seq<Tile>, i: nat): seq<Tile>
    requires i < |ts|
  {
    Splice(ts, MergeLo(ts, i), MergeHi(ts, i), [Merged(ts, i)])
  }

  lemma FreeAtWellTiled(ts: seq<Tile>, lo: nat, hi: nat, i: nat)
    requires WellTiled(ts, lo, hi)
    requires i < |ts| && !ts[i].free
    ensures WellTiled(FreeAt(ts, i), lo, hi)
  {
    var a, b := MergeLo(ts, i), MergeHi(ts, i);
    assert a < i ==> Adjacent(a, i);
    assert b == i + 2 ==> Adjacent(i, i + 1);
    assert a > 0 ==> Adjacent(a - 1, a);
    assert b < |ts| ==> Adjacent(b - 1, b);
    SpliceWellTiled(ts, lo, hi, a, b, [Merged(ts, i)]);
  }

  /** Replacing a tile and putting it back changes nothing. */
  lemma SpliceBack(ts: seq<Tile>, i: nat, mid: seq<Tile>)
    requires i < |ts|
    ensures Splice(Splice(ts, i, i + 1, mid), i, i + |mid|, [ts[i]]) == ts
  {
    var r := Splice(ts, i, i + 1, mid);
    assert r[..i] == ts[..i];
    assert r[i + |mid|..] == ts[i + 1..];
    assert ts == ts[..i] + [ts[i]] + ts[i + 1..];
  }

  /** What is merged when a block just taken is released: the block and its rest, and nothing else. */
  lemma MergesTaken(ts: seq<Tile>, i: nat, need: nat, split: bool)
    requires Coalesced(ts) && i < |ts| && ts[i].free && (split ==> need <= ts[i].size)
    ensures
      var r := AllocAt(ts, i, need, split);
      MergeLo(r, i) == i && MergeHi(r, i) == i + |Taken(ts[i], need, split)| && Merged(r, i) == ts[i]
  {
    var mid := Taken(ts[i], need, split);
    var r := Splice(ts, i, i + 1, mid);
    SpliceAt(ts, i, i + 1, mid, i);
    if i > 0 {
      SpliceAt(ts, i, i + 1, mid, i - 1);
      assert Adjacent(i - 1, i);
    }
    if i + 1 < |r| {
      SpliceAt(ts, i, i + 1, mid, i + 1);
      assert Adjacent(i, i + 1);
    }
  }

  /** Handing a block out and taking it straight back restores the tiling, cut or not. */
  lemma FreeUndoesAlloc(ts: seq<Tile>, lo: nat, hi: nat, i: nat, need: nat, split: bool)
    requires WellTiled(ts, lo, hi)
    requires i < |ts| && ts[i].free
    requires split ==> need <= ts[i].size
    ensures FreeAt(AllocAt(ts, i, need, split), i) == ts
  {
    MergesTaken(ts, i, need, split);
    SpliceBack(ts, i, Taken(ts[i], need, split));
  }

  // ---- byte accounting ----

  function FreeBytes(ts: seq<Tile>): nat {
    if ts == [] then 0 else FreeBytes(ts[1..]) + (if ts[0].free then ts[0].size else 0)
  }

  function UsedBytes(ts: seq<Tile>): nat {
    if ts == [] then 0 else UsedBytes(ts[1..]) + (if ts[0].free then 0 else ts[0].size)
  }

  lemma {:induction false} BytesConcat(a: seq<Tile>, b: seq<Tile>)
    ensures FreeBytes(a + b) == FreeBytes(a) + FreeBytes(b)
    ensures UsedBytes(a + b) == UsedBytes(a) + UsedBytes(b)
  {
    if a == [] {
      assert a + b == b;
    } else {
      BytesConcat(a[1..], b);
      assert (a + b)[1..] == a[1..] + b;
    }
  }

  /** Splicing changes the totals by the difference of the two runs. */
  lemma SpliceBytes(ts: seq<Tile>, a: nat, b: nat, mid: seq<Tile>)
    requires a <= b <= |ts|
    ensures FreeBytes(Splice(ts, a, b, mid)) == FreeBytes(ts) - FreeBytes(ts[a..b]) + FreeBytes(mid)
    ensures UsedBytes(Splice(ts, a, b, mid)) == UsedBytes(ts) - UsedBytes(ts[a..b]) + UsedBytes(mid)
  {
    assert ts == ts[..a] + ts[a..b] + ts[b..];
    BytesConcat(ts[..a] + ts[a..b], ts[b..]);
    BytesConcat(ts[..a], ts[a..b]);
    BytesConcat(ts[..a] + mid, ts[b..]);
    BytesConcat(ts[..a], mid);
  }

  lemma BytesOfOne(t: Tile)
    ensures FreeBytes([t]) == (if t.free then t.size else 0)
    ensures UsedBytes([t]) == (if t.free then 0 else t.size)
  {
  }

  lemma BytesOfMore(ts: seq<Tile>, t: Tile)
    ensures FreeBytes(ts + [t]) == FreeBytes(ts) + (if t.free then t.size else 0)
    ensures UsedBytes(ts + [t]) == UsedBytes(ts) + (if t.free then 0 else t.size)
  {
    BytesConcat(ts, [t]);
    BytesOfOne(t);
  }

  /** A free tile never holds more than the free total. */
  lemma FreeTileBound(ts: seq<Tile>, i: nat)
    requires i < |ts| && ts[i].free
    ensures ts[i].size <= FreeBytes(ts)
  {
    SpliceBytes(ts, i, i + 1, []);
    assert ts[i..i + 1] == [ts[i]];
    BytesOfOne(ts[i]);
  }

  lemma AllocAtBytes(ts: seq<Tile>, i: nat, need: nat, split: bool)
    requires i < |ts| && ts[i].free
    requires split ==> need <= ts[i].size
    ensures
      var taken := if split then need else ts[i].size;
      && FreeBytes(AllocAt(ts, i, need, split)) == FreeBytes(ts) - taken
      && UsedBytes(AllocAt(ts, i, need, split)) == UsedBytes(ts) + taken
  {
    var mid := Taken(ts[i], need, split);
    SpliceBytes(ts, i, i + 1, mid);
    assert ts[i..i + 1] == [ts[i]];
    BytesOfOne(ts[i]);
    BytesOfOne(mid[0]);
    if split {
      assert mid == [mid[0]] + [mid[1]];
      BytesOfMore([mid[0]], mid[1]);
    }
  }

  /** The run swallowed by a release: at most one free tile on either side of the released one. */
  lemma MergedRun(ts: seq<Tile>, i: nat)
    requires i < |ts|
    ensures ts[MergeLo(ts, i)..MergeHi(ts, i)] ==
      (if MergeLo(ts, i) < i then [ts[i - 1]] else []) + [ts[i]]
      + (if MergeHi(ts, i) == i + 2 then [ts[i + 1]] else [])
  {
  }

  lemma BytesOfThree(x: seq<Tile>, t: Tile, y: seq<Tile>)
    requires |x| <= 1 && |y| <= 1
    ensures FreeBytes(x + [t] + y) == FreeBytes(x) + FreeBytes([t]) + FreeBytes(y)
    ensures UsedBytes(x + [t] + y) == UsedBytes(x) + UsedBytes([t]) + UsedBytes(y)
  {
  }

  lemma FreeAtBytes(ts: seq<Tile>, i: nat)
    requires i < |ts| && !ts[i].free
    ensures FreeBytes(FreeAt(ts, i)) == FreeBytes(ts) + ts[i].size
    ensures UsedBytes(FreeAt(ts, i)) == UsedBytes(ts) - ts[i].size
  {
    var a, b := MergeLo(ts, i), MergeHi(ts, i);
    var before := if a < i then [ts[i - 1]] else [];
    var after := if b == i + 2 then [ts[i + 1]] else [];
    SpliceBytes(ts, a, b, [Merged(ts, i)]);
    MergedRun(ts, i);
    BytesOfThree(before, ts[i], after);
    BytesOfOne(Merged(ts, i));
    BytesOfOne(ts[i]);
    if a < i {
      BytesOfOne(ts[i - 1]);
    }
    if b == i + 2 {
      BytesOfOne(ts[i + 1]);
    }
  }

  /** Every byte between the sentinels is either free or used. */
  lemma {:induction false} BytesTotal(ts: seq<Tile>, lo: nat, hi: nat)
    requires Covers(ts, lo, hi)
    ensures FreeBytes(ts) + UsedBytes(ts) == hi - lo
  {
    if |ts| == 1 {
      BytesOfOne(ts[0]);
      assert ts == [ts[0]];
    } else {
      assert Adjacent(0, 1);
      var rest := ts[1..];
      forall i: nat, j: nat | j < |rest| && Adjacent(i, j) ensures rest[i].off + rest[i].size == rest[j].off {
        assert Adjacent(i + 1, j + 1);
      }
      BytesTotal(rest, lo + ts[0].size, hi);
    }
  }

  /** Blocks start on word boundaries. */
  ghost predicate WordAligned(ts: seq<Tile>) {
    forall i :: 0 <= i < |ts| ==> ts[i].off % WORD == 0
  }

  lemma SpliceAligned(ts: seq<Tile>, a: nat, b: nat, mid: seq<Tile>)
    requires a <= b <= |ts| && WordAligned(ts) && WordAligned(mid)
    ensures WordAligned(Splice(ts, a, b, mid))
  {
  }
}
