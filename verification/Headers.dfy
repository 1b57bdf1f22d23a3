/** Block headers in memory: boundary tags over the tiling, and the doubly linked free list. */
module Headers {
  import opened Layout
  import opened Tiles

  datatype Block = Block(size: nat, prevSize: nat, fnext: nat, fprev: nat)

  type Memory = map<nat, Block>

  // ---- boundary tags ----

  /** The tag that follows tile `i - 1`: its size if it is free, 0 if it is allocated. */
  function TagBefore(ts: seq<Tile>, i: nat): nat
    requires i <= |ts|
  {
    if i > 0 && ts[i - 1].free then ts[i - 1].size else 0
  }

  /** The header of this tile; a block is marked free by a nonzero `fnext`. */
  ghost predicate Records(m: Memory, t: Tile, tag: nat) {
    && t.off in m
    && m[t.off].size == t.size
    && m[t.off].prevSize == tag
    && (m[t.off].fnext != 0 <==> t.free)
  }

  ghost predicate Tagged(m: Memory, ts: seq<Tile>, hi: nat) {
    && (forall i {:trigger Records(m, ts[i], TagBefore(ts, i))} ::
      0 <= i < |ts| ==> Records(m, ts[i], TagBefore(ts, i)))
    && Records(m, Tile(hi, 0, false), TagBefore(ts, |ts|))
  }

  /** `o` keeps its size and its free mark. */
  ghost predicate SameBlock(m: Memory, m': Memory, o: nat) {
    && o in m && o in m'
    && m'[o].size == m[o].size
    && (m'[o].fnext != 0 <==> m[o].fnext != 0)
  }

  /** `o` keeps its size, its free mark and the tag of the block before it. */
  ghost predicate SameMark(m: Memory, m': Memory, o: nat) {
    SameBlock(m, m', o) && m'[o].prevSize == m[o].prevSize
  }

  /** Offset of the header that follows the first `b` tiles. */
  function After(ts: seq<Tile>, b: nat, hi: nat): nat
    requires b <= |ts|
  {
    if b < |ts| then ts[b].off else hi
  }

  ghost predicate OthersKept(m: Memory, m': Memory, ts: seq<Tile>, hi: nat, a: nat, b: nat)
    requires a <= b <= |ts|
  {
    && (forall k :: 0 <= k < a ==> SameMark(m, m', ts[k].off))
    && (forall k :: b < k < |ts| ==> SameMark(m, m', ts[k].off))
    && (b < |ts| ==> SameMark(m, m', hi))
    && SameBlock(m, m', After(ts, b, hi))
  }

  ghost predicate RunRecorded(m: Memory, tag: nat, mid: seq<Tile>) {
    forall k :: 0 <= k < |mid| ==> Records(m, mid[k], if k == 0 then tag else TagBefore(mid, k))
  }

  lemma TagBeforeSplice(ts: seq<Tile>, a: nat, b: nat, mid: seq<Tile>, k: nat)
    requires a < b <= |ts| && |mid| > 0
    requires k <= |ts| - (b - a) + |mid|
    ensures TagBefore(Splice(ts, a, b, mid), k) ==
      if k <= a then TagBefore(ts, k)
      else if k <= a + |mid| then TagBefore(mid, k - a)
      else TagBefore(ts, k - |mid| - a + b)
  {
  }

  /** Rewriting the headers of one run of tiles, and the tag after it, keeps the tags consistent. */
  lemma TaggedSplice(m: Memory, m': Memory, ts: seq<Tile>, hi: nat, a: nat, b: nat, mid: seq<Tile>)
    requires Tagged(m, ts, hi) && a < b <= |ts| && |mid| > 0
    requires OthersKept(m, m', ts, hi, a, b)
    requires RunRecorded(m', TagBefore(ts, a), mid)
    requires m'[After(ts, b, hi)].prevSize == TagBefore(mid, |mid|)
    ensures Tagged(m', Splice(ts, a, b, mid), hi)
  {
    var r := Splice(ts, a, b, mid);
    forall k | 0 <= k < |r| ensures Records(m', r[k], TagBefore(r, k)) {
      SpliceAt(ts, a, b, mid, k);
      TagBeforeSplice(ts, a, b, mid, k);
      if k < a {
        assert Records(m, ts[k], TagBefore(ts, k));
      } else if k < a + |mid| {
        assert Records(m', mid[k - a], if k == a then TagBefore(ts, a) else TagBefore(mid, k - a));
      } else {
        assert Records(m, ts[k - |mid| - a + b], TagBefore(ts, k - |mid| - a + b));
      }
    }
    TagBeforeSplice(ts, a, b, mid, |r|);
  }

  // ---- the free list ----

  /** A doubly linked list through the headers, from the first sentinel to the last. */
  ghost predicate Linked(m: Memory, fl: seq<nat>) {
    && |fl| >= 2
    && (forall j :: 0 <= j < |fl| ==> fl[j] > 0 && fl[j] in m)
    && (forall j, k :: 0 <= j < k < |fl| ==> fl[j] != fl[k])
    && (forall j: nat, k: nat {:trigger Adjacent(j, k)} ::
      k < |fl| && Adjacent(j, k) ==> m[fl[j]].fnext == fl[k] && m[fl[k]].fprev == fl[j])
    && m[fl[|fl| - 1]].fnext == 0
  }

  /** Writing sizes and tags leaves the list alone. */
  lemma LinkedFrame(m: Memory, m': Memory, fl: seq<nat>)
    requires Linked(m, fl)
    requires forall j :: 0 <= j < |fl| ==>
      fl[j] in m' && m'[fl[j]].fnext == m[fl[j]].fnext && m'[fl[j]].fprev == m[fl[j]].fprev
    ensures Linked(m', fl)
  {
  }

  /** The two stores that take block `o` out of the list. */
  function Unlink(m: Memory, o: nat): Memory
    requires o in m && m[o].fnext in m && m[o].fprev in m
  {
    var n, p := m[o].fnext, m[o].fprev;
    var m1 := m[n := m[n].(fprev := p)];
    m1[p := m1[p].(fnext := n)]
  }

  function Without(fl: seq<nat>, j: nat): seq<nat>
    requires j < |fl|
  {
    fl[..j] + fl[j + 1..]
  }

  lemma UnlinkLinked(m: Memory, fl: seq<nat>, j: nat)
    requires Linked(m, fl) && 0 < j < |fl| - 1
    ensures fl[j] in m && m[fl[j]].fnext == fl[j + 1] && m[fl[j]].fprev == fl[j - 1]
    ensures Linked(Unlink(m, fl[j]), Without(fl, j))
    ensures Unlink(m, fl[j]).Keys == m.Keys
    ensures Unlink(m, fl[j])[fl[j]] == m[fl[j]]
    ensures forall o :: o in m ==> SameMark(m, Unlink(m, fl[j]), o)
  {
    assert Adjacent(j - 1, j) && Adjacent(j, j + 1);
    var r := Without(fl, j);
    forall x: nat, y: nat | y < |r| && Adjacent(x, y)
      ensures r[x] in m && r[y] in m && Unlink(m, fl[j])[r[x]].fnext == r[y] && Unlink(m, fl[j])[r[y]].fprev == r[x]
    {
      UnlinkPair(m, fl, j, x);
    }
  }

  /** Neighbours in the list without node `j` are linked to each other. */
  lemma UnlinkPair(m: Memory, fl: seq<nat>, j: nat, x: nat)
    requires Linked(m, fl) && 0 < j < |fl| - 1 && x < |fl| - 2
    requires fl[j] in m && m[fl[j]].fnext == fl[j + 1]
    requires m[fl[j]].fprev == fl[j - 1] && fl[j - 1] in m && fl[j + 1] in m
    ensures
      var r, m' := Without(fl, j), Unlink(m, fl[j]);
      x + 1 < |r| && r[x] in m' && r[x + 1] in m' && m'[r[x]].fnext == r[x + 1] && m'[r[x + 1]].fprev == r[x]
  {
    var r := Without(fl, j);
    if x == j - 1 {
      assert r[x] == fl[j - 1] && r[x + 1] == fl[j + 1];
    } else {
      var x' := if x < j then x else x + 1;
      assert Adjacent(x', x' + 1);
      assert r[x] == fl[x'] && r[x + 1] == fl[x' + 1];
    }
  }

  /** The four stores that put block `o` at the front of the list. */
  function PushFront(m: Memory, first: nat, o: nat): Memory
    requires first in m && o in m && m[first].fnext in m
  {
    var n := m[first].fnext;
    var m1 := m[o := m[o].(fnext := n)];
    var m2 := m1[first := m1[first].(fnext := o)];
    var m3 := m2[o := m2[o].(fprev := first)];
    m3[n := m3[n].(fprev := o)]
  }

  function Pushed(fl: seq<nat>, o: nat): seq<nat>
    requires |fl| > 0
  {
    [fl[0], o] + fl[1..]
  }

  lemma PushFrontLinked(m: Memory, fl: seq<nat>, o: nat)
    requires Linked(m, fl) && o in m && o > 0 && o !in fl
    ensures m[fl[0]].fnext == fl[1]
    ensures Linked(PushFront(m, fl[0], o), Pushed(fl, o))
    ensures PushFront(m, fl[0], o).Keys == m.Keys
    ensures forall p :: p in m && p != o ==> SameMark(m, PushFront(m, fl[0], o), p)
    ensures
      var b := PushFront(m, fl[0], o)[o];
      b.size == m[o].size && b.prevSize == m[o].prevSize && b.fnext != 0
  {
    assert Adjacent(0, 1);
    var m' := PushFront(m, fl[0], o);
    var r := Pushed(fl, o);
    assert forall k :: 2 <= k < |r| ==> r[k] == fl[k - 1];
    forall x: nat, y: nat | y < |r| && Adjacent(x, y) ensures m'[r[x]].fnext == r[y] && m'[r[y]].fprev == r[x] {
      if x >= 2 {
        assert Adjacent(x - 1, x);
      }
    }
  }

  /** The stores that put the fresh block `o'` in the place of `o`. */
  function Replace(m: Memory, o: nat, o': nat): Memory
    requires o in m && o' in m && m[o].fnext in m && m[o].fprev in m
  {
    var n, p := m[o].fnext, m[o].fprev;
    var m1 := m[o' := m[o'].(fnext := n, fprev := p)];
    var m2 := m1[n := m1[n].(fprev := o')];
    m2[p := m2[p].(fnext := o')]
  }

  lemma ReplaceLinked(m: Memory, fl: seq<nat>, j: nat, o': nat)
    requires Linked(m, fl) && 0 < j < |fl| - 1
    requires o' in m && o' > 0 && o' !in fl
    ensures fl[j] in m && m[fl[j]].fnext == fl[j + 1] && m[fl[j]].fprev == fl[j - 1]
    ensures Linked(Replace(m, fl[j], o'), fl[j := o'])
    ensures Replace(m, fl[j], o').Keys == m.Keys
    ensures Replace(m, fl[j], o')[fl[j]] == m[fl[j]]
    ensures forall p :: p in m && p != o' ==> SameMark(m, Replace(m, fl[j], o'), p)
    ensures
      var b := Replace(m, fl[j], o')[o'];
      b.size == m[o'].size && b.prevSize == m[o'].prevSize && b.fnext != 0
  {
    assert Adjacent(j - 1, j) && Adjacent(j, j + 1);
    var m' := Replace(m, fl[j], o');
    var r := fl[j := o'];
    forall x: nat, y: nat | y < |r| && Adjacent(x, y) ensures m'[r[x]].fnext == r[y] && m'[r[y]].fprev == r[x] {
      assert Adjacent(x, y);
    }
  }
}
