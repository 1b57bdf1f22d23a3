/** The header stores of sma_allocate and sma_deallocate, and why they keep the segment invariant. */
module HeaderWrites {
  import opened Focus
  import opened Sequences
  import opened Layout
  import opened Tiles
  import opened Headers
  import opened FreeList

  // ---- allocation ----

  /** An unsplit allocation: the block leaves the list, and the tag after it is cleared. */
  function TakeMem(m: Memory, cur: nat, after: nat): Memory
    requires cur in m && m[cur].fnext in m && m[cur].fprev in m && after in m
  {
    var p, n := m[cur].fprev, m[cur].fnext;
    var m0 := m[p := m[p].(fnext := n)];
    var m1 := m0[n := m0[n].(fprev := p)];
    var m2 := m1[after := m1[after].(prevSize := 0)];
    m2[cur := m2[cur].(fnext := 0)]
  }

  /** Tile headers away from `x` and `y` keep their marks. */
  ghost predicate MarksKept(m: Memory, m': Memory, x: nat, y: nat, z: nat) {
    forall o :: o in m && o != x && o != y && o != z ==> SameMark(m, m', o)
  }

  lemma TaggedTakes(m: Memory, m': Memory, ts: seq<Tile>, lo: nat, hi: nat, i: nat, mid: seq<Tile>, nxt: nat)
    requires WellTiled(ts, lo, hi) && Tagged(m, ts, hi) && i < |ts| && |mid| > 0
    requires nxt == ts[i].off || ts[i].off < nxt < ts[i].off + ts[i].size
    requires MarksKept(m, m', ts[i].off, After(ts, i + 1, hi), nxt)
    requires SameBlock(m, m', After(ts, i + 1, hi)) && m'[After(ts, i + 1, hi)].prevSize == TagBefore(mid, |mid|)
    requires RunRecorded(m', TagBefore(ts, i), mid)
    ensures Tagged(m', Splice(ts, i, i + 1, mid), hi)
  {
    OthersDiffer(ts, lo, hi, i);
    if nxt != ts[i].off {
      InsideIsNoTile(ts, lo, hi, i, nxt);
    }
    forall k | 0 <= k < |ts| && k != i && k != i + 1 ensures SameMark(m, m', ts[k].off) {
      assert Records(m, ts[k], TagBefore(ts, k));
    }
    TaggedSplice(m, m', ts, hi, i, i + 1, mid);
  }

  lemma TakeIsUnlink(m: Memory, cur: nat, after: nat)
    requires cur in m && m[cur].fnext in m && m[cur].fprev in m && after in m && m[cur].fnext != m[cur].fprev
    ensures
      var m1 := Unlink(m, cur);
      TakeMem(m, cur, after) ==
        m1[after := m1[after].(prevSize := 0)][cur := (m1[after := m1[after].(prevSize := 0)])[cur].(fnext := 0)]
  {
  }

  lemma TakeCorrect(m: Memory, ts: seq<Tile>, fl: seq<nat>, lo: nat, hi: nat, i: nat, j: nat)
    requires WellTiled(ts, lo, hi) && Tagged(m, ts, hi) && Linked(m, fl)
    requires i < |ts| && ts[i].free && 0 < j < |fl| - 1 && fl[j] == ts[i].off
    ensures m[fl[j]].fnext in m && m[fl[j]].fprev in m && After(ts, i + 1, hi) in m
    ensures
      var m' := TakeMem(m, fl[j], After(ts, i + 1, hi));
      Tagged(m', AllocAt(ts, i, 0, false), hi) && Linked(m', Without(fl, j))
  {
    var cur, after := fl[j], After(ts, i + 1, hi);
    UnlinkLinked(m, fl, j);
    AfterInside(m, ts, lo, hi, i);
    TakeIsUnlink(m, cur, after);
    var m' := TakeMem(m, cur, after);
    InWithout(fl, j, cur);
    LinkedFrame(Unlink(m, cur), m', Without(fl, j));
    assert Records(m, ts[i], TagBefore(ts, i));
    assert SameMark(m, Unlink(m, cur), after) && cur != after;
    TaggedTakes(m, m', ts, lo, hi, i, Taken(ts[i], 0, false), cur);
  }

  lemma AfterInside(m: Memory, ts: seq<Tile>, lo: nat, hi: nat, i: nat)
    requires WellTiled(ts, lo, hi) && Tagged(m, ts, hi) && i < |ts|
    ensures After(ts, i + 1, hi) in m && After(ts, i + 1, hi) == ts[i].off + ts[i].size
    ensures i + 1 < |ts| && ts[i].free ==> !ts[i + 1].free
  {
    if i + 1 < |ts| {
      assert Records(m, ts[i + 1], TagBefore(ts, i + 1));
      assert Adjacent(i, i + 1);
    }
  }

  /** Tile `i` and the header after it are at offsets of their own. */
  lemma OthersDiffer(ts: seq<Tile>, lo: nat, hi: nat, i: nat)
    requires WellTiled(ts, lo, hi) && i < |ts|
    ensures forall k :: 0 <= k < |ts| && k != i ==> ts[k].off != ts[i].off
    ensures forall k :: 0 <= k < |ts| && k != i + 1 ==> ts[k].off != After(ts, i + 1, hi)
    ensures ts[i].off < hi
    ensures i + 1 < |ts| ==> After(ts, i + 1, hi) < hi
  {
  }

  /** First half of a split: `cur` shrinks, the rest gets a header, and the tag after the rest is set. */
  function SplitMem(m: Memory, cur: nat, need: nat, after: nat): Memory
    requires cur in m && after in m && need <= m[cur].size
  {
    var rest := m[cur].size - need;
    var m1 := m[cur := m[cur].(size := need)];
    var m2 := m1[cur + need := Block(rest, 0, 0, 0)];
    m2[after := m2[after].(prevSize := rest)]
  }

  lemma SplitMemFacts(m: Memory, cur: nat, need: nat, after: nat)
    requires cur in m && after in m && 0 < need <= m[cur].size && after != cur && after != cur + need
    ensures
      var m', nxt, rest := SplitMem(m, cur, need, after), cur + need, m[cur].size - need;
      && m'.Keys == m.Keys + {nxt}
      && (forall o :: o in m && o != cur && o != after && o != nxt ==> m'[o] == m[o])
      && m'[cur] == m[cur].(size := need)
      && m'[nxt] == Block(rest, 0, 0, 0)
      && m'[after] == m[after].(prevSize := rest)
  {
  }

  /** The whole split: the rest replaces `cur` in the list and `cur` is marked allocated. */
  function CutMem(m: Memory, cur: nat, need: nat, after: nat): Memory
    requires cur in m && m[cur].fnext in m && m[cur].fprev in m && after in m && 0 < need <= m[cur].size
    requires after != cur && after != cur + need
  {
    var m3 := SplitMem(m, cur, need, after);
    var m4 := Replace(m3, cur, cur + need);
    m4[cur := m4[cur].(fnext := 0)]
  }

  lemma CutTagged(m: Memory, m': Memory, ts: seq<Tile>, lo: nat, hi: nat, i: nat, need: nat)
    requires WellTiled(ts, lo, hi) && Tagged(m, ts, hi) && i < |ts| && ts[i].free && 0 < need < ts[i].size
    requires ts[i].off in m && need <= m[ts[i].off].size
    requires CutMarks(m, m', ts[i].off, need, After(ts, i + 1, hi))
    ensures Tagged(m', AllocAt(ts, i, need, true), hi)
  {
    assert Records(m, ts[i], TagBefore(ts, i));
    TaggedTakes(m, m', ts, lo, hi, i, Taken(ts[i], need, true), ts[i].off + need);
  }

  lemma CutCorrect(m: Memory, ts: seq<Tile>, fl: seq<nat>, lo: nat, hi: nat, i: nat, need: nat, j: nat)
    requires WellTiled(ts, lo, hi) && Tagged(m, ts, hi) && Linked(m, fl)
    requires i < |ts| && ts[i].free && 0 < j < |fl| - 1 && fl[j] == ts[i].off
    requires 0 < need < ts[i].size && fl[j] + need !in fl
    ensures m[fl[j]].fnext in m && m[fl[j]].fprev in m && After(ts, i + 1, hi) in m && need <= m[fl[j]].size
    ensures fl[j] < fl[j] + need < After(ts, i + 1, hi)
    ensures
      var m' := CutMem(m, fl[j], need, After(ts, i + 1, hi));
      Tagged(m', AllocAt(ts, i, need, true), hi) && Linked(m', fl[j := fl[j] + need])
  {
    var cur, after := fl[j], After(ts, i + 1, hi);
    AfterInside(m, ts, lo, hi, i);
    assert Records(m, ts[i], TagBefore(ts, i));
    assert m[cur].fnext in m && m[cur].fprev in m by {
      UnlinkLinked(m, fl, j);
    }
    assert Linked(CutMem(m, cur, need, after), fl[j := cur + need])
        && CutMarks(m, CutMem(m, cur, need, after), cur, need, after) by {
      CutLinked(m, fl, j, need, after);
    }
    CutTagged(m, CutMem(m, cur, need, after), ts, lo, hi, i, need);
  }

  lemma CutLinked(m: Memory, fl: seq<nat>, j: nat, need: nat, after: nat)
    requires Linked(m, fl) && 0 < j < |fl| - 1
    requires m[fl[j]].fnext in m && m[fl[j]].fprev in m && after in m && 0 < need <= m[fl[j]].size
    requires fl[j] + need !in fl && after != fl[j] && after != fl[j] + need
    ensures Linked(CutMem(m, fl[j], need, after), fl[j := fl[j] + need])
    ensures CutMarks(m, CutMem(m, fl[j], need, after), fl[j], need, after)
  {
    var cur, nxt := fl[j], fl[j] + need;
    SplitMemFacts(m, cur, need, after);
    var m3 := SplitMem(m, cur, need, after);
    LinkedFrame(m, m3, fl);
    ReplaceLinked(m3, fl, j, nxt);
    var m4, m' := Replace(m3, cur, nxt), CutMem(m, cur, need, after);
    LinkedFrame(m4, m', fl[j := nxt]);
    assert CutMarks(m, m', cur, need, after) by {
      CutTags(m, m3, m4, m', cur, need, after);
    }
  }

  /** The tags after a cut. */
  lemma CutTags(m: Memory, m3: Memory, m4: Memory, m': Memory, cur: nat, need: nat, after: nat)
    requires cur in m && after in m && 0 < need <= m[cur].size && after != cur && after != cur + need
    requires m3.Keys == m.Keys + {cur + need} && m4.Keys == m3.Keys && m' == m4[cur := m4[cur].(fnext := 0)]
    requires forall o :: o in m && o != cur && o != after && o != cur + need ==> m3[o] == m[o]
    requires m3[cur] == m[cur].(size := need) && m4[cur] == m3[cur]
    requires m3[after] == m[after].(prevSize := m[cur].size - need)
    requires m3[cur + need] == Block(m[cur].size - need, 0, 0, 0)
    requires forall p :: p in m3 && p != cur + need ==> SameMark(m3, m4, p)
    requires m4[cur + need].size == m3[cur + need].size && m4[cur + need].prevSize == 0 && m4[cur + need].fnext != 0
    ensures CutMarks(m, m', cur, need, after)
  {
    forall o | o in m && o != cur && o != after && o != cur + need ensures SameMark(m, m', o) {
      assert SameMark(m3, m4, o);
    }
    assert SameMark(m3, m4, after);
  }

  ghost predicate CutMarks(m: Memory, m': Memory, cur: nat, need: nat, after: nat)
    requires cur in m && need <= m[cur].size
  {
    && MarksKept(m, m', cur, after, cur + need)
    && SameBlock(m, m', after) && m'[after].prevSize == m[cur].size - need
    && cur in m' && m'[cur] == m[cur].(size := need, fnext := 0)
    && cur + need in m'
    && m'[cur + need].size == m[cur].size - need && m'[cur + need].prevSize == 0 && m'[cur + need].fnext != 0
  }

  lemma OnlyLastEnds(m: Memory, fl: seq<nat>)
    requires Linked(m, fl)
    ensures forall k :: 0 <= k < |fl| - 1 ==> m[fl[k]].fnext != 0
  {
    forall k | 0 <= k < |fl| - 1 ensures m[fl[k]].fnext != 0 {
      assert Adjacent(k, k + 1);
    }
  }

  // ---- deallocation ----

  /** The header at tile `a` stands for tiles a..b; no other header has changed its mark. */
  ghost predicate RunMerged(m: Memory, m': Memory, ts: seq<Tile>, a: nat, b: nat) {
    && a < b <= |ts| && m'.Keys == m.Keys && ts[a].off in m
    && (forall o :: o in m && o != ts[a].off ==> SameMark(m, m', o))
    && m'[ts[a].off].size == ts[b - 1].off + ts[b - 1].size - ts[a].off
    && m'[ts[a].off].prevSize == m[ts[a].off].prevSize
  }

  /** The free tiles among a..b are off the list. */
  ghost predicate ListTrimmed(ts: seq<Tile>, fl: seq<nat>, fl': seq<nat>, a: nat, b: nat)
    requires a <= b <= |ts|
  {
    && |fl| >= 2 && |fl'| >= 2 && fl'[0] == fl[0] && fl'[|fl'| - 1] == fl[|fl| - 1]
    && (forall o :: o in fl' <==> o in fl && !IsFree(ts[a..b], o))
  }

  /** While a release is under way. */
  ghost predicate Merging(m: Memory, m': Memory, ts: seq<Tile>, fl: seq<nat>, fl': seq<nat>, a: nat, b: nat) {
    forall z {:trigger LookAtSlots(z)} :: LookAtSlots(z) ==>
      RunMerged(m, m', ts, a, b) && ListTrimmed(ts, fl, fl', a, b) && Linked(m', fl')
  }

  lemma MergingStarts(m: Memory, ts: seq<Tile>, fl: seq<nat>, hi: nat, i: nat)
    requires Tagged(m, ts, hi) && Linked(m, fl) && i < |ts| && !ts[i].free
    ensures Merging(m, m, ts, fl, fl, i, i + 1)
  {
    assert Records(m, ts[i], TagBefore(ts, i));
    assert ts[i..i + 1] == [ts[i]];
  }

  /** The block at `o` leaves the list and `c` grows by `extra` bytes. */
  function Absorb(m: Memory, o: nat, c: nat, extra: nat): Memory
    requires o in m && m[o].fnext in m && m[o].fprev in m && c in m
  {
    var m1 := Unlink(m, o);
    m1[c := m1[c].(size := m1[c].size + extra)]
  }

  lemma AbsorbLinked(m: Memory, fl: seq<nat>, j: nat, c: nat, extra: nat)
    requires Linked(m, fl) && 0 < j < |fl| - 1 && c in m
    ensures fl[j] in m && m[fl[j]].fnext in m && m[fl[j]].fprev in m
    ensures
      var m' := Absorb(m, fl[j], c, extra);
      && Linked(m', Without(fl, j)) && m'.Keys == m.Keys
      && (forall o :: o in m && o != c ==> SameMark(m, m', o))
      && m'[c].size == m[c].size + extra && m'[c].prevSize == m[c].prevSize
  {
    UnlinkLinked(m, fl, j);
    var m1, m' := Unlink(m, fl[j]), Absorb(m, fl[j], c, extra);
    assert SameMark(m, m1, c);
    LinkedFrame(m1, m', Without(fl, j));
    forall o | o in m && o != c ensures SameMark(m, m', o) {
      assert SameMark(m, m1, o);
    }
  }

  lemma RunCut(ts: seq<Tile>, a: nat, b: nat, k: nat)
    requires a <= k <= b <= |ts|
    ensures ts[a..b] == ts[a..k] + ts[k..b]
  {
  }

  lemma IsFreeJoin(x: seq<Tile>, y: seq<Tile>, o: nat)
    ensures IsFree(x + y, o) <==> IsFree(x, o) || IsFree(y, o)
  {
    if i :| 0 <= i < |x| && x[i].free && x[i].off == o {
      assert (x + y)[i] == x[i];
    }
    if i :| 0 <= i < |y| && y[i].free && y[i].off == o {
      assert (x + y)[|x| + i] == y[i];
    }
  }

  lemma IsFreeCut(ts: seq<Tile>, a: nat, b: nat, k: nat, o: nat)
    requires a <= k <= b <= |ts|
    ensures IsFree(ts[a..b], o) <==> IsFree(ts[a..k], o) || IsFree(ts[k..b], o)
  {
    RunCut(ts, a, b, k);
    IsFreeJoin(ts[a..k], ts[k..b], o);
  }

  lemma IsFreeRunMore(ts: seq<Tile>, a: nat, b: nat, o: nat)
    requires a < b <= |ts|
    ensures IsFree(ts[a..b], o) <==> IsFree(ts[a..a + 1], o) || IsFree(ts[a + 1..b], o)
    ensures IsFree(ts[a..b], o) <==> IsFree(ts[a..b - 1], o) || IsFree(ts[b - 1..b], o)
  {
    IsFreeCut(ts, a, b, a + 1, o);
    IsFreeCut(ts, a, b, b - 1, o);
  }

  lemma TrimOne(ts: seq<Tile>, fl: seq<nat>, fl1: seq<nat>, a: nat, b: nat, x: nat, y: nat, n: nat, j: nat)
    requires a <= b <= |ts| && ListTrimmed(ts, fl, fl1, a, b) && Distinct(fl1)
    requires n < |ts| && ts[n].free && 0 < j < |fl1| - 1 && fl1[j] == ts[n].off
    requires (x == a && n == b && y == b + 1) || (x + 1 == a && n == x && y == b)
    ensures x <= y <= |ts| && ListTrimmed(ts, fl, Without(fl1, j), x, y)
  {
    forall o ensures o in Without(fl1, j) <==> o in fl && !IsFree(ts[x..y], o) {
      InWithout(fl1, j, o);
      IsFreeRunMore(ts, x, y, o);
      OneTile(ts, n, o);
    }
  }

  lemma NothingTrimmed(ts: seq<Tile>, fl: seq<nat>, i: nat)
    requires i < |ts| && !ts[i].free && |fl| >= 2
    ensures ListTrimmed(ts, fl, fl, i, i + 1)
  {
  }

  /** The tag of a block tells whether, and where, the block before it is free. */
  lemma PrevReady(m: Memory, ts: seq<Tile>, fl: seq<nat>, lo: nat, hi: nat, i: nat)
    requires WellTiled(ts, lo, hi) && lo > HEADER && Tagged(m, ts, hi) && Linked(m, fl) && Lists(ts, fl, hi)
    requires i < |ts| && !ts[i].free
    ensures ts[i].off in m && m[ts[i].off].size == ts[i].size
    ensures m[ts[i].off].prevSize != 0 <==> i > 0 && ts[i - 1].free
    ensures i > 0 && ts[i - 1].free ==>
      var p := ts[i - 1].off;
      m[ts[i].off].prevSize == ts[i].off - p && p in m && m[p].fnext in m && m[p].fprev in m
  {
    assert Records(m, ts[i], TagBefore(ts, i));
    if i > 0 && ts[i - 1].free {
      assert Adjacent(i - 1, i);
      var j := FindInList(ts, fl, lo, hi, i - 1);
      UnlinkLinked(m, fl, j);
    }
  }

  lemma MergePrev(m: Memory, m': Memory, ts: seq<Tile>, fl: seq<nat>, lo: nat, hi: nat, i: nat) returns (fl': seq<nat>)
    requires WellTiled(ts, lo, hi) && lo > HEADER && Tagged(m, ts, hi) && Linked(m, fl) && Lists(ts, fl, hi)
    requires 0 < i < |ts| && ts[i - 1].free && !ts[i].free
    requires ts[i - 1].off in m && m[ts[i - 1].off].fnext in m && m[ts[i - 1].off].fprev in m
    requires m' == Absorb(m, ts[i - 1].off, ts[i - 1].off, ts[i].size)
    ensures Merging(m, m', ts, fl, fl', i - 1, i + 1)
  {
    var c := ts[i - 1].off;
    assert Records(m, ts[i - 1], TagBefore(ts, i - 1));
    assert Adjacent(i - 1, i);
    var j := FindInList(ts, fl, lo, hi, i - 1);
    fl' := Without(fl, j);
    NothingTrimmed(ts, fl, i);
    TrimOne(ts, fl, fl, i, i + 1, i - 1, i + 1, i - 1, j);
    AbsorbLinked(m, fl, j, c, ts[i].size);
  }

  lemma RunGrows(m: Memory, m1: Memory, m': Memory, ts: seq<Tile>, a: nat, b: nat)
    requires RunMerged(m, m1, ts, a, b) && b < |ts| && ts[b - 1].off + ts[b - 1].size == ts[b].off
    requires m'.Keys == m1.Keys && (forall o :: o in m1 && o != ts[a].off ==> SameMark(m1, m', o))
    requires m'[ts[a].off].size == m1[ts[a].off].size + ts[b].size && m'[ts[a].off].prevSize == m1[ts[a].off].prevSize
    ensures RunMerged(m, m', ts, a, b + 1)
  {
  }

  /** The free mark of the header after the merged run tells whether that block joins it. */
  lemma NextReady(m: Memory, m1: Memory, ts: seq<Tile>, fl: seq<nat>, fl1: seq<nat>, lo: nat, hi: nat, a: nat, b: nat)
    requires WellTiled(ts, lo, hi) && lo > HEADER && Tagged(m, ts, hi) && Lists(ts, fl, hi) && a < b <= |ts|
    requires Merging(m, m1, ts, fl, fl1, a, b)
    ensures ts[a].off in m1
    ensures
      var n := ts[a].off + m1[ts[a].off].size;
      && n == After(ts, b, hi) && n in m1
      && (m1[n].fnext != 0 <==> b < |ts| && ts[b].free)
      && (b < |ts| ==> m1[n].size == ts[b].size)
      && (m1[n].fnext != 0 ==> m1[n].fnext in m1 && m1[n].fprev in m1)
  {
    assert LookAtSlots(0);
    AfterInside(m, ts, lo, hi, b - 1);
    OthersDiffer(ts, lo, hi, a);
    var n := ts[a].off + m1[ts[a].off].size;
    assert SameMark(m, m1, n);
    if b < |ts| {
      assert Records(m, ts[b], TagBefore(ts, b));
      if ts[b].free {
        var j := FindListed(ts, fl, fl1, lo, hi, b, a);
        UnlinkLinked(m1, fl1, j);
      }
    }
  }

  lemma MergeNext(m: Memory, m1: Memory, m': Memory, ts: seq<Tile>, fl: seq<nat>, fl1: seq<nat>, lo: nat, hi: nat,
        a: nat, b: nat)
      returns (fl': seq<nat>)
    requires WellTiled(ts, lo, hi) && lo > HEADER && Lists(ts, fl, hi)
    requires a < b < |ts| && ts[b].free
    requires Merging(m, m1, ts, fl, fl1, a, b)
    requires ts[b].off in m1 && m1[ts[b].off].fnext in m1 && m1[ts[b].off].fprev in m1 && ts[a].off in m1
    requires m' == Absorb(m1, ts[b].off, ts[a].off, ts[b].size)
    ensures Merging(m, m', ts, fl, fl', a, b + 1)
  {
    assert LookAtSlots(0);
    var j := FindListed(ts, fl, fl1, lo, hi, b, a);
    fl' := Without(fl1, j);
    TrimOne(ts, fl, fl1, a, b, a, b + 1, b, j);
    AbsorbLinked(m1, fl1, j, ts[a].off, ts[b].size);
    assert Adjacent(b - 1, b);
    RunGrows(m, m1, m', ts, a, b);
  }

  /** The free tile after the merged run is still on the list. */
  lemma FindListed(ts: seq<Tile>, fl: seq<nat>, fl1: seq<nat>, lo: nat, hi: nat, n: nat, a: nat) returns (j: nat)
    requires WellTiled(ts, lo, hi) && lo > HEADER && Lists(ts, fl, hi)
    requires a < n < |ts| && ts[n].free && |fl1| >= 2
    requires fl1[0] == HEADER && fl1[|fl1| - 1] == hi
    requires forall o :: o in fl1 <==> o in fl && !IsFree(ts[a..n], o)
    ensures 0 < j < |fl1| - 1 && fl1[j] == ts[n].off
  {
    TileInside(ts, lo, hi, n);
    assert IsFree(ts, ts[n].off);
    if IsFree(ts[a..n], ts[n].off) {
      var k := HasInRun(ts, a, n, ts[n].off, true);
      SameOffset(ts, k, n);
    }
    j :| 0 <= j < |fl1| && fl1[j] == ts[n].off;
  }

  /** The last stores of a release: the tag behind the merged block, and its place at the list front. */
  function ReleaseMem(m: Memory, c: nat, after: nat): Memory
    requires HEADER in m && c in m && after in m && m[HEADER].fnext in m
  {
    PushFront(m[after := m[after].(prevSize := m[c].size)], HEADER, c)
  }

  lemma RunSize(ts: seq<Tile>, lo: nat, hi: nat, i: nat)
    requires WellTiled(ts, lo, hi) && i < |ts|
    ensures
      var a, b := MergeLo(ts, i), MergeHi(ts, i);
      Merged(ts, i).off == ts[a].off && Merged(ts, i).size == ts[b - 1].off + ts[b - 1].size - ts[a].off
  {
    var a, b := MergeLo(ts, i), MergeHi(ts, i);
    assert a < i ==> Adjacent(a, i);
    assert b == i + 2 ==> Adjacent(i, i + 1);
  }

  /** Marks after the last stores, relative to the headers before the release. */
  ghost predicate Released(m: Memory, m': Memory, t: Tile, after: nat) {
    && (forall o :: o in m && o != t.off && o != after ==> SameMark(m, m', o))
    && SameBlock(m, m', after) && m'[after].prevSize == t.size
    && t.off in m && t.off in m' && m'[t.off].size == t.size && m'[t.off].prevSize == m[t.off].prevSize
    && m'[t.off].fnext != 0
  }

  lemma ReleaseMarks(m: Memory, m2: Memory, fl2: seq<nat>, t: Tile, after: nat)
    requires m2.Keys == m.Keys && t.off in m && after in m && t.off > 0 && after != t.off
    requires forall o :: o in m && o != t.off ==> SameMark(m, m2, o)
    requires m2[t.off].size == t.size && m2[t.off].prevSize == m[t.off].prevSize
    requires Linked(m2, fl2) && fl2[0] == HEADER && t.off !in fl2
    ensures HEADER in m2 && m2[HEADER].fnext in m2
    ensures Released(m, ReleaseMem(m2, t.off, after), t, after)
    ensures Linked(ReleaseMem(m2, t.off, after), Pushed(fl2, t.off))
  {
    assert Adjacent(0, 1);
    var m3 := m2[after := m2[after].(prevSize := m2[t.off].size)];
    LinkedFrame(m2, m3, fl2);
    PushFrontLinked(m3, fl2, t.off);
    var m' := ReleaseMem(m2, t.off, after);
    assert SameMark(m, m2, after) && SameMark(m3, m', after);
    forall o | o in m && o != t.off && o != after ensures SameMark(m, m', o) {
      assert SameMark(m, m2, o) && SameMark(m3, m', o);
    }
  }

  lemma ReleaseTagged(m: Memory, m': Memory, ts: seq<Tile>, lo: nat, hi: nat, i: nat)
    requires WellTiled(ts, lo, hi) && Tagged(m, ts, hi) && i < |ts| && !ts[i].free
    requires Released(m, m', Merged(ts, i), After(ts, MergeHi(ts, i), hi))
    ensures Tagged(m', FreeAt(ts, i), hi)
  {
    var a, b, t := MergeLo(ts, i), MergeHi(ts, i), Merged(ts, i);
    assert Records(m, ts[a], TagBefore(ts, a));
    OthersDiffer(ts, lo, hi, b - 1);
    OthersDiffer(ts, lo, hi, a);
    forall k | 0 <= k < |ts| && (k < a || b < k) ensures SameMark(m, m', ts[k].off) {
      assert Records(m, ts[k], TagBefore(ts, k));
    }
    TaggedSplice(m, m', ts, hi, a, b, [t]);
  }

  /** The merged block when its neighbours are off the list. */
  ghost predicate MergedAt(m: Memory, m2: Memory, t: Tile, after: nat, lo: nat) {
    && m2.Keys == m.Keys && t.off in m && after in m && lo <= t.off && after == t.off + t.size != t.off
    && m2[t.off].size == t.size && m2[t.off].prevSize == m[t.off].prevSize
    && (forall o :: o in m && o != t.off ==> SameMark(m, m2, o))
  }

  lemma MergedFacts(m: Memory, m2: Memory, ts: seq<Tile>, fl: seq<nat>, fl2: seq<nat>, lo: nat, hi: nat, i: nat)
    requires WellTiled(ts, lo, hi) && Tagged(m, ts, hi) && i < |ts| && !ts[i].free
    requires Merging(m, m2, ts, fl, fl2, MergeLo(ts, i), MergeHi(ts, i))
    ensures MergedAt(m, m2, Merged(ts, i), After(ts, MergeHi(ts, i), hi), lo)
  {
    assert RunMerged(m, m2, ts, MergeLo(ts, i), MergeHi(ts, i)) by {
      assert LookAtSlots(0);
    }
    AfterInside(m, ts, lo, hi, MergeHi(ts, i) - 1);
    RunSize(ts, lo, hi, i);
    TileInside(ts, lo, hi, MergeLo(ts, i));
  }

  lemma TrimmedFacts(m: Memory, m2: Memory, ts: seq<Tile>, fl: seq<nat>, fl2: seq<nat>, hi: nat, i: nat)
    requires i < |ts| && Lists(ts, fl, hi) && Merging(m, m2, ts, fl, fl2, MergeLo(ts, i), MergeHi(ts, i))
    ensures Linked(m2, fl2) && NeighboursOff(ts, fl, fl2, i)
    ensures |fl2| >= 2 && fl2[0] == HEADER && fl2[|fl2| - 1] == hi
  {
    assert LookAtSlots(0);
  }

  /** The block is merged and off the list; the last stores can be made. */
  lemma ReleaseReady(m: Memory, m2: Memory, ts: seq<Tile>, fl: seq<nat>, fl2: seq<nat>, lo: nat, hi: nat, i: nat)
    requires WellTiled(ts, lo, hi) && lo > HEADER && Tagged(m, ts, hi) && Lists(ts, fl, hi)
    requires i < |ts| && !ts[i].free
    requires Merging(m, m2, ts, fl, fl2, MergeLo(ts, i), MergeHi(ts, i))
    ensures
      var c := Merged(ts, i).off;
      && HEADER in m2 && c in m2 && m2[HEADER].fnext in m2 && m2[c].size == Merged(ts, i).size
      && c + m2[c].size == After(ts, MergeHi(ts, i), hi) && c + m2[c].size in m2
  {
    MergedFacts(m, m2, ts, fl, fl2, lo, hi, i);
    TrimmedFacts(m, m2, ts, fl, fl2, hi, i);
    assert Adjacent(0, 1);
  }

  lemma ReleaseCorrect(m: Memory, m2: Memory, m': Memory, ts: seq<Tile>, fl: seq<nat>, fl2: seq<nat>, lo: nat,
        hi: nat, i: nat)
    requires WellTiled(ts, lo, hi) && lo > HEADER && Tagged(m, ts, hi) && Lists(ts, fl, hi)
    requires i < |ts| && !ts[i].free
    requires Merging(m, m2, ts, fl, fl2, MergeLo(ts, i), MergeHi(ts, i))
    requires
      var c := Merged(ts, i).off;
      && HEADER in m2 && c in m2 && m2[HEADER].fnext in m2 && c + m2[c].size in m2 && |fl2| > 0
      && m' == ReleaseMem(m2, c, c + m2[c].size)
    ensures Tagged(m', FreeAt(ts, i), hi)
    ensures Linked(m', Pushed(fl2, Merged(ts, i).off))
    ensures Lists(FreeAt(ts, i), Pushed(fl2, Merged(ts, i).off), hi)
  {
    var t, after := Merged(ts, i), After(ts, MergeHi(ts, i), hi);
    MergedFacts(m, m2, ts, fl, fl2, lo, hi, i);
    TrimmedFacts(m, m2, ts, fl, fl2, hi, i);
    FreeLists(ts, fl, fl2, lo, hi, i);
    ReleaseMarks(m, m2, fl2, t, after);
    ReleaseTagged(m, m', ts, lo, hi, i);
  }
}
