/** The free list holds exactly the free tiles, between its two sentinels. */
module FreeList {
  import opened Sequences
  import opened Layout
  import opened Tiles
  import opened Headers

  const FIRST_BLOCK: nat := HEADER + BLOCK  // offset of the first block after the zero-size sentinel

  /** Some tile starts at `o` and is free (or, with `f` false, allocated). */
  ghost predicate Has(ts: seq<Tile>, o: nat, f: bool) {
    exists i :: 0 <= i < |ts| && ts[i].free == f && ts[i].off == o
  }

  ghost predicate IsFree(ts: seq<Tile>, o: nat) {
    Has(ts, o, true)
  }

  ghost predicate Lists(ts: seq<Tile>, fl: seq<nat>, hi: nat) {
    && |fl| >= 2
    && fl[0] == HEADER && fl[|fl| - 1] == hi
    && (forall o {:trigger IsFree(ts, o)} :: o in fl <==> o == HEADER || o == hi || IsFree(ts, o))
  }

  lemma SameOffset(ts: seq<Tile>, i: nat, k: nat)
    requires i < |ts| && k < |ts| && Ordered(ts) && BigEnough(ts)
    ensures ts[i].off == ts[k].off <==> i == k
  {
  }

  lemma IsFreeAt(ts: seq<Tile>, i: nat)
    requires i < |ts|
    requires Ordered(ts) && BigEnough(ts)
    ensures IsFree(ts, ts[i].off) <==> ts[i].free
  {
  }

  lemma HasSplice(ts: seq<Tile>, a: nat, b: nat, mid: seq<Tile>, o: nat, f: bool)
    requires a <= b <= |ts|
    ensures Has(Splice(ts, a, b, mid), o, f) <==> Has(ts[..a], o, f) || Has(mid, o, f) || Has(ts[b..], o, f)
  {
    var r := Splice(ts, a, b, mid);
    if Has(r, o, f) {
      var k :| 0 <= k < |r| && r[k].free == f && r[k].off == o;
      SpliceAt(ts, a, b, mid, k);
      if k < a {
        assert ts[..a][k] == r[k];
      } else if k >= a + |mid| {
        assert ts[b..][k - |mid| - a] == r[k];
      } else {
        assert mid[k - a] == r[k];
      }
    }
    if Has(ts[..a], o, f) {
      var k :| 0 <= k < a && ts[..a][k].free == f && ts[..a][k].off == o;
      assert r[k] == ts[..a][k];
    }
    if Has(mid, o, f) {
      var k :| 0 <= k < |mid| && mid[k].free == f && mid[k].off == o;
      assert r[a + k] == mid[k];
    }
    if Has(ts[b..], o, f) {
      var k :| 0 <= k < |ts| - b && ts[b..][k].free == f && ts[b..][k].off == o;
      assert r[a + |mid| + k] == ts[b..][k];
    }
  }

  lemma HasInRun(ts: seq<Tile>, a: nat, b: nat, o: nat, f: bool) returns (k: nat)
    requires a <= b <= |ts| && Has(ts[a..b], o, f)
    ensures a <= k < b && ts[k].free == f && ts[k].off == o
  {
    var x :| 0 <= x < b - a && ts[a..b][x].free == f && ts[a..b][x].off == o;
    k := a + x;
  }

  /** An offset starts a tile in at most one of two runs that do not overlap. */
  lemma HasInOneRun(ts: seq<Tile>, a: nat, b: nat, c: nat, d: nat, o: nat, f: bool)
    requires a <= b <= c <= d <= |ts| && Ordered(ts) && BigEnough(ts)
    ensures !(Has(ts[a..b], o, f) && Has(ts[c..d], o, f))
  {
  }

  /** Outside the spliced run nothing is freed or taken. */
  lemma HasOutside(ts: seq<Tile>, a: nat, b: nat, mid: seq<Tile>, o: nat, f: bool)
    requires a <= b <= |ts| && Ordered(ts) && BigEnough(ts)
    ensures Has(Splice(ts, a, b, mid), o, f) <==>
      (Has(ts, o, f) && !Has(ts[a..b], o, f)) || Has(mid, o, f)
  {
    HasSplice(ts, a, b, mid, o, f);
    HasSplice(ts, a, b, ts[a..b], o, f);
    assert Splice(ts, a, b, ts[a..b]) == ts;
    assert ts[..a] == ts[0..a] && ts[b..] == ts[b..|ts|];
    HasInOneRun(ts, 0, a, a, b, o, f);
    HasInOneRun(ts, a, b, b, |ts|, o, f);
  }

  lemma IsFreeOutside(ts: seq<Tile>, a: nat, b: nat, mid: seq<Tile>, o: nat)
    requires a <= b <= |ts| && Ordered(ts) && BigEnough(ts)
    ensures IsFree(Splice(ts, a, b, mid), o) <==>
      (IsFree(ts, o) && !IsFree(ts[a..b], o)) || IsFree(mid, o)
  {
    HasOutside(ts, a, b, mid, o, true);
  }

  lemma InWithout(fl: seq<nat>, j: nat, o: nat)
    requires j < |fl| && Distinct(fl)
    ensures o in Without(fl, j) <==> o in fl && o != fl[j]
  {
  }

  /** Where a free tile sits in the list. */
  lemma FindInList(ts: seq<Tile>, fl: seq<nat>, lo: nat, hi: nat, i: nat) returns (j: nat)
    requires WellTiled(ts, lo, hi) && lo > HEADER && Lists(ts, fl, hi)
    requires i < |ts| && ts[i].free
    ensures 0 < j < |fl| - 1 && fl[j] == ts[i].off
  {
    TileInside(ts, lo, hi, i);
    assert IsFree(ts, ts[i].off);
    j :| 0 <= j < |fl| && fl[j] == ts[i].off;
  }

  /** Which tile a listed block is. */
  lemma FindTile(ts: seq<Tile>, fl: seq<nat>, hi: nat, j: nat) returns (i: nat)
    requires Lists(ts, fl, hi) && Distinct(fl)
    requires 0 < j < |fl| - 1
    ensures i < |ts| && ts[i].free && ts[i].off == fl[j]
  {
    assert fl[j] in fl && fl[j] != fl[0] && fl[j] != fl[|fl| - 1];
    assert IsFree(ts, fl[j]);
    i :| 0 <= i < |ts| && ts[i].free && ts[i].off == fl[j];
  }

  lemma TileInside(ts: seq<Tile>, lo: nat, hi: nat, i: nat)
    requires WellTiled(ts, lo, hi) && i < |ts|
    ensures lo <= ts[i].off && ts[i].off + ts[i].size <= hi
  {
  }

  /** An offset strictly inside a tile is no tile of its own. */
  lemma InsideIsNoTile(ts: seq<Tile>, lo: nat, hi: nat, i: nat, o: nat)
    requires WellTiled(ts, lo, hi) && i < |ts|
    requires ts[i].off < o < ts[i].off + ts[i].size
    ensures forall k :: 0 <= k < |ts| ==> ts[k].off != o
    ensures lo < o < hi
  {
  }

  lemma TakeLists(ts: seq<Tile>, fl: seq<nat>, lo: nat, hi: nat, i: nat, j: nat)
    requires WellTiled(ts, lo, hi) && lo > HEADER && Lists(ts, fl, hi) && Distinct(fl)
    requires i < |ts| && ts[i].free && 0 < j < |fl| - 1 && fl[j] == ts[i].off
    ensures Lists(AllocAt(ts, i, 0, false), Without(fl, j), hi)
  {
    var r := AllocAt(ts, i, 0, false);
    TileInside(ts, lo, hi, i);
    forall o ensures o in Without(fl, j) <==> o == HEADER || o == hi || IsFree(r, o) {
      InWithout(fl, j, o);
      IsFreeOutside(ts, i, i + 1, Taken(ts[i], 0, false), o);
      OneTile(ts, i, o);
    }
  }

  lemma OneTile(ts: seq<Tile>, i: nat, o: nat)
    requires i < |ts|
    ensures IsFree(ts[i..i + 1], o) <==> ts[i].free && ts[i].off == o
  {
  }

  lemma CutLists(ts: seq<Tile>, fl: seq<nat>, lo: nat, hi: nat, i: nat, need: nat, j: nat)
    requires WellTiled(ts, lo, hi) && lo > HEADER && Lists(ts, fl, hi) && Distinct(fl)
    requires i < |ts| && ts[i].free && 0 < j < |fl| - 1 && fl[j] == ts[i].off
    requires 0 < need < ts[i].size
    ensures ts[i].off + need !in fl
    ensures Lists(AllocAt(ts, i, need, true), fl[j := ts[i].off + need], hi)
  {
    var r := AllocAt(ts, i, need, true);
    var c := ts[i].off + need;
    var fl' := fl[j := c];
    TileInside(ts, lo, hi, i);
    InsideIsNoTile(ts, lo, hi, i, c);
    assert !IsFree(ts, c);
    forall o ensures o in fl' <==> o == HEADER || o == hi || IsFree(r, o) {
      IsFreeOutside(ts, i, i + 1, Taken(ts[i], need, true), o);
      OneTile(ts, i, o);
      var mid := Taken(ts[i], need, true);
      assert mid[1].free && mid[1].off == c;
      if o in fl && o != fl[j] {
        var k :| 0 <= k < |fl| && fl[k] == o;
        assert fl'[k] == o;
      }
      assert fl'[j] == c;
    }
  }

  /** The list left after the free neighbours of a released tile have been taken off it. */
  ghost predicate NeighboursOff(ts: seq<Tile>, fl: seq<nat>, rest: seq<nat>, i: nat)
    requires i < |ts|
  {
    forall o :: o in rest <==> o in fl && !IsFree(ts[MergeLo(ts, i)..MergeHi(ts, i)], o)
  }

  lemma FreeLists(ts: seq<Tile>, fl: seq<nat>, rest: seq<nat>, lo: nat, hi: nat, i: nat)
    requires WellTiled(ts, lo, hi) && lo > HEADER && Lists(ts, fl, hi)
    requires i < |ts| && !ts[i].free && NeighboursOff(ts, fl, rest, i)
    requires |rest| >= 2 && rest[0] == HEADER && rest[|rest| - 1] == hi
    ensures Merged(ts, i).off !in rest
    ensures Lists(FreeAt(ts, i), Pushed(rest, Merged(ts, i).off), hi)
  {
    var a, b := MergeLo(ts, i), MergeHi(ts, i);
    var c := Merged(ts, i).off;
    var fl' := Pushed(rest, c);
    TileInside(ts, lo, hi, a);
    IsFreeAt(ts, a);
    assert ts[a..b][0] == ts[a];
    assert c !in rest;
    forall o ensures o in fl' <==> o == HEADER || o == hi || IsFree(FreeAt(ts, i), o) {
      IsFreeOutside(ts, a, b, [Merged(ts, i)], o);
      assert IsFree([Merged(ts, i)], o) <==> o == c by {
        assert [Merged(ts, i)][0].off == c;
      }
      assert o in fl' <==> o in rest || o == c by {
        InPushed(rest, c, o);
      }
      assert !IsFree(ts[a..b], HEADER) && !IsFree(ts[a..b], hi) by {
        RunInside(ts, lo, hi, a, b);
      }
    }
  }

  lemma InPushed(fl: seq<nat>, c: nat, o: nat)
    requires |fl| > 0
    ensures o in Pushed(fl, c) <==> o in fl || o == c
  {
  }

  lemma RunInside(ts: seq<Tile>, lo: nat, hi: nat, a: nat, b: nat)
    requires WellTiled(ts, lo, hi) && a <= b <= |ts|
    ensures forall o: nat :: IsFree(ts[a..b], o) ==> lo <= o < hi
  {
  }
}
