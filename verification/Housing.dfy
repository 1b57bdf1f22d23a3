/** Nodes in shared memory and the allocated blocks that hold them. */
module Housing {
  import opened Focus
  import opened Layout
  import opened Tiles
  import opened FreeList
  import opened Segment
  import opened Pool
  import opened Values
  import opened Copies
  import opened Outcomes

  /** Addresses [lo, hi) lie in the payload of allocated block `t` of segment `i`. */
  predicate Houses(base: seq<nat>, rows: seq<seq<Tile>>, i: nat, t: Tile, lo: Ptr, hi: Ptr) {
    && i < |rows| && i < |base| && t in rows[i] && !t.free
    && base[i] + t.off + BLOCK <= lo && hi <= base[i] + t.off + t.size
  }

  ghost predicate Housed(base: seq<nat>, rows: seq<seq<Tile>>, lo: Ptr, hi: Ptr) {
    exists i, t :: Houses(base, rows, i, t, lo, hi)
  }

  /** Every node in shared memory lies, with all its bytes, in an allocated block. */
  ghost predicate Backed(base: seq<nat>, size: nat, rows: seq<seq<Tile>>, h: Heap) {
    forall p {:trigger p in h} :: p in h && Region(base, size).Contains(p) ==>
      Housed(base, rows, p, p + NodeBytes(h[p]))
  }

  /** Serving a request leaves every allocated block as it was, and adds one. */
  lemma ServedKeeps(rows: seq<seq<Tile>>, rows': seq<seq<Tile>>, w: nat, n: nat, at: nat, i: nat, t: Tile)
    requires Served(rows, rows', w, n, at) && i < |rows| && t in rows[i] && !t.free
    ensures |rows'| == |rows| && t in rows'[i]
  {
  }

  /** The block that serves a request. */
  function ServedTile(rows: seq<seq<Tile>>, w: nat, n: nat, at: nat): Tile
    requires w < |rows| && at < |rows[w]|
  {
    Tile(rows[w][at].off, Handed(rows[w][at], Need(n), MIN_BLOCK), false)
  }

  lemma ServedAdds(rows: seq<seq<Tile>>, rows': seq<seq<Tile>>, w: nat, n: nat, at: nat)
    requires Served(rows, rows', w, n, at)
    ensures |rows'| == |rows| && ServedTile(rows, w, n, at) in rows'[w] && n + BLOCK <= ServedTile(rows, w, n, at).size
  {
  }

  /** An allocated block does not meet a free one. */
  lemma HousedOutside(base: seq<nat>, size: nat, rows: seq<seq<Tile>>, w: nat, at: nat, i: nat, t: Tile, lo: Ptr,
        hi: Ptr)
    requires Apart(base, size) && Tiled(rows, size) && w < |rows| == |base| && at < |rows[w]| && rows[w][at].free
    requires Houses(base, rows, i, t, lo, hi)
    ensures hi <= base[w] + rows[w][at].off || base[w] + rows[w][at].off + rows[w][at].size <= lo
  {
    assert LookAtLayout(0);
    var k :| 0 <= k < |rows[i]| && rows[i][k] == t;
    TileInside(rows[i], FIRST_BLOCK, size - 2 * BLOCK, k);
    TileInside(rows[w], FIRST_BLOCK, size - 2 * BLOCK, at);
    if i == w {
      if k < at {
        assert rows[w][k].off + rows[w][k].size <= rows[w][at].off;
      } else {
        assert rows[w][at].off + rows[w][at].size <= rows[w][k].off;
      }
    } else if i < w {
      assert base[i] + size <= base[w] || base[w] + size <= base[i];
    } else {
      assert base[i] + size <= base[w] || base[w] + size <= base[i];
    }
  }

  lemma NodeTakesBytes(n: Node)
    requires !n.BoxNode?
    ensures NodeBytes(n) > 0
  {
  }

  /** A block just handed out belongs to shared memory and holds no node. */
  lemma ServedUnused(base: seq<nat>, size: nat, rows: seq<seq<Tile>>, rows': seq<seq<Tile>>, w: nat, n: nat, at: nat,
        h: Heap)
    requires Apart(base, size) && Tiled(rows, size) && |rows| == |base| && Served(rows, rows', w, n, at)
    requires ShmClosed(h, Region(base, size)) && Backed(base, size, rows, h)
    ensures
      var p := base[w] + rows[w][at].off + BLOCK;
      BlockIn(Region(base, size), p, n) && forall q :: p <= q < p + n ==> q !in h
  {
    var r, p := Region(base, size), base[w] + rows[w][at].off + BLOCK;
    TileInside(rows[w], FIRST_BLOCK, size - 2 * BLOCK, at);
    forall q | p <= q < p + n ensures r.Contains(q) {
      assert base[w] <= q < base[w] + size;
    }
    forall q | q in h && r.Contains(q) ensures q < p || p + n <= q {
      assert ShmNode(r, q, h[q]);
      NodeTakesBytes(h[q]);
      var i, t :| Houses(base, rows, i, t, q, q + NodeBytes(h[q]));
      HousedOutside(base, size, rows, w, at, i, t, q, q + NodeBytes(h[q]));
    }
  }

  /** With the new nodes in the new block, every node is backed again. */
  lemma ServedBacked(base: seq<nat>, size: nat, rows: seq<seq<Tile>>, rows': seq<seq<Tile>>, w: nat, n: nat, at: nat,
        h: Heap, h': Heap)
    requires |rows| == |base| && Served(rows, rows', w, n, at) && Backed(base, size, rows, h)
    requires Extends(h, h')
    requires AddedIn(h, h', base[w] + rows[w][at].off + BLOCK + ENTRY, base[w] + rows[w][at].off + BLOCK + n)
    ensures Backed(base, size, rows', h')
  {
    forall p | p in h' && Region(base, size).Contains(p)
      ensures Housed(base, rows', p, p + NodeBytes(h'[p]))
    {
      if p in h {
        var i, t :| Houses(base, rows, i, t, p, p + NodeBytes(h[p]));
        ServedKeeps(rows, rows', w, n, at, i, t);
        assert Houses(base, rows', i, t, p, p + NodeBytes(h'[p]));
      } else {
        ServedAdds(rows, rows', w, n, at);
        assert Houses(base, rows', w, ServedTile(rows, w, n, at), p, p + NodeBytes(h'[p]));
      }
    }
  }

  /** Giving back a block just handed out restores every row. */
  lemma ServedUndone(base: seq<nat>, size: nat, rows: seq<seq<Tile>>, rows': seq<seq<Tile>>, w: nat, n: nat, at: nat)
    requires Tiled(rows, size) && |rows| == |base| && Served(rows, rows', w, n, at)
    ensures |rows'| == |rows| && at < |rows'[w]| && !rows'[w][at].free && rows'[w][at].off == rows[w][at].off
    ensures rows'[w := FreeAt(rows'[w], at)] == rows
  {
    var ts, need, split := rows[w], Need(n), Splits(rows[w][at], Need(n), MIN_BLOCK);
    SpliceAt(ts, at, at + 1, Taken(ts[at], need, split), at);
    FreeUndoesAlloc(ts, FIRST_BLOCK, size - 2 * BLOCK, at, need, split);
  }

  /** The block lies in one segment only. */
  lemma OneSegment(base: seq<nat>, size: nat, rows: seq<seq<Tile>>, w: nat, at: nat)
    requires Apart(base, size) && Tiled(rows, size) && w < |rows| == |base| && at < |rows[w]|
    ensures
      var p := base[w] + rows[w][at].off + BLOCK;
      base[w] <= p < base[w] + size && forall i :: 0 <= i < |base| && base[i] <= p < base[i] + size ==> i == w
  {
    TileInside(rows[w], FIRST_BLOCK, size - 2 * BLOCK, at);
    assert LookAtLayout(0);
  }
}
