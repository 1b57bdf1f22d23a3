/** The allocator's books over whole runs: what is allocated is what was at the start, and the blocks of entries. */
module WorldBlocks {
  import opened Focus
  import opened Layout
  import opened Tiles
  import opened FreeList
  import opened Segment
  import opened Pool
  import opened Values
  import opened Housing
  import opened Ownership
  import opened Protocol
  import opened Invariants
  import opened Safety
  import opened Publishing
  import opened Runs
  import opened Reclaiming
  import opened Worlds
  import opened WorldSafety
  import opened WorldRuns

  // ---- rows ----

  /** Tile `t` of segment `i` is allocated. */
  predicate Used(rows: seq<seq<Tile>>, i: nat, t: Tile) {
    i < |rows| && t in rows[i] && !t.free
  }

  /** The address handed out with tile `t` of segment `i`. */
  function Address(a: Arena, i: nat, t: Tile): Ptr {
    if i < |a.base| then a.base[i] + t.off + BLOCK else 0
  }

  lemma RowTakes(ts: seq<Tile>, at: nat, need: nat, split: bool, t: Tile)
    requires at < |ts| && ts[at].free && need <= ts[at].size && !t.free
    ensures t in AllocAt(ts, at, need, split) <==> t in ts || t == Taken(ts[at], need, split)[0]
  {
    var mid := Taken(ts[at], need, split);
    if t in ts {
      var k :| 0 <= k < |ts| && ts[k] == t;
      assert t in (if k < at then ts[..at] else ts[at + 1..]);
    }
    assert mid[0] in mid;
  }

  lemma RowReleases(ts: seq<Tile>, at: nat, t: Tile)
    requires at < |ts| && !ts[at].free && Ordered(ts) && BigEnough(ts) && !t.free
    ensures t in FreeAt(ts, at) <==> t in ts && t != ts[at]
  {
    var lo, hi := MergeLo(ts, at), MergeHi(ts, at);
    if t in ts && t != ts[at] {
      var k :| 0 <= k < |ts| && ts[k] == t;
      assert k < lo || k >= hi;
      assert t in (if k < lo then ts[..lo] else ts[hi..]);
    }
    if t in FreeAt(ts, at) {
      assert t in ts[..lo] || t in ts[hi..];
      var k :| 0 <= k < |ts| && ts[k] == t && (k < lo || k >= hi);
      SameOffset(ts, k, at);
    }
  }

  /** Allocated tiles at the same address are the same. */
  lemma SameAddress(a: Arena, rows: seq<seq<Tile>>, i: nat, t: Tile, i': nat, t': Tile)
    requires Apart(a.base, a.size) && Tiled(rows, a.size) && |rows| == |a.base|
    requires i < |rows| && t in rows[i] && i' < |rows| && t' in rows[i'] && Address(a, i, t) == Address(a, i', t')
    ensures i == i' && t == t'
  {
    var k :| 0 <= k < |rows[i]| && rows[i][k] == t;
    var k' :| 0 <= k' < |rows[i']| && rows[i'][k'] == t';
    if i != i' || k != k' {
      TilesDisjoint(a.base, a.size, rows, i, k, i', k');
    }
  }

  // ---- a row is determined by its allocated tiles ----

  ghost predicate SameUsed(ts: seq<Tile>, ts': seq<Tile>) {
    forall t: Tile {:trigger t in ts} {:trigger t in ts'} :: !t.free ==> (t in ts <==> t in ts')
  }

  /** A free tile of one row is no longer than the one that starts there in the other. */
  lemma FreeReaches(ts: seq<Tile>, ts': seq<Tile>, lo: nat, hi: nat, k: nat)
    requires WellTiled(ts, lo, hi) && WellTiled(ts', lo, hi) && SameUsed(ts, ts')
    requires k < |ts| && k < |ts'| && ts[k].free && ts'[k].free && ts[k].off == ts'[k].off
    ensures ts'[k].size <= ts[k].size
  {
    TileInside(ts', lo, hi, k);
    if k + 1 < |ts| {
      assert Adjacent(k, k + 1);
      var m := SameUsedAt(ts, ts', k + 1);
      assert m != k;
    }
  }

  lemma SameUsedAt(ts: seq<Tile>, ts': seq<Tile>, k: nat) returns (m: nat)
    requires SameUsed(ts, ts') && k < |ts| && !ts[k].free
    ensures m < |ts'| && ts'[m] == ts[k]
  {
    assert ts[k] in ts && ts[k] in ts';
    m :| 0 <= m < |ts'| && ts'[m] == ts[k];
  }

  lemma SameTile(ts: seq<Tile>, ts': seq<Tile>, lo: nat, hi: nat, k: nat)
    requires WellTiled(ts, lo, hi) && WellTiled(ts', lo, hi) && SameUsed(ts, ts')
    requires k < |ts| && k < |ts'| && ts[k].off == ts'[k].off
    ensures ts[k] == ts'[k]
  {
    if !ts[k].free {
      var m := SameUsedAt(ts, ts', k);
      SameOffset(ts', m, k);
    } else if !ts'[k].free {
      var m := SameUsedAt(ts', ts, k);
      SameOffset(ts, m, k);
    } else {
      FreeReaches(ts, ts', lo, hi, k);
      FreeReaches(ts', ts, lo, hi, k);
    }
  }

  lemma {:induction false} SameUpTo(ts: seq<Tile>, ts': seq<Tile>, lo: nat, hi: nat, k: nat)
    requires WellTiled(ts, lo, hi) && WellTiled(ts', lo, hi) && SameUsed(ts, ts') && k <= |ts|
    ensures k <= |ts'| && ts[..k] == ts'[..k]
    decreases k
  {
    if k > 0 {
      SameUpTo(ts, ts', lo, hi, k - 1);
      TileInside(ts, lo, hi, k - 1);
      if k > 1 {
        assert Adjacent(k - 2, k - 1);
        assert ts[k - 2] == ts[..k - 1][k - 2] == ts'[..k - 1][k - 2] == ts'[k - 2];
      }
      SameTile(ts, ts', lo, hi, k - 1);
      assert ts[..k] == ts[..k - 1] + [ts[k - 1]] && ts'[..k] == ts'[..k - 1] + [ts'[k - 1]];
    }
  }

  /** Rows with the same allocated tiles are the same: free ones fill the gaps, one to each. */
  lemma SameRow(ts: seq<Tile>, ts': seq<Tile>, lo: nat, hi: nat)
    requires WellTiled(ts, lo, hi) && WellTiled(ts', lo, hi) && SameUsed(ts, ts')
    ensures ts == ts'
  {
    SameUpTo(ts, ts', lo, hi, |ts|);
    SameUpTo(ts', ts, lo, hi, |ts'|);
    assert ts == ts[..|ts|] && ts' == ts'[..|ts'|];
  }

  // ---- the books ----

  /** What was allocated at the start still is; everything else that is allocated is a block of `held`. */
  ghost predicate Booked(a: Arena, start: seq<seq<Tile>>, rows: seq<seq<Tile>>, held: set<Ptr>) {
    && |rows| == |start|
    && (forall i: nat, t: Tile {:trigger Used(start, i, t)} :: Used(start, i, t) ==>
      Used(rows, i, t) && Address(a, i, t) !in held)
    && (forall i: nat, t: Tile {:trigger Used(rows, i, t)} :: Used(rows, i, t) ==>
      Used(start, i, t) || Address(a, i, t) in held)
  }

  /** Which tiles are allocated after a request was served. */
  lemma UsedAfterTake(rows: seq<seq<Tile>>, rows': seq<seq<Tile>>, i: nat, n: nat, at: nat, j: nat, t: Tile)
    requires Served(rows, rows', i, n, at)
    ensures Used(rows', j, t) <==> Used(rows, j, t) || (j == i && t == ServedTile(rows, i, n, at))
  {
    if j == i && !t.free {
      RowTakes(rows[i], at, Need(n), Splits(rows[i][at], Need(n), MIN_BLOCK), t);
    }
  }

  lemma TakeBooked(a: Arena, start: seq<seq<Tile>>, rows: seq<seq<Tile>>, rows': seq<seq<Tile>>, held: set<Ptr>,
        i: nat, n: nat, at: nat, e: Ptr)
    requires Apart(a.base, a.size) && Tiled(rows, a.size) && |rows| == |a.base| && Booked(a, start, rows, held)
    requires Served(rows, rows', i, n, at) && e == a.base[i] + rows[i][at].off + BLOCK
    ensures Booked(a, start, rows', held + {e})
  {
    forall j: nat, t: Tile | Used(start, j, t) ensures Used(rows', j, t) && Address(a, j, t) !in held + {e} {
      assert Used(rows, j, t);
      UsedAfterTake(rows, rows', i, n, at, j, t);
      if Address(a, j, t) == e {
        SameAddress(a, rows, j, t, i, rows[i][at]);
      }
    }
    forall j: nat, t: Tile | Used(rows', j, t) ensures Used(start, j, t) || Address(a, j, t) in held + {e} {
      UsedAfterTake(rows, rows', i, n, at, j, t);
    }
  }

  /** Which tiles are allocated after a release. */
  lemma UsedAfterRelease(rows: seq<seq<Tile>>, size: nat, i: nat, at: nat, j: nat, t: Tile)
    requires Tiled(rows, size) && i < |rows| && at < |rows[i]| && !rows[i][at].free
    ensures Used(rows[i := FreeAt(rows[i], at)], j, t) <==> Used(rows, j, t) && !(j == i && t == rows[i][at])
  {
    if j == i && !t.free {
      RowReleases(rows[i], at, t);
    }
  }

  lemma ReleaseBooked(a: Arena, start: seq<seq<Tile>>, rows: seq<seq<Tile>>, rows': seq<seq<Tile>>, held: set<Ptr>,
        i: nat, at: nat, e: Ptr)
    requires Apart(a.base, a.size) && Tiled(rows, a.size) && |rows| == |a.base| && Booked(a, start, rows, held)
    requires i < |rows| && at < |rows[i]| && !rows[i][at].free && e == a.base[i] + rows[i][at].off + BLOCK
    requires rows' == rows[i := FreeAt(rows[i], at)] && e in held
    ensures Booked(a, start, rows', held - {e})
  {
    forall j: nat, t: Tile | Used(start, j, t) ensures Used(rows', j, t) && Address(a, j, t) !in held - {e} {
      assert Used(rows, j, t);
      UsedAfterRelease(rows, a.size, i, at, j, t);
    }
    forall j: nat, t: Tile | Used(rows', j, t) ensures Used(start, j, t) || Address(a, j, t) in held - {e} {
      UsedAfterRelease(rows, a.size, i, at, j, t);
      if Address(a, j, t) == e {
        SameAddress(a, rows, j, t, i, rows[i][at]);
      }
    }
  }

  lemma TakesBooked(a: Arena, start: seq<seq<Tile>>, w: World, w': World, n: nat, e: Ptr)
    requires SoundWorld(a, w) && Takes(a, w, w', n, e) && Booked(a, start, w.rows, w.sizes.Keys)
    ensures Booked(a, start, w'.rows, w'.sizes.Keys)
  {
    var i: nat, at: nat :| Served(w.rows, w'.rows, i, n, at) && i < |a.base| &&
      e == a.base[i] + w.rows[i][at].off + BLOCK;
    TakeBooked(a, start, w.rows, w'.rows, w.sizes.Keys, i, n, at, e);
    assert w'.sizes.Keys == w.sizes.Keys + {e};
  }

  lemma GivesBackBooked(a: Arena, start: seq<seq<Tile>>, w: World, w': World, e: Ptr)
    requires SoundWorld(a, w) && GivesBack(a, w, w', e) && Booked(a, start, w.rows, w.sizes.Keys)
    ensures Booked(a, start, w'.rows, w'.sizes.Keys)
  {
    var i: nat, at: nat :| i < |w.rows| && i < |a.base| && at < |w.rows[i]| && !w.rows[i][at].free &&
      e == a.base[i] + w.rows[i][at].off + BLOCK && w'.rows == w.rows[i := FreeAt(w.rows[i], at)];
    ReleaseBooked(a, start, w.rows, w'.rows, w.sizes.Keys, i, at, e);
    assert w'.sizes.Keys == w.sizes.Keys - {e};
  }

  lemma EffectBooked(a: Arena, start: seq<seq<Tile>>, w: World, w': World, pc: PC, choice: Ptr)
    requires SoundWorld(a, w) && Effect(a, w, w', pc, choice) && Booked(a, start, w.rows, w.sizes.Keys)
    ensures Booked(a, start, w'.rows, w'.sizes.Keys)
  {
    if pc.Storing? && pc.at.Allocating? && choice != 0 {
      TakesBooked(a, start, w, w', pc.n, choice);
    } else if pc.Storing? && pc.at.Freeing? {
      GivesBackBooked(a, start, w, w', pc.e);
    }
  }

  lemma StepBooked(a: Arena, start: seq<seq<Tile>>, w: World, w': World)
    requires SoundWorld(a, w) && WorldStep(a, w, w') && Booked(a, start, w.rows, w.sizes.Keys)
    ensures Booked(a, start, w'.rows, w'.sizes.Keys)
  {
    if !Elsewhere(a, w, w') {
      var t: nat, choice: Ptr, call: Call :| Moves(a, w, w', t, choice, call);
      EffectBooked(a, start, w, w', w.s.pcs[t], choice);
    }
  }

  lemma {:induction false} RunBooked(a: Arena, trace: seq<World>, i: nat)
    requires WorldRun(a, trace) && i < |trace|
    ensures Booked(a, trace[0].rows, trace[i].rows, trace[i].sizes.Keys)
    decreases i
  {
    if i > 0 {
      RunBooked(a, trace, i - 1);
      assert SoundWorld(a, trace[i - 1]) by {
        WorldKeeps(a, trace, i - 1);
      }
      assert WorldGoes(a, trace, i - 1);
      StepBooked(a, trace[0].rows, trace[i - 1], trace[i]);
    }
  }

  // ---- blocks and entries ----

  lemma {:induction false} RunAccounts(a: Arena, trace: seq<World>, i: nat)
    requires WorldRun(a, trace) && i < |trace|
    ensures AllAccounted(trace[i].s)
    decreases i
  {
    if i > 0 {
      RunAccounts(a, trace, i - 1);
      WorldKeeps(a, trace, i - 1);
      assert WorldGoes(a, trace, i - 1);
      if !Elsewhere(a, trace[i - 1], trace[i]) {
        var t: nat, choice: Ptr, call: Call :| Moves(a, trace[i - 1], trace[i], t, choice, call);
        assert Step(trace[i - 1].s, trace[i].s);
        StepAccounts(trace[i - 1].s, trace[i].s);
      }
    }
  }

  ghost predicate AllIdle(s: State) {
    forall t :: 0 <= t < |s.pcs| ==> s.pcs[t].Idle?
  }

  /**
   * At every moment of every run what is allocated is what was allocated at the start, and one block of its own for
   * each bound entry and for each store under way that has taken one.
   */
  lemma AllocatedIs(a: Arena, trace: seq<World>, m: nat, i: nat, t: Tile)
    requires WorldRun(a, trace) && m < |trace|
    ensures Used(trace[0].rows, i, t) ==> Used(trace[m].rows, i, t)
    ensures Used(trace[m].rows, i, t) ==> Used(trace[0].rows, i, t) || Accounted(trace[m].s, Address(a, i, t))
  {
    RunBooked(a, trace, m);
    RunAccounts(a, trace, m);
    WorldKeeps(a, trace, m);
    assert LookAtSlots(0);
    if Used(trace[m].rows, i, t) && !Used(trace[0].rows, i, t) {
      assert Address(a, i, t) in trace[m].s.sh.mem;
    }
  }

  // ---- a rejected store costs nothing ----

  lemma TakeSpares(a: Arena, w: World, w': World, n: nat, e: Ptr, i: nat, t: Tile)
    requires Takes(a, w, w', n, e) && Used(w.rows, i, t)
    ensures Used(w'.rows, i, t)
  {
    var j: nat, at: nat :| Served(w.rows, w'.rows, j, n, at) && j < |a.base| &&
      e == a.base[j] + w.rows[j][at].off + BLOCK;
    UsedAfterTake(w.rows, w'.rows, j, n, at, i, t);
  }

  lemma ReleaseSpares(a: Arena, w: World, w': World, e: Ptr, i: nat, t: Tile)
    requires SoundWorld(a, w) && GivesBack(a, w, w', e) && Used(w.rows, i, t) && Address(a, i, t) != e
    ensures Used(w'.rows, i, t)
  {
    var j: nat, at: nat :| j < |w.rows| && j < |a.base| && at < |w.rows[j]| && !w.rows[j][at].free &&
      e == a.base[j] + w.rows[j][at].off + BLOCK && w'.rows == w.rows[j := FreeAt(w.rows[j], at)];
    UsedAfterRelease(w.rows, a.size, j, at, i, t);
  }

  lemma EffectSpares(a: Arena, w: World, w': World, pc: PC, choice: Ptr, i: nat, t: Tile)
    requires SoundWorld(a, w) && Effect(a, w, w', pc, choice) && Used(w.rows, i, t)
    requires pc.Storing? && pc.at.Freeing? ==> Address(a, i, t) != pc.e
    ensures Used(w'.rows, i, t)
  {
    if pc.Storing? && pc.at.Allocating? && choice != 0 {
      TakeSpares(a, w, w', pc.n, choice, i, t);
    } else if pc.Storing? && pc.at.Freeing? {
      ReleaseSpares(a, w, w', pc.e, i, t);
    }
  }

  lemma FreedUnbound(s: State, u: nat)
    requires Inv(s) && u < |s.pcs| && s.pcs[u].Storing? && s.pcs[u].at.Freeing?
    ensures !Linked(s.sh, s.pcs[u].e)
  {
    One(s, u);
  }

  /** The tile of a bound entry stays allocated. */
  lemma BoundTileStep(a: Arena, w: World, w': World, i: nat, t: Tile)
    requires SoundWorld(a, w) && Inv(w.s) && WorldStep(a, w, w')
    requires Used(w.rows, i, t) && Linked(w.s.sh, Address(a, i, t))
    ensures Used(w'.rows, i, t)
  {
    if !Elsewhere(a, w, w') {
      var u: nat, choice: Ptr, call: Call :| Moves(a, w, w', u, choice, call);
      if w.s.pcs[u].Storing? && w.s.pcs[u].at.Freeing? {
        FreedUnbound(w.s, u);
      }
      EffectSpares(a, w, w', w.s.pcs[u], choice, i, t);
    }
  }

  lemma BoundTileAt(a: Arena, trace: seq<World>, m: nat, i: nat, t: Tile)
    requires WorldRun(a, trace) && m + 1 < |trace|
    requires Used(trace[m].rows, i, t) && Linked(trace[m].s.sh, Address(a, i, t))
    ensures Used(trace[m + 1].rows, i, t)
  {
    assert SoundWorld(a, trace[m]) && Inv(trace[m].s) by {
      WorldKeeps(a, trace, m);
    }
    assert WorldGoes(a, trace, m);
    BoundTileStep(a, trace[m], trace[m + 1], i, t);
  }

  lemma {:induction false} BoundTile(a: Arena, trace: seq<World>, m: nat, l: nat, i: nat, t: Tile)
    requires WorldRun(a, trace) && m <= l < |trace|
    requires Used(trace[m].rows, i, t) && Linked(trace[m].s.sh, Address(a, i, t))
    ensures Used(trace[l].rows, i, t)
    decreases l
  {
    if m < l {
      BoundTile(a, trace, m, l - 1, i, t);
      BoundLasts(a, trace, m, l - 1, Address(a, i, t));
      BoundTileAt(a, trace, l - 1, i, t);
    }
  }

  /** While no call is under way, what is allocated beyond the start is the blocks of bound entries. */
  lemma IdleAllocated(a: Arena, trace: seq<World>, m: nat, i: nat, t: Tile)
    requires WorldRun(a, trace) && m < |trace| && AllIdle(trace[m].s) && Used(trace[m].rows, i, t)
    ensures Used(trace[0].rows, i, t) || Linked(trace[m].s.sh, Address(a, i, t))
  {
    AllocatedIs(a, trace, m, i, t);
    if !Used(trace[0].rows, i, t) {
      assert Accounted(trace[m].s, Address(a, i, t));
    }
  }

  /** The allocated tile of a bound entry. */
  lemma BoundHasTile(a: Arena, w: World, e: Ptr) returns (i: nat, t: Tile)
    requires WorldInv(a, w) && Linked(w.s.sh, e)
    ensures Used(w.rows, i, t) && Address(a, i, t) == e
  {
    assert e in w.sizes && HomeOf(a.base, w.rows, e, w.sizes[e]) by {
      assert LookAtSlots(0);
    }
    var k;
    i, k := HomeTile(a.base, w.rows, e, w.sizes[e]);
    t := w.rows[i][k];
  }

  lemma UsedLater(a: Arena, trace: seq<World>, m: nat, l: nat, i: nat, t: Tile)
    requires WorldRun(a, trace) && m <= l < |trace| && AllIdle(trace[m].s) && Used(trace[m].rows, i, t)
    ensures Used(trace[l].rows, i, t)
  {
    IdleAllocated(a, trace, m, i, t);
    if Used(trace[0].rows, i, t) {
      AllocatedIs(a, trace, l, i, t);
    } else {
      BoundTile(a, trace, m, l, i, t);
    }
  }

  lemma UsedBefore(a: Arena, trace: seq<World>, m: nat, l: nat, i: nat, t: Tile)
    requires WorldRun(a, trace) && m <= l < |trace| && AllIdle(trace[m].s) && AllIdle(trace[l].s)
    requires trace[l].s.sh.table == trace[m].s.sh.table && Used(trace[l].rows, i, t)
    ensures Used(trace[m].rows, i, t)
  {
    IdleAllocated(a, trace, l, i, t);
    if Used(trace[0].rows, i, t) {
      AllocatedIs(a, trace, m, i, t);
    } else {
      var e := Address(a, i, t);
      BoundBefore(a, trace, m, l, e);
      WorldKeeps(a, trace, m);
      var j, t' := BoundHasTile(a, trace[m], e);
      BoundTile(a, trace, m, l, j, t');
      WorldKeeps(a, trace, l);
      SameAddress(a, trace[l].rows, i, t, j, t');
    }
  }

  lemma BoundBefore(a: Arena, trace: seq<World>, m: nat, l: nat, e: Ptr)
    requires WorldRun(a, trace) && m <= l < |trace| && trace[l].s.sh.table == trace[m].s.sh.table
    requires Linked(trace[l].s.sh, e)
    ensures Linked(trace[m].s.sh, e)
  {
    WorldKeeps(a, trace, m);
    OldBinding(trace[m].s.sh, trace[l].s.sh.mem[e].key);
  }

  /**
   * Calls that bind nothing cost no memory: once none is under way and the bindings are what they were, the rows of
   * all segments are what they were, however many stores were turned down meanwhile and in whatever order.
   */
  lemma NothingCosts(a: Arena, trace: seq<World>, m: nat, l: nat)
    requires WorldRun(a, trace) && m <= l < |trace| && AllIdle(trace[m].s) && AllIdle(trace[l].s)
    requires trace[l].s.sh.table == trace[m].s.sh.table
    ensures trace[l].rows == trace[m].rows
  {
    var rows, rows' := trace[m].rows, trace[l].rows;
    assert Tiled(rows, a.size) && Tiled(rows', a.size) && |rows| == |rows'| by {
      WorldKeeps(a, trace, m);
      WorldKeeps(a, trace, l);
    }
    forall i | 0 <= i < |rows| ensures rows[i] == rows'[i] {
      forall t: Tile | !t.free ensures t in rows[i] <==> t in rows'[i] {
        if t in rows[i] {
          UsedLater(a, trace, m, l, i, t);
        }
        if t in rows'[i] {
          UsedBefore(a, trace, m, l, i, t);
        }
      }
      SameRow(rows[i], rows'[i], FIRST_BLOCK, a.size - 2 * BLOCK);
    }
  }

  // ---- why a store may get no block ----

  /** Thread `t` is in one call to store from moment `i`, when it has no block yet, to moment `j`. */
  ghost predicate OneStore(trace: seq<World>, t: nat, i: nat, j: nat) {
    && i <= j < |trace|
    && (forall l {:trigger trace[l]} :: i <= l <= j ==> t < |trace[l].s.pcs| && trace[l].s.pcs[t].Storing?)
    && trace[i].s.pcs[t].at.WantAlloc?
  }

  /** The allocator has just come up with nothing, or the call has ended for that reason. */
  predicate WithoutBlock(pc: PC) {
    pc.Storing? && pc.e == 0 && (pc.at.Allocated? || (pc.at.Returned? && !pc.ok))
  }

  lemma OwnWithout(sh: Shared, pc: PC, choice: Ptr)
    requires pc.Storing? && Ready(sh, pc) && |sh.chains| == |sh.slots| > 0 && StoreOk(sh, pc)
    requires WithoutBlock(StoreStep(sh, pc, choice).0) && !WithoutBlock(pc)
    ensures pc.at.Allocating? && choice == 0
  {
  }

  lemma WithoutMove(s: State, s': State, u: nat, choice: Ptr, call: Call, t: nat)
    requires Inv(s) && Steps(s, s', u, choice, call) && t < |s.pcs| && s.pcs[t].Storing? && s'.pcs[t].Storing?
    ensures s'.pcs[t].n == s.pcs[t].n
    ensures WithoutBlock(s'.pcs[t]) && !WithoutBlock(s.pcs[t]) ==> u == t && s.pcs[t].at.Allocating? && choice == 0
  {
    if u == t && WithoutBlock(s'.pcs[t]) && !WithoutBlock(s.pcs[t]) {
      One(s, t);
      OwnWithout(s.sh, s.pcs[t], choice);
    }
  }

  lemma WithoutStep(a: Arena, w: World, w': World, t: nat)
    requires Inv(w.s) && WorldStep(a, w, w') && t < |w.s.pcs| && t < |w'.s.pcs|
    requires w.s.pcs[t].Storing? && w'.s.pcs[t].Storing?
    ensures w'.s.pcs[t].n == w.s.pcs[t].n
    ensures WithoutBlock(w'.s.pcs[t]) && !WithoutBlock(w.s.pcs[t]) ==> SegmentFull(w.rows, w.s.pcs[t].n)
  {
    if !Elsewhere(a, w, w') {
      var u: nat, choice: Ptr, call: Call :| Moves(a, w, w', u, choice, call);
      assert Steps(w.s, w'.s, u, choice, call);
      WithoutMove(w.s, w'.s, u, choice, call, t);
    }
  }

  lemma WithoutAt(a: Arena, trace: seq<World>, m: nat, t: nat)
    requires WorldRun(a, trace) && m + 1 < |trace| && t < |trace[m].s.pcs| && t < |trace[m + 1].s.pcs|
    requires trace[m].s.pcs[t].Storing? && trace[m + 1].s.pcs[t].Storing?
    ensures trace[m + 1].s.pcs[t].n == trace[m].s.pcs[t].n
    ensures WithoutBlock(trace[m + 1].s.pcs[t]) && !WithoutBlock(trace[m].s.pcs[t]) ==>
      SegmentFull(trace[m].rows, trace[m].s.pcs[t].n)
  {
    assert Inv(trace[m].s) by {
      WorldKeeps(a, trace, m);
    }
    assert WorldGoes(a, trace, m);
    WithoutStep(a, trace[m], trace[m + 1], t);
  }

  /** A store that returns 0 for want of a block was told so while some segment had no block that fits. */
  lemma {:induction false} NoBlockMeansFull(a: Arena, trace: seq<World>, t: nat, i: nat, j: nat) returns (l: nat)
    requires WorldRun(a, trace) && OneStore(trace, t, i, j)
    ensures trace[j].s.pcs[t].n == trace[i].s.pcs[t].n
    ensures WithoutBlock(trace[j].s.pcs[t]) ==> i <= l < j && SegmentFull(trace[l].rows, trace[i].s.pcs[t].n)
    decreases j
  {
    l := i;
    if i < j {
      l := NoBlockMeansFull(a, trace, t, i, j - 1);
      WithoutAt(a, trace, j - 1, t);
      if !WithoutBlock(trace[j - 1].s.pcs[t]) {
        l := j - 1;
      }
    }
  }
}
