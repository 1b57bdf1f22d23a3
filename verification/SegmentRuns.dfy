/** Whole runs of one segment: what any sequence of requests and releases keeps. */
module SegmentRuns {
  import opened Sequences
  import opened Focus
  import opened Layout
  import opened Tiles
  import opened FreeList
  import opened Headers
  import opened Segment

  /** A request for bytes, or the release of the `k`-th block still held. */
  datatype Request = Malloc(n: nat) | Free(k: nat)

  /** `live` lists, once each, the payload offsets of the allocated blocks. */
  ghost predicate Holds(ts: seq<Tile>, live: seq<nat>) {
    && Distinct(live)
    && (forall p :: p in live ==> p >= BLOCK)
    && (forall o: nat {:trigger Has(ts, o, false)} :: o + BLOCK in live <==> Has(ts, o, false))
  }

  lemma UsedTile(ts: seq<Tile>, i: nat, o: nat)
    requires i < |ts|
    ensures Has(ts[i..i + 1], o, false) <==> !ts[i].free && ts[i].off == o
  {
  }

  lemma AllocHeld(ts: seq<Tile>, lo: nat, hi: nat, i: nat, need: nat, split: bool, live: seq<nat>)
    requires WellTiled(ts, lo, hi) && i < |ts| && ts[i].free && (split ==> need <= ts[i].size)
    requires Holds(ts, live)
    ensures Holds(AllocAt(ts, i, need, split), live + [ts[i].off + BLOCK])
  {
    var mid, live' := Taken(ts[i], need, split), live + [ts[i].off + BLOCK];
    assert !Has(ts, ts[i].off, false) by {
      forall k | 0 <= k < |ts| && ts[k].off == ts[i].off ensures ts[k].free {
        SameOffset(ts, i, k);
      }
    }
    forall o: nat ensures o + BLOCK in live' <==> Has(AllocAt(ts, i, need, split), o, false) {
      HasOutside(ts, i, i + 1, mid, o, false);
      UsedTile(ts, i, o);
      assert mid[0].off == ts[i].off && !mid[0].free;
      assert live'[|live|] == ts[i].off + BLOCK;
    }
  }

  lemma FreeHeld(ts: seq<Tile>, lo: nat, hi: nat, i: nat, live: seq<nat>, k: nat)
    requires WellTiled(ts, lo, hi) && i < |ts| && !ts[i].free
    requires Holds(ts, live) && k < |live| && live[k] == ts[i].off + BLOCK
    ensures Holds(FreeAt(ts, i), live[..k] + live[k + 1..])
  {
    var a, b, rest := MergeLo(ts, i), MergeHi(ts, i), live[..k] + live[k + 1..];
    forall o: nat ensures o + BLOCK in rest <==> Has(FreeAt(ts, i), o, false) {
      HasOutside(ts, a, b, [Merged(ts, i)], o, false);
      OneUsedInRun(ts, i, o);
      StillHeld(live, k, o + BLOCK);
    }
    forall p | p in rest ensures p >= BLOCK {
      StillHeld(live, k, p);
    }
  }

  lemma OneUsedInRun(ts: seq<Tile>, i: nat, o: nat)
    requires i < |ts| && !ts[i].free
    ensures Has(ts[MergeLo(ts, i)..MergeHi(ts, i)], o, false) <==> o == ts[i].off
  {
  }

  lemma StillHeld(live: seq<nat>, k: nat, p: nat)
    requires k < |live| && Distinct(live)
    ensures p in live[..k] + live[k + 1..] <==> p in live && p != live[k]
  {
  }

  /** The tile behind a held payload. */
  lemma HeldTile(ts: seq<Tile>, live: seq<nat>, k: nat) returns (i: nat)
    requires Holds(ts, live) && k < |live|
    ensures i < |ts| && !ts[i].free && ts[i].off + BLOCK == live[k]
  {
    assert live[k] in live;
    assert Has(ts, live[k] - BLOCK, false);
    i :| 0 <= i < |ts| && !ts[i].free && ts[i].off == live[k] - BLOCK;
  }

  /** Blocks do not overlap, and stay between the sentinels. */
  lemma HeldApart(ts: seq<Tile>, lo: nat, hi: nat, i: nat, k: nat)
    requires WellTiled(ts, lo, hi) && i < |ts| && k < |ts| && i != k
    ensures ts[i].off + ts[i].size <= ts[k].off || ts[k].off + ts[k].size <= ts[i].off
    ensures lo <= ts[i].off && ts[i].off + ts[i].size <= hi
  {
  }

  // ---- what the holders of blocks may rely on ----

  /** An allocated block has `n` bytes from offset `p` on. */
  ghost predicate Serves(ts: seq<Tile>, p: nat, n: nat) {
    exists t :: t in ts && !t.free && t.off + BLOCK == p && p + n <= t.off + t.size
  }

  /** Every block still held has the bytes that were asked for. */
  ghost predicate AllServed(ts: seq<Tile>, live: seq<nat>, asked: seq<nat>) {
    && |live| == |asked|
    && forall z {:trigger LookAtSlots(z)} :: LookAtSlots(z) ==>
      forall j {:trigger live[j]} :: 0 <= j < |live| ==> Serves(ts, live[j], asked[j])
  }

  lemma AllocServes(ts: seq<Tile>, i: nat, need: nat, split: bool, live: seq<nat>, asked: seq<nat>, n: nat)
    requires i < |ts| && ts[i].free && (split ==> need <= ts[i].size) && n + BLOCK <= if split then need else ts[i].size
    requires AllServed(ts, live, asked)
    ensures AllServed(AllocAt(ts, i, need, split), live + [ts[i].off + BLOCK], asked + [n])
  {
    assert LookAtSlots(0);
    var ts', live', asked' := AllocAt(ts, i, need, split), live + [ts[i].off + BLOCK], asked + [n];
    forall j | 0 <= j < |live'| ensures Serves(ts', live'[j], asked'[j]) {
      if j < |live| {
        assert Serves(ts, live[j], asked[j]);
        var t :| t in ts && !t.free && t.off + BLOCK == live[j] && live[j] + asked[j] <= t.off + t.size;
        var k :| 0 <= k < |ts| && ts[k] == t;
        assert t in (if k < i then ts[..i] else ts[i + 1..]);
        assert t in ts';
      } else {
        assert Taken(ts[i], need, split)[0] in ts';
      }
    }
  }

  lemma FreeServes(ts: seq<Tile>, i: nat, live: seq<nat>, asked: seq<nat>, k: nat)
    requires i < |ts| && !ts[i].free && k < |live| && live[k] == ts[i].off + BLOCK && Distinct(live)
    requires AllServed(ts, live, asked)
    ensures AllServed(FreeAt(ts, i), live[..k] + live[k + 1..], asked[..k] + asked[k + 1..])
  {
    assert LookAtSlots(0);
    var live', asked' := live[..k] + live[k + 1..], asked[..k] + asked[k + 1..];
    forall j | 0 <= j < |live'| ensures Serves(FreeAt(ts, i), live'[j], asked'[j]) {
      var j0 := if j < k then j else j + 1;
      assert live'[j] == live[j0] && asked'[j] == asked[j0];
      assert Serves(ts, live[j0], asked[j0]);
      var t :| t in ts && !t.free && t.off + BLOCK == live[j0] && live[j0] + asked[j0] <= t.off + t.size;
      var l :| 0 <= l < |ts| && ts[l] == t;
      assert l < MergeLo(ts, i) || l >= MergeHi(ts, i);
      assert t in (if l < i then ts[..MergeLo(ts, i)] else ts[MergeHi(ts, i)..]);
    }
  }

  /** No two holders' bytes overlap, and all lie between the sentinels. */
  ghost predicate HoldersApart(live: seq<nat>, asked: seq<nat>, lo: nat, hi: nat) {
    && |live| == |asked|
    && (forall j {:trigger live[j]} :: 0 <= j < |live| ==> lo + BLOCK <= live[j] && live[j] + asked[j] <= hi)
    && (forall j, k {:trigger live[j], live[k]} :: 0 <= j < |live| && 0 <= k < |live| && j != k ==>
      live[j] + asked[j] <= live[k] || live[k] + asked[k] <= live[j])
  }

  lemma ServedApart(ts: seq<Tile>, lo: nat, hi: nat, live: seq<nat>, asked: seq<nat>)
    requires WellTiled(ts, lo, hi) && Distinct(live) && AllServed(ts, live, asked)
    ensures HoldersApart(live, asked, lo, hi)
  {
    forall j | 0 <= j < |live| ensures lo + BLOCK <= live[j] && live[j] + asked[j] <= hi {
      var i := ServingTile(ts, live, asked, j);
      TileInside(ts, lo, hi, i);
    }
    forall j, k | 0 <= j < |live| && 0 <= k < |live| && j != k
      ensures live[j] + asked[j] <= live[k] || live[k] + asked[k] <= live[j]
    {
      var i := ServingTile(ts, live, asked, j);
      var l := ServingTile(ts, live, asked, k);
      assert live[j] != live[k];
      HeldApart(ts, lo, hi, i, l);
    }
  }

  lemma ServingTile(ts: seq<Tile>, live: seq<nat>, asked: seq<nat>, j: nat) returns (i: nat)
    requires AllServed(ts, live, asked) && j < |live|
    ensures i < |ts| && !ts[i].free && ts[i].off + BLOCK == live[j] && live[j] + asked[j] <= ts[i].off + ts[i].size
  {
    assert LookAtSlots(0);
    assert Serves(ts, live[j], asked[j]);
    var t :| t in ts && !t.free && t.off + BLOCK == live[j] && live[j] + asked[j] <= t.off + t.size;
    i :| 0 <= i < |ts| && ts[i] == t;
  }

  // ---- runs ----

  /** The row and its holders at one moment of a run. */
  datatype Moment = Moment(tiles: seq<Tile>, live: seq<nat>, asked: seq<nat>)

  /** Free block `at` serves `n` bytes, and its payload joins the blocks held. */
  ghost predicate TakenAt(m: Moment, m': Moment, n: nat, fragment: nat, at: nat) {
    && at < |m.tiles| && m.tiles[at].free && Need(n) <= m.tiles[at].size
    && m'.tiles == AllocAt(m.tiles, at, Need(n), m.tiles[at].size >= Need(n) + MIN_BLOCK + fragment)
    && m'.live == m.live + [m.tiles[at].off + BLOCK] && m'.asked == m.asked + [n]
  }

  /** The `k`-th block held is given back. */
  ghost predicate ReleasedAt(m: Moment, m': Moment, k: nat, at: nat) {
    && at < |m.tiles| && !m.tiles[at].free && k < |m.live| && k < |m.asked| && m.live[k] == m.tiles[at].off + BLOCK
    && m'.tiles == FreeAt(m.tiles, at)
    && m'.live == m.live[..k] + m.live[k + 1..] && m'.asked == m.asked[..k] + m.asked[k + 1..]
  }

  /** A request is served unless no block fits it; a release takes back the block meant, and no other. */
  ghost predicate Answered(q: Request, m: Moment, m': Moment, fragment: nat) {
    match q
    case Malloc(n) =>
      if NoneFits(m.tiles, Need(n)) then m' == m
      else exists at: nat {:trigger TakenAt(m, m', n, fragment, at)} :: TakenAt(m, m', n, fragment, at)
    case Free(k) =>
      if k < |m.live| then exists at: nat {:trigger ReleasedAt(m, m', k, at)} :: ReleasedAt(m, m', k, at)
      else m' == m
  }

  /** What a run keeps between requests. */
  ghost predicate InHand(s: Segment, m: Moment)
    reads s
  {
    s.Valid() && s.tiles == m.tiles && Holds(m.tiles, m.live) && AllServed(m.tiles, m.live, m.asked)
  }

  method Take(s: Segment, n: nat, fragment: nat, live: seq<nat>, asked: seq<nat>)
    returns (live': seq<nat>, asked': seq<nat>)
    requires InHand(s, Moment(s.tiles, live, asked)) && n + BLOCK + WORD <= SIZE_LIMIT
    modifies s
    ensures InHand(s, Moment(s.tiles, live', asked'))
    ensures Answered(Malloc(n), Moment(old(s.tiles), live, asked), Moment(s.tiles, live', asked'), fragment)
  {
    ghost var ts := s.tiles;
    s.RowTiled();
    live', asked' := live, asked;
    var r;
    ghost var at;
    r, at := s.Allocate(n, fragment);
    if r.Got? {
      AllocHeld(ts, FIRST_BLOCK, s.End(), at, Need(n), Splits(ts[at], Need(n), fragment), live);
      AllocServes(ts, at, Need(n), Splits(ts[at], Need(n), fragment), live, asked, n);
      live', asked' := live + [r.offset], asked + [n];
      assert TakenAt(Moment(ts, live, asked), Moment(s.tiles, live', asked'), n, fragment, at);
    }
  }

  method GiveBack(s: Segment, k: nat, fragment: nat, live: seq<nat>, asked: seq<nat>)
    returns (live': seq<nat>, asked': seq<nat>)
    requires InHand(s, Moment(s.tiles, live, asked))
    modifies s
    ensures InHand(s, Moment(s.tiles, live', asked'))
    ensures Answered(Free(k), Moment(old(s.tiles), live, asked), Moment(s.tiles, live', asked'), fragment)
  {
    ghost var ts := s.tiles;
    s.RowTiled();
    live', asked' := live, asked;
    if k < |live| {
      ghost var at := HeldTile(ts, live, k);
      var freed := s.Deallocate(live[k], at);
      FreeHeld(ts, FIRST_BLOCK, s.End(), at, live, k);
      FreeServes(ts, at, live, asked, k);
      live', asked' := live[..k] + live[k + 1..], asked[..k] + asked[k + 1..];
      assert ReleasedAt(Moment(ts, live, asked), Moment(s.tiles, live', asked'), k, at);
    }
  }

  /**
   * Any run of requests from a fresh segment keeps the segment invariant, loses no byte, and leaves
   * allocated exactly the blocks the callers still hold: each has the bytes that were asked for, and they
   * overlap those of no other. Along the run every request for bytes is served unless no block fits it, and every
   * release takes back the block it means.
   */
  method Run(segsize: nat, fragment: nat, requests: seq<Request>)
    returns (s: Segment, live: seq<nat>, asked: seq<nat>, ghost log: seq<Moment>)
    requires segsize >= HEADER + 4 * BLOCK
    requires forall n: nat :: Malloc(n) in requests ==> n + BLOCK + WORD <= SIZE_LIMIT
    ensures s.Valid() && s.size == segsize
    ensures Holds(s.tiles, live) && HoldersApart(live, asked, FIRST_BLOCK, s.End())
    ensures s.avail == FreeBytes(s.tiles) + BLOCK
    ensures s.avail + UsedBytes(s.tiles) == segsize - HEADER - 2 * BLOCK
    ensures |log| == |requests| + 1 && log[|requests|] == Moment(s.tiles, live, asked)
    ensures log[0] == Moment([Tile(FIRST_BLOCK, segsize - HEADER - 3 * BLOCK, true)], [], [])
    ensures forall c :: 0 <= c < |requests| ==> Answered(requests[c], log[c], log[c + 1], fragment)
  {
    s := new Segment(segsize);
    live, asked := [], [];
    log := [Moment(s.tiles, live, asked)];
    for c := 0 to |requests|
      invariant fresh(s) && s.size == segsize && InHand(s, Moment(s.tiles, live, asked))
      invariant |log| == c + 1 && log[c] == Moment(s.tiles, live, asked)
      invariant log[0] == Moment([Tile(FIRST_BLOCK, segsize - HEADER - 3 * BLOCK, true)], [], [])
      invariant forall d :: 0 <= d < c ==> Answered(requests[d], log[d], log[d + 1], fragment)
    {
      match requests[c] {
        case Malloc(n) =>
          assert requests[c] in requests;
          live, asked := Take(s, n, fragment, live, asked);
        case Free(k) =>
          live, asked := GiveBack(s, k, fragment, live, asked);
      }
      log := log + [Moment(s.tiles, live, asked)];
    }
    s.RowTiled();
    ServedApart(s.tiles, FIRST_BLOCK, s.End(), live, asked);
    BytesTotal(s.tiles, FIRST_BLOCK, s.End());
  }

  lemma AllocUndone(m: Memory, avail: nat, ts: seq<Tile>, fl: seq<nat>, hi: nat, i: nat, need: nat, split: bool)
    requires Kept(m, avail, ts, fl, hi) && i < |ts| && ts[i].free && (split ==> need <= ts[i].size)
    ensures
      var ts' := AllocAt(ts, i, need, split);
      && i < |ts'| && !ts'[i].free && ts'[i].off == ts[i].off && ts'[i].size == (if split then need else ts[i].size)
      && FreeAt(ts', i) == ts
  {
    assert LookInside(0);
    SpliceAt(ts, i, i + 1, Taken(ts[i], need, split), i);
    FreeUndoesAlloc(ts, FIRST_BLOCK, hi, i, need, split);
  }

  /** Taking a block and giving it straight back changes neither the row of blocks nor the bytes available. */
  method AllocateThenFree(s: Segment, n: nat, fragment: nat)
    requires s.Valid() && n + BLOCK + WORD <= SIZE_LIMIT
    modifies s
    ensures s.Valid()
    ensures s.tiles == old(s.tiles) && s.avail == old(s.avail)
  {
    ghost var m, ts, fl, avail := s.blocks, s.tiles, s.list, s.avail;
    var r;
    ghost var at;
    r, at := s.Allocate(n, fragment);
    if r.Got? {
      AllocUndone(m, avail, ts, fl, s.End(), at, Need(n), Splits(ts[at], Need(n), fragment));
      var freed := s.Deallocate(r.offset, at);
    }
  }
}
