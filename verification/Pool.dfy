/** The allocator over several segments: immutable_cache_sma_malloc_ex, _free and _contains_pointer. */
module Pool {
  import opened Focus
  import opened Layout
  import opened Tiles
  import opened FreeList
  import opened Segment

  /** Address ranges that do not overlap and fit the address space. */
  ghost predicate Apart(base: seq<nat>, size: nat) {
    && (forall i :: 0 <= i < |base| ==> base[i] > 0 && base[i] + size <= SIZE_LIMIT)
    && (forall z {:trigger LookAtLayout(z)} :: LookAtLayout(z) ==>
      forall i, j :: 0 <= i < j < |base| ==> base[i] + size <= base[j] || base[j] + size <= base[i])
  }

  /** Every segment is tiled between its sentinels. */
  ghost predicate Tiled(rows: seq<seq<Tile>>, size: nat) {
    size >= HEADER + 4 * BLOCK && forall i :: 0 <= i < |rows| ==> WellTiled(rows[i], FIRST_BLOCK, size - 2 * BLOCK)
  }

  ghost predicate AllValid(segs: seq<Segment>)
    reads segs
  {
    forall z {:trigger LookAtLayout(z)} :: LookAtLayout(z) ==> forall i :: 0 <= i < |segs| ==> segs[i].Valid()
  }

  class Pool {
    const segs: seq<Segment>
    const base: seq<nat>  // address at which each segment is mapped
    const size: nat       // every data segment has the same size
    var last: nat         // segment that served the latest request

    /** The segments are mapped at ranges of their own. */
    ghost predicate Mapped() {
      && |segs| > 0 && |base| == |segs| && Apart(base, size)
      && (forall i, j :: 0 <= i < j < |segs| ==> segs[i] != segs[j])
      && (forall i :: 0 <= i < |segs| ==> segs[i].size == size)
    }

    ghost predicate Valid()
      reads this, segs
    {
      Mapped() && last < |segs| && AllValid(segs)
    }

    /** Address `p` lies in segment `i`. */
    predicate In(i: nat, p: nat)
      requires i < |base|
    {
      base[i] <= p < base[i] + size
    }

    /** The tilings of all segments. */
    ghost function Rows(): (r: seq<seq<Tile>>)
      reads segs
      ensures |r| == |segs| && forall i :: 0 <= i < |segs| ==> r[i] == segs[i].tiles
    {
      seq(|segs|, i requires 0 <= i < |segs| reads segs => segs[i].tiles)
    }

    /** immutable_cache_sma_init: one segment, with one empty block, at each address mapped. */
    constructor (base: seq<nat>, size: nat)
      requires |base| > 0 && Apart(base, size) && size >= HEADER + 4 * BLOCK
      ensures Valid() && this.base == base && this.size == size && last == 0
      ensures forall i :: 0 <= i < |segs| ==> fresh(segs[i]) && segs[i].avail == size - HEADER - 2 * BLOCK
      ensures forall i :: 0 <= i < |segs| ==> Rows()[i] == [Tile(FIRST_BLOCK, size - HEADER - 3 * BLOCK, true)]
    {
      var made: seq<Segment> := [];
      var i := 0;
      while i < |base|
        invariant i == |made| <= |base|
        invariant forall k :: 0 <= k < i ==>
          && fresh(made[k]) && made[k].Valid() && made[k].size == size
          && made[k].avail == size - HEADER - 2 * BLOCK &&
            made[k].tiles == [Tile(FIRST_BLOCK, size - HEADER - 3 * BLOCK, true)]
        invariant forall j, k :: 0 <= j < k < i ==> made[j] != made[k]
      {
        var s := new Segment(size);
        made := made + [s];
        i := i + 1;
      }
      this.base, this.size, segs, last := base, size, made, 0;
    }

    lemma RowsTiled()
      requires Valid()
      ensures Tiled(Rows(), size)
    {
      assert LookAtLayout(0) && segs[0].Valid();
      forall i | 0 <= i < |segs| ensures WellTiled(Rows()[i], FIRST_BLOCK, size - 2 * BLOCK) {
        segs[i].RowTiled();
      }
    }

    method TryIn(i: nat, n: nat) returns (p: nat, usable: nat, ghost at: nat)
      requires Valid() && i < |segs| && n + BLOCK + WORD <= SIZE_LIMIT
      modifies segs[i]
      ensures Valid()
      ensures p == 0 <==> NoneFits(old(Rows())[i], Need(n))
      ensures p == 0 ==> Rows() == old(Rows())
      ensures p != 0 ==> Served(old(Rows()), Rows(), i, n, at)
      ensures p != 0 ==> p == base[i] + old(Rows())[i][at].off + BLOCK && In(i, p)
      ensures p != 0 ==> n <= usable < n + (WORD - 1) + 2 * MIN_BLOCK
      ensures p != 0 ==>
        var ts, ts' := old(Rows())[i], Rows()[i];
        && (|ts'| == |ts| + 1 <==> ts[at].size >= Need(n) + MIN_BLOCK + MIN_BLOCK)
        && (|ts'| == |ts| + 1 ==> usable + BLOCK == Need(n) && ts'[at + 1].free && ts'[at + 1].size >= 2 * MIN_BLOCK)
        && (|ts'| != |ts| + 1 ==> |ts'| == |ts| && usable + BLOCK == ts[at].size)
    {
      assert LookAtLayout(0);
      var r;
      r, at := segs[i].Allocate(n, MIN_BLOCK);
      if r.Full? {
        return 0, 0, at;
      }
      p, usable := base[i] + r.offset, r.usable;
    }

    /** Another segment; one that serves is remembered. */
    method TryNext(i: nat, n: nat) returns (p: nat, usable: nat, ghost at: nat)
      requires Valid() && i < |segs| && n + BLOCK + WORD <= SIZE_LIMIT
      modifies this`last, segs[i]
      ensures Valid()
      ensures p == 0 <==> NoneFits(old(Rows())[i], Need(n))
      ensures p == 0 ==> last == old(last) && Rows() == old(Rows())
      ensures p != 0 ==> last == i && Served(old(Rows()), Rows(), i, n, at)
      ensures p != 0 ==> p == base[i] + old(Rows())[i][at].off + BLOCK && In(i, p)
      ensures p != 0 ==> n <= usable < n + (WORD - 1) + 2 * MIN_BLOCK
      ensures p != 0 ==>
        var ts, ts' := old(Rows())[i], Rows()[i];
        && (|ts'| == |ts| + 1 <==> ts[at].size >= Need(n) + MIN_BLOCK + MIN_BLOCK)
        && (|ts'| == |ts| + 1 ==> usable + BLOCK == Need(n) && ts'[at + 1].free && ts'[at + 1].size >= 2 * MIN_BLOCK)
        && (|ts'| != |ts| + 1 ==> |ts'| == |ts| && usable + BLOCK == ts[at].size)
    {
      p, usable, at := TryIn(i, n);
      if p != 0 {
        Remember(i);
      }
    }

    method Remember(i: nat)
      requires Valid() && i < |segs|
      modifies this`last
      ensures Valid() && last == i && Rows() == old(Rows())
    {
      last := i;
    }

    /** Tries the segment that served last, then the others in order; 0 (NULL) when none has room. */
    method MallocEx(n: nat) returns (p: nat, usable: nat, ghost which: nat, ghost at: nat)
      requires Valid() && n + BLOCK + WORD <= SIZE_LIMIT
      modifies this`last, segs
      ensures Valid()
      ensures p == 0 <==> forall i :: 0 <= i < |segs| ==> NoneFits(old(Rows())[i], Need(n))
      ensures p == 0 ==> last == old(last) && Rows() == old(Rows())
      ensures p != 0 ==> last == which && Served(old(Rows()), Rows(), which, n, at)
      ensures p != 0 && which != old(last) ==>
        NoneFits(old(Rows())[old(last)], Need(n)) && forall k :: 0 <= k < which ==> NoneFits(old(Rows())[k], Need(n))
      ensures p != 0 ==> p == base[which] + old(Rows())[which][at].off + BLOCK && In(which, p)
      ensures p != 0 ==> n <= usable < n + (WORD - 1) + 2 * MIN_BLOCK
      ensures p != 0 ==>
        var ts, ts' := old(Rows())[which], Rows()[which];
        && (|ts'| == |ts| + 1 <==> ts[at].size >= Need(n) + MIN_BLOCK + MIN_BLOCK)
        && (|ts'| == |ts| + 1 ==> usable + BLOCK == Need(n) && ts'[at + 1].free && ts'[at + 1].size >= 2 * MIN_BLOCK)
        && (|ts'| != |ts| + 1 ==> |ts'| == |ts| && usable + BLOCK == ts[at].size)
    {
      which := last;
      p, usable, at := TryIn(last, n);
      if p != 0 {
        return;
      }
      var i := 0;
      while i < |segs|
        invariant i <= |segs| && Valid() && p == 0 && last == old(last)
        invariant Rows() == old(Rows())
        invariant NoneFits(Rows()[last], Need(n))
        invariant forall k :: 0 <= k < i ==> NoneFits(Rows()[k], Need(n))
      {
        if i != last {
          p, usable, at := TryNext(i, n);
          which := i;
          if p != 0 {
            return;
          }
        }
        i := i + 1;
      }
    }

    /** Gives back the block at `p`; NULL and addresses outside every segment are ignored. */
    method Free(p: nat, ghost which: nat, ghost at: nat)
      requires Valid()
      requires forall i :: 0 <= i < |segs| && p != 0 && In(i, p) ==>
        which == i && at < |Rows()[i]| && !Rows()[i][at].free && p == base[i] + Rows()[i][at].off + BLOCK
      modifies segs
      ensures Valid()
      ensures Rows() ==
        if p != 0 && which < |segs| && In(which, p) then old(Rows())[which := FreeAt(old(Rows())[which], at)]
        else old(Rows())
    {
      if p == 0 {
        return;
      }
      var i := 0;
      while i < |segs|
        invariant i <= |segs| && Valid() && Rows() == old(Rows())
        invariant forall k :: 0 <= k < i ==> !In(k, p)
      {
        if base[i] <= p && p - base[i] < size {
          assert LookAtLayout(0) && In(i, p);
          var freed := segs[i].Deallocate(p - base[i], at);
          return;
        }
        i := i + 1;
      }
    }

    method ContainsPointer(p: nat) returns (b: bool)
      requires Valid()
      ensures b <==> exists i :: 0 <= i < |segs| && In(i, p)
    {
      var i := 0;
      while i < |segs|
        invariant i <= |segs| && forall k :: 0 <= k < i ==> !In(k, p)
      {
        if p >= base[i] && p < base[i] + size {
          assert In(i, p);
          return true;
        }
        i := i + 1;
      }
      return false;
    }
  }

  /** Segment `i` alone changed, by serving a request of `n` bytes at its tile `at`. */
  ghost predicate Served(rows: seq<seq<Tile>>, rows': seq<seq<Tile>>, i: nat, n: nat, at: nat) {
    && i < |rows| && at < |rows[i]| && rows[i][at].free && Need(n) <= rows[i][at].size
    && rows' == rows[i := AllocAt(rows[i], at, Need(n), Splits(rows[i][at], Need(n), MIN_BLOCK))]
  }
}
