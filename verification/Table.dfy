/** The hash table in shared memory: exclusive insertion, lookups with and without statistics, and the full walk. */
module Table {
  import opened Focus
  import opened Sequences
  import opened Tiles
  import opened Values
  import opened Chains

  /** Where the pointer being followed is stored: in the slot, or in the entry before. */
  datatype Link = InSlot | InEntry(p: Ptr)

  class Table {
    const slots: array<Ptr>
    const protect: bool  // memory protection is on, so readers must not write
    var heap: Heap
    var entries: Entries
    var nhits: nat
    var nmisses: nat
    var ninserts: nat
    var nentries: nat
    var memSize: nat
    ghost var chains: seq<seq<Ptr>>
    ghost var table: map<Bytes, Ptr>
    ghost var order: seq<Ptr>  // linked entries, oldest first

    ghost predicate Valid()
      reads this, slots
    {
      && slots.Length > 0 && |chains| == slots.Length
      && InOrder(heap, entries, slots[..], chains, table, order, Header())
    }

    ghost function Header(): Counters
      reads this
    {
      Counters(nhits, nmisses, ninserts, nentries, memSize)
    }

    /** An empty table in zeroed memory. */
    constructor (nslots: nat, protect: bool, heap: Heap)
      requires nslots > 0
      ensures Valid() && fresh(slots) && slots.Length == nslots && this.protect == protect
      ensures this.heap == heap && entries == map[] && table == map[] && order == []
      ensures Header() == Counters(0, 0, 0, 0, 0)
    {
      slots := new Ptr[nslots](_ => 0);
      this.protect, this.heap, entries := protect, heap, map[];
      nhits, nmisses, ninserts, nentries, memSize := 0, 0, 0, 0, 0;
      chains, table, order := seq(nslots, _ => []), map[], [];
      new;
      EmptyInOrder(this.heap, slots[..], chains);
    }

    predicate KeyEquals(e: Ptr, key: Bytes)
      requires e in entries && KeyReady(heap, entries[e])
      reads this
    {
      var k := heap[entries[e].key];
      k.hash == HashOf(key) && |k.bytes| == |key| && k.bytes == key
    }

    /** The chain of slot `s`. */
    lemma ChainHere(s: nat)
      requires Valid() && s < slots.Length
      ensures ChainOf(heap, entries, slots.Length, s, slots[s], chains[s])
    {
      assert LookAtState(0) && LookAtLayout(0);
    }

    /** A walk down chain `s` has come to position `i` without meeting `key`. */
    ghost predicate Walking(s: nat, i: nat, cur: Ptr, key: Bytes)
      requires s < |chains|
      reads this
    {
      && i <= |chains[s]| && cur == (if i < |chains[s]| then chains[s][i] else 0)
      && forall j :: 0 <= j < i ==> NameOf(heap, entries, chains[s][j]) != key
    }

    /** One step further. */
    lemma StepAlong(s: nat, i: nat, cur: Ptr, key: Bytes)
      requires Valid() && s < slots.Length && Walking(s, i, cur, key) && cur != 0
      ensures i < |chains[s]| && cur in entries && KeyReady(heap, entries[cur])
      ensures KeyEquals(cur, key) <==> NameOf(heap, entries, cur) == key
      ensures !KeyEquals(cur, key) ==> Walking(s, i + 1, entries[cur].next, key)
    {
      ChainHere(s);
      assert i + 1 < |chains[s]| ==> Adjacent(i, i + 1);
    }

    /** A walk that meets the key has found its binding; one that ends has found that there is none. */
    lemma WalkTells(s: nat, i: nat, cur: Ptr, key: Bytes)
      requires Valid() && s < slots.Length && s == SlotOf(key, slots.Length) && Walking(s, i, cur, key)
      ensures cur == 0 ==> key !in table
      ensures cur != 0 && NameOf(heap, entries, cur) == key ==> key in table && table[key] == cur
    {
      assert LookAtState(0) && LookAtLayout(0);
      ChainHere(s);
    }

    /** immutable_cache_cache_rlocked_find_nostat. */
    method RlockedFindNostat(key: Bytes) returns (e: Ptr)
      requires Valid()
      ensures e == if key in table then table[key] else 0
    {
      var s := HashOf(key) % slots.Length;
      e := slots[s];
      ghost var i := 0;
      ChainHere(s);
      while e != 0
        invariant Walking(s, i, e, key)
        modifies {}
        decreases |chains[s]| - i
      {
        StepAlong(s, i, e, key);
        if KeyEquals(e, key) {
          WalkTells(s, i, e, key);
          return;
        }
        e, i := entries[e].next, i + 1;
      }
      WalkTells(s, i, e, key);
    }

    /** immutable_cache_cache_rlocked_find: counts hits and misses, unless memory is protected. */
    method RlockedFind(key: Bytes, t: int) returns (e: Ptr)
      requires Valid()
      modifies this`entries, this`nhits, this`nmisses
      ensures Valid()
      ensures e == if key in table then table[key] else 0
      ensures protect ==> entries == old(entries) && nhits == old(nhits) && nmisses == old(nmisses)
      ensures !protect && key in table ==> nhits == old(nhits) + 1 && nmisses == old(nmisses)
      ensures key in table ==> e in old(entries)
      ensures !protect && key in table ==>
        entries == old(entries)[e := old(entries)[e].(nhits := old(entries)[e].nhits + 1, atime := t)]
      ensures !protect && key !in table ==>
        entries == old(entries) && nhits == old(nhits) && nmisses == old(nmisses) + 1
    {
      var s := HashOf(key) % slots.Length;
      e := slots[s];
      ghost var i := 0;
      ChainHere(s);
      while e != 0
        invariant Walking(s, i, e, key)
        modifies {}
        decreases |chains[s]| - i
      {
        StepAlong(s, i, e, key);
        if KeyEquals(e, key) {
          break;
        }
        e, i := entries[e].next, i + 1;
      }
      WalkTells(s, i, e, key);
      if e != 0 {
        if !protect {
          CountHit(e, t, key);
        }
      } else if !protect {
        CountMiss();
      }
    }

    /** The two increments and the access time of a hit. */
    method CountHit(e: Ptr, t: int, ghost key: Bytes)
      requires Valid() && key in table && table[key] == e && e in entries
      modifies this`entries, this`nhits
      ensures Valid() && nhits == old(nhits) + 1
      ensures entries == old(entries)[e := old(entries)[e].(nhits := old(entries)[e].nhits + 1, atime := t)]
    {
      ghost var es := entries[e := entries[e].(nhits := entries[e].nhits + 1, atime := t)];
      HitInOrder(heap, entries, slots[..], chains, table, order, Header(), key, t, es);
      nhits := nhits + 1;
      entries := entries[e := entries[e].(nhits := entries[e].nhits + 1)];
      entries := entries[e := entries[e].(atime := t)];
      assert entries == es && slots[..] == old(slots[..]) && Header() == old(Header()).(hits := nhits);
    }

    method CountMiss()
      requires Valid()
      modifies this`nmisses
      ensures Valid() && nmisses == old(nmisses) + 1
    {
      MissInOrder(heap, entries, slots[..], chains, table, order, Header(), nmisses + 1);
      nmisses := nmisses + 1;
    }

    /** immutable_cache_cache_stat: hits, access time and creation time. */
    method Stat(key: Bytes) returns (found: bool, hits: nat, atime: int, ctime: int)
      requires Valid()
      ensures found <==> key in table
      ensures found ==>
        && table[key] in entries && hits == entries[table[key]].nhits
        && atime == entries[table[key]].atime && ctime == entries[table[key]].ctime
    {
      var s := HashOf(key) % slots.Length;
      var e := slots[s];
      ghost var i := 0;
      ChainHere(s);
      while e != 0
        invariant Walking(s, i, e, key)
        modifies {}
        decreases |chains[s]| - i
      {
        StepAlong(s, i, e, key);
        if KeyEquals(e, key) {
          WalkTells(s, i, e, key);
          return true, entries[e].nhits, entries[e].atime, entries[e].ctime;
        }
        e, i := entries[e].next, i + 1;
      }
      WalkTells(s, i, e, key);
      return false, 0, 0, 0;
    }

    /** The list and the slot distribution of immutable_cache_cache_info. */
    method Info() returns (list: seq<Ptr>, distribution: map<nat, nat>)
      requires Valid()
      ensures list == Flat(chains, |chains|)
      ensures forall s {:trigger s in distribution} :: s in distribution <==> 0 <= s < |chains| && chains[s] != []
      ensures forall s {:trigger distribution[s]} :: s in distribution ==> distribution[s] == |chains[s]|
      ensures Unrepeated(list) && forall p :: p in list <==> p in order
    {
      list, distribution := [], map[];
      var i := 0;
      while i < slots.Length
        invariant i <= slots.Length == |chains| && list == Flat(chains, i)
        invariant forall s {:trigger s in distribution} :: s in distribution <==> 0 <= s < i && chains[s] != []
        invariant forall s {:trigger distribution[s]} :: s in distribution ==> distribution[s] == |chains[s]|
        modifies {}
      {
        var p := slots[i];
        var j := 0;
        ghost var before := list;
        ChainHere(i);
        while p != 0
          invariant j <= |chains[i]| && p == (if j < |chains[i]| then chains[i][j] else 0)
          invariant list == before + chains[i][..j]
          modifies {}
          decreases |chains[i]| - j
        {
          assert j + 1 < |chains[i]| ==> Adjacent(j, j + 1);
          list, p, j := list + [p], entries[p].next, j + 1;
        }
        if j != 0 {
          distribution := distribution[i := j];
        }
        assert chains[i][..j] == chains[i];
        i := i + 1;
      }
      assert LookAtState(0);
      FlatOnce(heap, entries, slots[..], chains, table, order, |chains|);
    }

    /** Entry `e` is not linked. */
    ghost predicate Loose(e: Ptr)
      reads this
    {
      LooseIn(heap, entries, chains, e)
    }

    /** A new entry in memory, not linked yet. */
    method Admit(h: Heap, at: Ptr, e: Entry)
      requires Valid() && at != 0 && at !in entries && KeyReady(h, e)
      requires KeysStay(heap, h, entries)
      modifies this`heap, this`entries
      ensures Valid() && heap == h && entries == old(entries)[at := e] && Loose(at)
    {
      AdmitInOrder(heap, entries, slots[..], chains, table, order, Header(), h, at, e, entries[at := e]);
      heap, entries := h, entries[at := e];
    }

    /** Memory elsewhere changes. */
    method ChangeElsewhere(h: Heap)
      requires Valid() && KeysStay(heap, h, entries)
      modifies this`heap
      ensures Valid() && heap == h
    {
      GrowInOrder(heap, entries, slots[..], chains, table, order, Header(), h);
      heap := h;
    }

    /** Entry `p` and the nodes of its block, [p, hi), are gone from memory; the table does not miss them. */
    method Discard(p: Ptr, hi: Ptr)
      requires slots.Length > 0 && |chains| == slots.Length
      requires InOrder(Without(heap, p, hi), Dropped(entries, p), slots[..], chains, table, order, Header())
      modifies this`heap, this`entries
      ensures Valid() && heap == Without(old(heap), p, hi) && entries == Dropped(old(entries), p)
    {
      heap, entries := Without(heap, p, hi), Dropped(entries, p);
    }

    /** immutable_cache_cache_wlocked_insert_exclusive. */
    method WlockedInsertExclusive(e: Ptr) returns (ok: bool)
      requires Valid() && Loose(e) && entries[e].nhits == 0
      modifies this`entries, this`ninserts, this`nentries, this`memSize, this`chains, this`table, this`order, slots
      ensures Valid()
      ensures ok <==> NameOf(heap, old(entries), e) !in old(table)
      ensures ok ==> table == old(table)[NameOf(heap, old(entries), e) := e] && order == old(order) + [e]
      ensures ok ==> chains == Tailed(old(chains), SlotOf(NameOf(heap, old(entries), e), slots.Length), e)
      ensures ok ==> nentries == old(nentries) + 1 && memSize == old(memSize) + old(entries)[e].memSize
      ensures ok ==> SameButLinks(old(entries), entries)
      ensures
        InsertsExclusive(heap, old(entries), entries, old(table), table, old(chains), chains, old(order), order,
                         old(Header()), Header(), e, ok)
      ensures !ok ==> entries == old(entries) && table == old(table) && chains == old(chains) && order == old(order)
      ensures !ok ==>
        slots[..] == old(slots[..]) && nentries == old(nentries) && ninserts == old(ninserts) &&
        memSize == old(memSize)
    {
      var key := heap[entries[e].key].bytes;
      var s := HashOf(key) % slots.Length;
      var link := InSlot;
      var cur := slots[s];
      ghost var i := 0;
      ChainHere(s);
      while cur != 0
        invariant Walking(s, i, cur, key)
        invariant link == if i == 0 then InSlot else InEntry(chains[s][i - 1])
        modifies {}
        decreases |chains[s]| - i
      {
        StepAlong(s, i, cur, key);
        if KeyEquals(cur, key) {
          WalkTells(s, i, cur, key);
          return false;
        }
        link, cur, i := InEntry(cur), entries[cur].next, i + 1;
      }
      WalkTells(s, i, cur, key);
      ok := true;
      LinkIn(e, s, link, key);
    }

    /** The entry goes to the tail of its chain, and the counters are brought up to date. */
    method LinkIn(e: Ptr, s: nat, link: Link, key: Bytes)
      requires Valid() && Loose(e) && entries[e].nhits == 0 && key == NameOf(heap, entries, e) && key !in table
      requires s < slots.Length && s == SlotOf(key, slots.Length)
      requires link == if chains[s] == [] then InSlot else InEntry(chains[s][|chains[s]| - 1])
      modifies this`entries, this`ninserts, this`nentries, this`memSize, this`chains, this`table, this`order, slots
      ensures Valid()
      ensures table == old(table)[key := e] && order == old(order) + [e] && chains == Tailed(old(chains), s, e)
      ensures nentries == old(nentries) + 1 && memSize == old(memSize) + old(entries)[e].memSize
      ensures ninserts == old(ninserts) + 1 && SameButLinks(old(entries), entries)
    {
      ChainHere(s);
      ghost var row, es := slots[..], entries[e := entries[e].(next := 0)];
      ghost var cs := chains[s := chains[s] + [e]];
      LinkInOrder(heap, entries, row, chains, table, order, Header(), e, s, es, Appended(es, chains[s], e),
                  row[s := First(cs[s])], cs, table[key := e], order + [e]);
      LinkStores(e, s, link, cs, key);
    }

    /** The stores of an insertion: the two links, the counters, and what they stand for. */
    method LinkStores(e: Ptr, s: nat, link: Link, ghost cs: seq<seq<Ptr>>, key: Bytes)
      requires e in entries && s < slots.Length && s < |chains| && cs == chains[s := chains[s] + [e]]
      requires chains[s] != [] ==> chains[s][|chains[s]| - 1] in entries
      requires link == if chains[s] == [] then InSlot else InEntry(chains[s][|chains[s]| - 1])
      requires slots[s] == First(chains[s])
      modifies this`entries, this`ninserts, this`nentries, this`memSize, this`chains, this`table, this`order, slots
      ensures entries == Appended(old(entries)[e := old(entries)[e].(next := 0)], old(chains)[s], e)
      ensures slots[..] == old(slots[..])[s := First(cs[s])]
      ensures chains == cs && table == old(table)[key := e] && order == old(order) + [e]
      ensures
        Header() == old(Header()).(inserts := old(ninserts) + 1, entries := old(nentries) + 1,
                                   memSize := old(memSize) + old(entries)[e].memSize)
      ensures SameButLinks(old(entries), entries)
    {
      Attach(e, s, link);
      Tally(entries[e].memSize);
      chains, table, order := cs, table[key := e], order + [e];
    }

    /** The header's counters after an insertion. */
    method Tally(size: nat)
      modifies this`ninserts, this`nentries, this`memSize
      ensures memSize == old(memSize) + size && nentries == old(nentries) + 1 && ninserts == old(ninserts) + 1
      ensures slots[..] == old(slots[..])
    {
      memSize := memSize + size;
      nentries := nentries + 1;
      ninserts := ninserts + 1;
    }

    /** The two pointer assignments that link an entry. */
    method Attach(e: Ptr, s: nat, link: Link)
      requires e in entries && s < slots.Length && s < |chains|
      requires chains[s] != [] ==> chains[s][|chains[s]| - 1] in entries
      requires link == if chains[s] == [] then InSlot else InEntry(chains[s][|chains[s]| - 1])
      requires slots[s] == First(chains[s])
      modifies this`entries, slots
      ensures entries == Appended(old(entries)[e := old(entries)[e].(next := 0)], chains[s], e)
      ensures slots[..] == old(slots[..])[s := First(chains[s] + [e])]
      ensures SameButLinks(old(entries), entries)
      ensures entries[e].memSize == old(entries)[e].memSize
    {
      entries := entries[e := entries[e].(next := 0)];
      match link {
        case InSlot =>
          slots[s] := e;
        case InEntry(p) =>
          entries := entries[p := entries[p].(next := e)];
      }
    }
  }
}
