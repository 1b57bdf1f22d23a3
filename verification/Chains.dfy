/** The chained hash table on values: slots, entry links, and the finite map they stand for. */
module Chains {
  import opened Focus
  import opened Sequences
  import opened Tiles
  import opened Values

  /** immutable_cache_cache_entry_t. */
  datatype Entry = Entry(key: Ptr, val: Zval, next: Ptr, nhits: nat, ctime: int, atime: int, memSize: nat)

  type Entries = map<Ptr, Entry>

  /** The entries other than `p`. */
  function Dropped(es: Entries, p: Ptr): Entries {
    es - {p}
  }

  function NameOf(h: Heap, es: Entries, p: Ptr): Bytes {
    if p in es then BytesAt(h, es[p].key) else []
  }

  /** Keys are strings with a computed hash. */
  predicate KeyReady(h: Heap, e: Entry) {
    e.key in h && h[e.key].StrNode? && h[e.key].hash == HashOf(h[e.key].bytes)
  }

  /** The key strings of all entries are the same in both memories. */
  ghost predicate KeysStay(h: Heap, h': Heap, es: Entries) {
    forall p {:trigger es[p]} :: p in es && es[p].key in h ==> es[p].key in h' && h'[es[p].key] == h[es[p].key]
  }

  function SlotOf(key: Bytes, nslots: nat): nat
    requires nslots > 0
  {
    HashOf(key) % nslots
  }

  function First(c: seq<Ptr>): Ptr {
    if c == [] then 0 else c[0]
  }

  /** Chain `c` hangs from `start`; its keys belong to slot `s` and are pairwise different. */
  ghost predicate ChainOf(h: Heap, es: Entries, nslots: nat, s: nat, start: Ptr, c: seq<Ptr>)
    requires nslots > 0
  {
    && start == First(c)
    && (forall i {:trigger c[i]} :: 0 <= i < |c| ==>
      c[i] != 0 && c[i] in es && KeyReady(h, es[c[i]]) && SlotOf(NameOf(h, es, c[i]), nslots) == s)
    && NextLinks(es, c)
    && TextsApart(h, es, c)
  }

  /** Each entry links to the one behind it, and the last to none. */
  ghost predicate NextLinks(es: Entries, c: seq<Ptr>)
    requires forall i {:trigger c[i]} :: 0 <= i < |c| ==> c[i] in es
  {
    && (forall i: nat, j: nat {:trigger Adjacent(i, j)} :: j < |c| && Adjacent(i, j) ==> es[c[i]].next == c[j])
    && (c != [] ==> es[c[|c| - 1]].next == 0)
  }

  ghost predicate TextsApart(h: Heap, es: Entries, c: seq<Ptr>) {
    forall z {:trigger LookInside(z)} :: LookInside(z) ==>
      forall i, j :: 0 <= i < j < |c| ==> NameOf(h, es, c[i]) != NameOf(h, es, c[j])
  }

  /** Every slot's chain is in order. */
  ghost predicate Chained(h: Heap, es: Entries, slots: seq<Ptr>, chains: seq<seq<Ptr>>) {
    |slots| > 0 && |chains| == |slots| && forall s {:trigger chains[s]} :: 0 <= s < |slots| ==>
      ChainOf(h, es, |slots|, s, slots[s], chains[s])
  }

  /** The chains hold exactly the bindings of `table`. */
  ghost predicate Binds(h: Heap, es: Entries, chains: seq<seq<Ptr>>, table: map<Bytes, Ptr>) {
    && |chains| > 0
    && (forall k {:trigger k in table} :: k in table ==>
      table[k] in chains[SlotOf(k, |chains|)] && NameOf(h, es, table[k]) == k)
    && (forall s, i {:trigger chains[s][i]} :: 0 <= s < |chains| && 0 <= i < |chains[s]| ==>
      NameOf(h, es, chains[s][i]) in table && table[NameOf(h, es, chains[s][i])] == chains[s][i])
  }

  // ---- linking a new entry at the tail of its chain ----

  /** What an entry looks like when only hit counts and times may have changed. */
  predicate SameButStats(a: Entry, b: Entry) {
    a.key == b.key && a.val == b.val && a.next == b.next && a.memSize == b.memSize && a.ctime == b.ctime
  }

  /** The same entries, some of them linked on differently. */
  ghost predicate SameButLinks(es: Entries, es': Entries) {
    forall z {:trigger LookAtSlots(z)} :: LookAtSlots(z) ==>
      es'.Keys == es.Keys && forall p :: p in es ==> es'[p].(next := 0) == es[p].(next := 0)
  }

  /** A chain is unaffected by changes elsewhere. */
  lemma ChainStays(h: Heap, es: Entries, h': Heap, es': Entries, nslots: nat, s: nat, start: Ptr, c: seq<Ptr>)
    requires nslots > 0 && ChainOf(h, es, nslots, s, start, c)
    requires KeysStay(h, h', es)
    requires forall i {:trigger c[i]} :: 0 <= i < |c| ==> c[i] in es' && SameButStats(es'[c[i]], es[c[i]])
    ensures ChainOf(h', es', nslots, s, start, c)
    ensures forall i {:trigger c[i]} :: 0 <= i < |c| ==> NameOf(h', es', c[i]) == NameOf(h, es, c[i])
  {
  }

  /** Entry `e` at the tail of chain `s`. */
  function Tailed(chains: seq<seq<Ptr>>, s: nat, e: Ptr): seq<seq<Ptr>> {
    if s < |chains| then chains[s := chains[s] + [e]] else chains
  }

  /** The entry `e`, linked behind the last entry of the chain. */
  function Appended(es: Entries, c: seq<Ptr>, e: Ptr): Entries
    requires c != [] ==> c[|c| - 1] in es
  {
    if c == [] then es else es[c[|c| - 1] := es[c[|c| - 1]].(next := e)]
  }

  lemma ChainAppends(h: Heap, es: Entries, nslots: nat, s: nat, start: Ptr, c: seq<Ptr>, e: Ptr)
    requires nslots > 0 && ChainOf(h, es, nslots, s, start, c)
    requires e != 0 && e in es && KeyReady(h, es[e]) && es[e].next == 0 && SlotOf(NameOf(h, es, e), nslots) == s
    requires forall i {:trigger c[i]} :: 0 <= i < |c| ==> NameOf(h, es, c[i]) != NameOf(h, es, e)
    ensures c != [] ==> c[|c| - 1] in es
    ensures ChainOf(h, Appended(es, c, e), nslots, s, First(c + [e]), c + [e])
  {
    var es', c' := Appended(es, c, e), c + [e];
    AppendedTexts(h, es, c, e);
    assert e !in c;
    assert NextLinks(es', c') by {
      AppendedLinks(h, es, c, e);
    }
    assert TextsApart(h, es', c') by {
      assert LookInside(0);
      forall i, j | 0 <= i < j < |c'| ensures NameOf(h, es', c'[i]) != NameOf(h, es', c'[j]) {
        assert c'[i] == c[i];
      }
    }
  }

  lemma AppendedTexts(h: Heap, es: Entries, c: seq<Ptr>, e: Ptr)
    requires c != [] ==> c[|c| - 1] in es
    ensures forall p :: NameOf(h, Appended(es, c, e), p) == NameOf(h, es, p)
    ensures forall p :: p in es <==> p in Appended(es, c, e)
    ensures forall p :: p in es ==> Appended(es, c, e)[p].key == es[p].key
  {
  }

  lemma AppendedLinks(h: Heap, es: Entries, c: seq<Ptr>, e: Ptr)
    requires (forall i {:trigger c[i]} :: 0 <= i < |c| ==> c[i] in es) && NextLinks(es, c) && TextsApart(h, es, c)
    requires e in es && e !in c && es[e].next == 0
    ensures forall i :: 0 <= i < |c + [e]| ==> (c + [e])[i] in Appended(es, c, e)
    ensures NextLinks(Appended(es, c, e), c + [e])
  {
    var es', c' := Appended(es, c, e), c + [e];
    forall i: nat, j: nat | j < |c'| && Adjacent(i, j) ensures es'[c'[i]].next == c'[j] {
      assert c'[i] == c[i];
      if j < |c| {
        assert c'[j] == c[j] && es[c[i]].next == c[j];
        assert LookInside(0) && NameOf(h, es, c[i]) != NameOf(h, es, c[|c| - 1]);
      }
    }
  }

  /** An entry outside the chains, ready to be linked under a key that is not bound. */
  ghost predicate Linkable(h: Heap, es: Entries, chains: seq<seq<Ptr>>, table: map<Bytes, Ptr>, e: Ptr) {
    && e != 0 && e in es && KeyReady(h, es[e]) && es[e].next == 0 && NameOf(h, es, e) !in table
    && forall s {:trigger chains[s]} :: 0 <= s < |chains| ==> e !in chains[s]
  }

  lemma TextsDiffer(h: Heap, es: Entries, chains: seq<seq<Ptr>>, table: map<Bytes, Ptr>, key: Bytes, s: nat, i: nat)
    requires Binds(h, es, chains, table) && key !in table && s < |chains| && i < |chains[s]|
    ensures NameOf(h, es, chains[s][i]) != key
  {
  }

  lemma LinkChained(h: Heap, es: Entries, slots: seq<Ptr>, chains: seq<seq<Ptr>>, table: map<Bytes, Ptr>, e: Ptr,
        s: nat)
    requires Chained(h, es, slots, chains) && Binds(h, es, chains, table) && Linkable(h, es, chains, table, e)
    requires s == SlotOf(NameOf(h, es, e), |slots|)
    ensures chains[s] != [] ==> chains[s][|chains[s]| - 1] in es
    ensures Chained(h, Appended(es, chains[s], e), slots[s := First(chains[s] + [e])], chains[s := chains[s] + [e]])
  {
    var c, c' := chains[s], chains[s] + [e];
    forall i | 0 <= i < |c| ensures NameOf(h, es, c[i]) != NameOf(h, es, e) {
      TextsDiffer(h, es, chains, table, NameOf(h, es, e), s, i);
    }
    ChainAppends(h, es, |slots|, s, slots[s], c, e);
    var es', slots', chains' := Appended(es, c, e), slots[s := First(c')], chains[s := c'];
    forall t | 0 <= t < |slots| ensures ChainOf(h, es', |slots|, t, slots'[t], chains'[t]) {
      if t != s {
        OtherChain(h, es, |slots|, s, slots[s], c, t, slots[t], chains[t], e);
      }
    }
  }

  /** Appending to one chain leaves the others alone. */
  lemma OtherChain(h: Heap, es: Entries, nslots: nat, s: nat, start: Ptr, c: seq<Ptr>, t: nat, start': Ptr,
        d: seq<Ptr>, e: Ptr)
    requires nslots > 0 && ChainOf(h, es, nslots, s, start, c) && ChainOf(h, es, nslots, t, start', d) && s != t
    ensures c != [] ==> c[|c| - 1] in es
    ensures ChainOf(h, Appended(es, c, e), nslots, t, start', d)
  {
  }

  lemma BindingMore(h: Heap, es: Entries, chains: seq<seq<Ptr>>, table: map<Bytes, Ptr>, e: Ptr, s: nat, k: Bytes)
    requires Binds(h, es, chains, table) && s < |chains| && s == SlotOf(NameOf(h, es, e), |chains|)
    requires k in table || k == NameOf(h, es, e)
    ensures
      var p := if k == NameOf(h, es, e) then e else table[k];
      p in chains[s := chains[s] + [e]][SlotOf(k, |chains|)] && NameOf(h, es, p) == k
  {
  }

  lemma ChainMore(h: Heap, es: Entries, chains: seq<seq<Ptr>>, table: map<Bytes, Ptr>, e: Ptr, s: nat, t: nat, i: nat)
    requires Binds(h, es, chains, table) && s < |chains| && NameOf(h, es, e) !in table
    requires t < |chains| && i < |chains[s := chains[s] + [e]][t]|
    ensures
      var p := chains[s := chains[s] + [e]][t][i];
      var table' := table[NameOf(h, es, e) := e];
      NameOf(h, es, p) in table' && table'[NameOf(h, es, p)] == p
  {
    if t != s || i < |chains[s]| {
      assert chains[s := chains[s] + [e]][t][i] == chains[t][i];
      TextsDiffer(h, es, chains, table, NameOf(h, es, e), t, i);
    }
  }

  /** With the entry at the tail of its chain, the chains hold one binding more. */
  lemma BindsMore(h: Heap, es: Entries, es': Entries, chains: seq<seq<Ptr>>, table: map<Bytes, Ptr>, e: Ptr, s: nat)
    requires Binds(h, es, chains, table) && s < |chains| && s == SlotOf(NameOf(h, es, e), |chains|)
    requires NameOf(h, es, e) !in table && forall p :: NameOf(h, es', p) == NameOf(h, es, p)
    ensures Binds(h, es', chains[s := chains[s] + [e]], table[NameOf(h, es, e) := e])
  {
    var chains', table' := chains[s := chains[s] + [e]], table[NameOf(h, es, e) := e];
    forall k | k in table' ensures table'[k] in chains'[SlotOf(k, |chains'|)] && NameOf(h, es', table'[k]) == k {
      BindingMore(h, es, chains, table, e, s, k);
    }
    forall t, i | 0 <= t < |chains'| && 0 <= i < |chains'[t]|
      ensures NameOf(h, es', chains'[t][i]) in table' && table'[NameOf(h, es', chains'[t][i])] == chains'[t][i]
    {
      ChainMore(h, es, chains, table, e, s, t, i);
    }
  }

  lemma LinkBinds(h: Heap, es: Entries, slots: seq<Ptr>, chains: seq<seq<Ptr>>, table: map<Bytes, Ptr>, e: Ptr, s: nat)
    requires Chained(h, es, slots, chains) && Binds(h, es, chains, table) && Linkable(h, es, chains, table, e)
    requires s == SlotOf(NameOf(h, es, e), |slots|)
    requires chains[s] != [] ==> chains[s][|chains[s]| - 1] in es
    ensures Binds(h, Appended(es, chains[s], e), chains[s := chains[s] + [e]], table[NameOf(h, es, e) := e])
  {
    AppendedTexts(h, es, chains[s], e);
    BindsMore(h, es, Appended(es, chains[s], e), chains, table, e, s);
  }

  // ---- totals over the linked entries ----

  function MemOf(es: Entries, ps: seq<Ptr>): nat {
    if ps == [] then 0 else MemOf(es, ps[..|ps| - 1]) + (if ps[|ps| - 1] in es then es[ps[|ps| - 1]].memSize else 0)
  }

  function HitsOf(es: Entries, ps: seq<Ptr>): nat {
    if ps == [] then 0 else HitsOf(es, ps[..|ps| - 1]) + (if ps[|ps| - 1] in es then es[ps[|ps| - 1]].nhits else 0)
  }

  lemma {:induction false} TotalsStay(es: Entries, es': Entries, ps: seq<Ptr>)
    requires forall p :: p in ps ==>
      p in es && p in es' && es'[p].memSize == es[p].memSize && es'[p].nhits == es[p].nhits
    ensures MemOf(es', ps) == MemOf(es, ps) && HitsOf(es', ps) == HitsOf(es, ps)
  {
    if ps != [] {
      assert ps[|ps| - 1] in ps;
      TotalsStay(es, es', ps[..|ps| - 1]);
    }
  }

  lemma TotalsMore(es: Entries, ps: seq<Ptr>, p: Ptr)
    requires p in es
    ensures MemOf(es, ps + [p]) == MemOf(es, ps) + es[p].memSize && HitsOf(es, ps + [p]) == HitsOf(es, ps) + es[p].nhits
  {
  }

  /** One more hit on a linked entry is one more hit in all. */
  lemma {:induction false} HitsMore(es: Entries, es': Entries, ps: seq<Ptr>, p: Ptr)
    requires p in ps && p in es && p in es' && es'[p].nhits == es[p].nhits + 1
    requires Distinct(ps)
    requires forall q :: q != p && q in es ==> q in es' && es'[q].nhits == es[q].nhits
    requires forall q :: q in ps ==> q in es
    ensures HitsOf(es', ps) == HitsOf(es, ps) + 1
  {
    var rest, last := ps[..|ps| - 1], ps[|ps| - 1];
    if last == p {
      HitsStay(es, es', rest, p);
    } else {
      HitsMore(es, es', rest, p);
    }
  }

  lemma {:induction false} HitsStay(es: Entries, es': Entries, ps: seq<Ptr>, p: Ptr)
    requires p !in ps && forall q :: q in ps ==> q in es
    requires forall q :: q != p && q in es ==> q in es' && es'[q].nhits == es[q].nhits
    ensures HitsOf(es', ps) == HitsOf(es, ps)
  {
    if ps != [] {
      assert ps[|ps| - 1] in ps;
      HitsStay(es, es', ps[..|ps| - 1], p);
    }
  }

  // ---- the table as a whole ----

  /** `order` lists the linked entries, once each. */
  ghost predicate Lists(h: Heap, es: Entries, table: map<Bytes, Ptr>, order: seq<Ptr>) {
    |order| == |table| && Unrepeated(order) && KeysListed(h, es, table, order) && ListedKeys(h, es, table, order)
  }

  ghost predicate KeysListed(h: Heap, es: Entries, table: map<Bytes, Ptr>, order: seq<Ptr>) {
    forall k {:trigger k in table} :: k in table ==> table[k] in order && NameOf(h, es, table[k]) == k
  }

  ghost predicate ListedKeys(h: Heap, es: Entries, table: map<Bytes, Ptr>, order: seq<Ptr>) {
    forall i {:trigger order[i]} :: 0 <= i < |order| ==>
      NameOf(h, es, order[i]) in table && table[NameOf(h, es, order[i])] == order[i]
  }

  lemma ListsMore(h: Heap, es: Entries, es': Entries, table: map<Bytes, Ptr>, order: seq<Ptr>, e: Ptr)
    requires Lists(h, es, table, order) && NameOf(h, es, e) !in table
    requires forall p :: NameOf(h, es', p) == NameOf(h, es, p)
    ensures Lists(h, es', table[NameOf(h, es, e) := e], order + [e]) && e !in order
  {
  }

  ghost predicate Tabled(h: Heap, es: Entries, slots: seq<Ptr>, chains: seq<seq<Ptr>>, table: map<Bytes, Ptr>,
        order: seq<Ptr>) {
    forall z {:trigger LookAtLayout(z)} :: LookAtLayout(z) ==>
      Chained(h, es, slots, chains) && Binds(h, es, chains, table) && Lists(h, es, table, order)
  }

  /** Linked entries are entries. */
  lemma LinkedIn(h: Heap, es: Entries, slots: seq<Ptr>, chains: seq<seq<Ptr>>, table: map<Bytes, Ptr>,
        order: seq<Ptr>, p: Ptr)
    requires Tabled(h, es, slots, chains, table, order) && p in order
    ensures p in es && p != 0 && KeyReady(h, es[p]) && NameOf(h, es, p) in table && table[NameOf(h, es, p)] == p
  {
    assert LookAtLayout(0);
    var s := SlotOf(NameOf(h, es, p), |chains|);
    assert p in chains[s];
    var i :| 0 <= i < |chains[s]| && chains[s][i] == p;
    assert ChainOf(h, es, |slots|, s, slots[s], chains[s]);
  }

  lemma BoundListed(h: Heap, es: Entries, slots: seq<Ptr>, chains: seq<seq<Ptr>>, table: map<Bytes, Ptr>,
        order: seq<Ptr>, key: Bytes)
    requires Tabled(h, es, slots, chains, table, order) && key in table
    ensures table[key] in order && table[key] in es && table[key] != 0 && NameOf(h, es, table[key]) == key
  {
    assert LookAtLayout(0);
    LinkedIn(h, es, slots, chains, table, order, table[key]);
  }

  lemma LinkedAll(h: Heap, es: Entries, slots: seq<Ptr>, chains: seq<seq<Ptr>>, table: map<Bytes, Ptr>, order: seq<Ptr>)
    requires Tabled(h, es, slots, chains, table, order)
    ensures forall p :: p in order ==> p in es
  {
    forall p | p in order ensures p in es {
      LinkedIn(h, es, slots, chains, table, order, p);
    }
  }

  /** Linking `e`: everything the table promises holds afterwards. */
  lemma LinkTabled(h: Heap, es: Entries, slots: seq<Ptr>, chains: seq<seq<Ptr>>, table: map<Bytes, Ptr>,
        order: seq<Ptr>, e: Ptr, s: nat)
    requires Tabled(h, es, slots, chains, table, order) && Linkable(h, es, chains, table, e)
    requires |slots| > 0 && s == SlotOf(NameOf(h, es, e), |slots|) && s < |chains|
    ensures chains[s] != [] ==> chains[s][|chains[s]| - 1] in es
    ensures
      Tabled(h, Appended(es, chains[s], e), slots[s := First(chains[s] + [e])], chains[s := chains[s] + [e]],
             table[NameOf(h, es, e) := e], order + [e])
    ensures e !in order
    ensures MemOf(Appended(es, chains[s], e), order + [e]) == MemOf(es, order) + es[e].memSize
    ensures HitsOf(Appended(es, chains[s], e), order + [e]) == HitsOf(es, order) + es[e].nhits
  {
    assert LookAtLayout(0);
    LinkChained(h, es, slots, chains, table, e, s);
    LinkBinds(h, es, slots, chains, table, e, s);
    AppendedTexts(h, es, chains[s], e);
    ListsMore(h, es, Appended(es, chains[s], e), table, order, e);
    LinkTotals(h, es, slots, chains, table, order, e, chains[s]);
  }

  lemma LinkTotals(h: Heap, es: Entries, slots: seq<Ptr>, chains: seq<seq<Ptr>>, table: map<Bytes, Ptr>,
        order: seq<Ptr>, e: Ptr, c: seq<Ptr>)
    requires Tabled(h, es, slots, chains, table, order) && e in es && (c != [] ==> c[|c| - 1] in es)
    ensures MemOf(Appended(es, c, e), order + [e]) == MemOf(es, order) + es[e].memSize
    ensures HitsOf(Appended(es, c, e), order + [e]) == HitsOf(es, order) + es[e].nhits
  {
    forall p | p in order ensures p in es {
      LinkedIn(h, es, slots, chains, table, order, p);
    }
    TotalsStay(es, Appended(es, c, e), order);
    TotalsMore(Appended(es, c, e), order, e);
  }

  /** Counting a hit changes no chain. */
  lemma HitTabled(h: Heap, es: Entries, slots: seq<Ptr>, chains: seq<seq<Ptr>>, table: map<Bytes, Ptr>,
        order: seq<Ptr>, p: Ptr, t: int, es': Entries)
    requires Tabled(h, es, slots, chains, table, order) && p in order && p in es
    requires es' == es[p := es[p].(nhits := es[p].nhits + 1, atime := t)]
    ensures Tabled(h, es', slots, chains, table, order)
    ensures HitsOf(es', order) == HitsOf(es, order) + 1 && MemOf(es', order) == MemOf(es, order)
  {
    LinkedAll(h, es, slots, chains, table, order);
    StatsTabled(h, es, h, es', slots, chains, table, order);
    HitTotals(h, es, slots, chains, table, order, p, es');
  }

  /** The entries are listed once each. */
  lemma OrderKnown(h: Heap, es: Entries, slots: seq<Ptr>, chains: seq<seq<Ptr>>, table: map<Bytes, Ptr>,
        order: seq<Ptr>)
    requires Tabled(h, es, slots, chains, table, order)
    ensures Distinct(order) && forall q :: q in order ==> q in es
  {
    forall q | q in order ensures q in es {
      LinkedIn(h, es, slots, chains, table, order, q);
    }
    assert Lists(h, es, table, order) by {
      assert LookAtLayout(0);
    }
    assert LookInside(0);
  }

  lemma HitTotals(h: Heap, es: Entries, slots: seq<Ptr>, chains: seq<seq<Ptr>>, table: map<Bytes, Ptr>,
        order: seq<Ptr>, p: Ptr, es': Entries)
    requires Tabled(h, es, slots, chains, table, order) && p in order && p in es
    requires es'.Keys == es.Keys && es'[p].nhits == es[p].nhits + 1 && es'[p].memSize == es[p].memSize
    requires forall q :: q in es && q != p ==> es'[q] == es[q]
    ensures HitsOf(es', order) == HitsOf(es, order) + 1 && MemOf(es', order) == MemOf(es, order)
  {
    OrderKnown(h, es, slots, chains, table, order);
    HitsMore(es, es', order, p);
    MemStays(es, es', order);
  }

  lemma {:induction false} MemStays(es: Entries, es': Entries, ps: seq<Ptr>)
    requires forall p :: p in ps ==> p in es && p in es' && es'[p].memSize == es[p].memSize
    ensures MemOf(es', ps) == MemOf(es, ps)
  {
    if ps != [] {
      assert ps[|ps| - 1] in ps;
      MemStays(es, es', ps[..|ps| - 1]);
    }
  }

  /** Changes to statistics, entries outside the chains and memory elsewhere leave the table as it is. */
  lemma StatsTabled(h: Heap, es: Entries, h': Heap, es': Entries, slots: seq<Ptr>, chains: seq<seq<Ptr>>,
        table: map<Bytes, Ptr>, order: seq<Ptr>)
    requires Tabled(h, es, slots, chains, table, order)
    requires KeysStay(h, h', es)
    requires forall p :: p in order ==> p in es && p in es' && SameButStats(es'[p], es[p])
    ensures Tabled(h', es', slots, chains, table, order)
  {
    assert LookAtLayout(0);
    forall p | p in order ensures NameOf(h', es', p) == NameOf(h, es, p) {
      LinkedIn(h, es, slots, chains, table, order, p);
      assert KeyReady(h, es[p]);
    }
    forall s, i | 0 <= s < |slots| && 0 <= i < |chains[s]| ensures chains[s][i] in order {
      ChainListed(h, es, slots, chains, table, order, s, i);
    }
    assert Chained(h', es', slots, chains) by {
      forall s | 0 <= s < |slots| ensures ChainOf(h', es', |slots|, s, slots[s], chains[s]) {
        assert ChainOf(h, es, |slots|, s, slots[s], chains[s]);
        ChainStays(h, es, h', es', |slots|, s, slots[s], chains[s]);
      }
    }
    BindsStay(h, es, h', es', chains, table, order);
    ListsStay(h, es, h', es', table, order);
  }

  lemma ChainListed(h: Heap, es: Entries, slots: seq<Ptr>, chains: seq<seq<Ptr>>, table: map<Bytes, Ptr>,
        order: seq<Ptr>, s: nat, i: nat)
    requires Tabled(h, es, slots, chains, table, order) && s < |slots| && s < |chains| && i < |chains[s]|
    ensures chains[s][i] in order
  {
    assert LookAtLayout(0);
    assert NameOf(h, es, chains[s][i]) in table;
  }

  lemma BindsStay(h: Heap, es: Entries, h': Heap, es': Entries, chains: seq<seq<Ptr>>, table: map<Bytes, Ptr>,
        order: seq<Ptr>)
    requires Binds(h, es, chains, table) && Lists(h, es, table, order)
    requires forall p :: p in order ==> NameOf(h', es', p) == NameOf(h, es, p)
    requires forall s, i :: 0 <= s < |chains| && 0 <= i < |chains[s]| ==> chains[s][i] in order
    ensures Binds(h', es', chains, table)
  {
  }

  lemma ListsStay(h: Heap, es: Entries, h': Heap, es': Entries, table: map<Bytes, Ptr>, order: seq<Ptr>)
    requires Lists(h, es, table, order)
    requires forall p :: p in order ==> NameOf(h', es', p) == NameOf(h, es, p)
    ensures Lists(h', es', table, order)
  {
  }

  /** An entry outside the chains is not listed. */
  lemma LooseUnlisted(h: Heap, es: Entries, slots: seq<Ptr>, chains: seq<seq<Ptr>>, table: map<Bytes, Ptr>,
        order: seq<Ptr>, e: Ptr)
    requires Tabled(h, es, slots, chains, table, order)
    requires forall s {:trigger chains[s]} :: 0 <= s < |chains| ==> e !in chains[s]
    ensures e !in order
  {
    assert LookAtLayout(0);
  }

  lemma TotalsLoose(h: Heap, es: Entries, es': Entries, slots: seq<Ptr>, chains: seq<seq<Ptr>>,
        table: map<Bytes, Ptr>, order: seq<Ptr>)
    requires Tabled(h, es, slots, chains, table, order)
    requires forall p :: p in es ==> p in es' && es'[p].memSize == es[p].memSize && es'[p].nhits == es[p].nhits
    ensures MemOf(es', order) == MemOf(es, order) && HitsOf(es', order) == HitsOf(es, order)
  {
    forall p | p in order ensures p in es {
      LinkedIn(h, es, slots, chains, table, order, p);
    }
    TotalsStay(es, es', order);
  }

  /** The header's counters. */
  datatype Counters = Counters(hits: nat, misses: nat, inserts: nat, entries: nat, memSize: nat)

  /** The same entries, but for links, hits and access times. */
  ghost predicate SameRecords(es: Entries, es': Entries) {
    forall z {:trigger LookAtSlots(z)} :: LookAtSlots(z) ==>
      es'.Keys == es.Keys && forall p :: p in es ==>
        es'[p].key == es[p].key && es'[p].val == es[p].val && es'[p].memSize == es[p].memSize
  }

  /**
   * What immutable_cache_cache_wlocked_insert_exclusive does with entry `e`: it returns 1 exactly when its key is
   * unbound, and then binds it at the tail of its chain and counts it; otherwise nothing has changed.
   */
  ghost predicate InsertsExclusive(h: Heap, es: Entries, es': Entries, table: map<Bytes, Ptr>, table': map<Bytes, Ptr>,
        chains: seq<seq<Ptr>>, chains': seq<seq<Ptr>>, order: seq<Ptr>, order': seq<Ptr>, n: Counters, n': Counters,
        e: Ptr, ok: bool)
  {
    var k := NameOf(h, es, e);
    && |chains| > 0 && e in es && (ok <==> k !in table) && SameRecords(es, es')
    && (ok ==>
      && table' == table[k := e] && order' == order + [e] && chains' == Tailed(chains, SlotOf(k, |chains|), e)
      && n'.entries == n.entries + 1 && n'.inserts == n.inserts + 1 && n'.memSize == n.memSize + es[e].memSize)
    && (!ok ==>
      && table' == table && order' == order && chains' == chains
      && n'.entries == n.entries && n'.inserts == n.inserts && n'.memSize == n.memSize)
  }

  /** The invariant of the table, folded. */
  ghost predicate InOrder(h: Heap, es: Entries, slots: seq<Ptr>, chains: seq<seq<Ptr>>, table: map<Bytes, Ptr>,
        order: seq<Ptr>, n: Counters) {
    forall z {:trigger LookAtState(z)} :: LookAtState(z) ==>
      && Tabled(h, es, slots, chains, table, order)
      && n.entries == n.inserts == |order|
      && n.memSize == MemOf(es, order)
      && n.hits == HitsOf(es, order)
  }

  /** Zeroed slots, no entries and zero counters are a table in order. */
  lemma EmptyInOrder(h: Heap, slots: seq<Ptr>, chains: seq<seq<Ptr>>)
    requires |chains| == |slots| > 0 && forall s :: 0 <= s < |slots| ==> slots[s] == 0 && chains[s] == []
    ensures InOrder(h, map[], slots, chains, map[], [], Counters(0, 0, 0, 0, 0))
  {
    forall s | 0 <= s < |slots| ensures ChainOf(h, map[], |slots|, s, slots[s], chains[s]) {
      assert slots[s] == 0 && chains[s] == [];
    }
  }

  /** An unlinked entry with a name not yet bound. */
  ghost predicate LooseIn(h: Heap, es: Entries, chains: seq<seq<Ptr>>, e: Ptr) {
    e != 0 && e in es && KeyReady(h, es[e]) && forall s {:trigger chains[s]} :: 0 <= s < |chains| ==> e !in chains[s]
  }

  lemma LinkInOrder(h: Heap, es: Entries, slots: seq<Ptr>, chains: seq<seq<Ptr>>, table: map<Bytes, Ptr>,
        order: seq<Ptr>, n: Counters,
                    e: Ptr, s: nat, es1: Entries, es': Entries, slots': seq<Ptr>, chains': seq<seq<Ptr>>,
                    table': map<Bytes, Ptr>, order': seq<Ptr>)
    requires InOrder(h, es, slots, chains, table, order, n) && LooseIn(h, es, chains, e) && es[e].nhits == 0
    requires NameOf(h, es, e) !in table && |slots| > 0 && s == SlotOf(NameOf(h, es, e), |slots|) && s < |chains|
    requires chains[s] != [] ==> chains[s][|chains[s]| - 1] in es
    requires es1 == es[e := es[e].(next := 0)] && es' == Appended(es1, chains[s], e)
    requires chains' == chains[s := chains[s] + [e]] && slots' == slots[s := First(chains'[s])]
    requires table' == table[NameOf(h, es, e) := e] && order' == order + [e]
    ensures InOrder(h, es', slots', chains', table', order',
                    n.(inserts := n.inserts + 1, entries := n.entries + 1, memSize := n.memSize + es[e].memSize))
  {
    assert LookAtState(0);
    LinkedAll(h, es, slots, chains, table, order);
    LooseUnlisted(h, es, slots, chains, table, order, e);
    StatsTabled(h, es, h, es1, slots, chains, table, order);
    TotalsLoose(h, es, es1, slots, chains, table, order);
    LinkTabled(h, es1, slots, chains, table, order, e, s);
  }

  /** All chains, slot after slot. */
  function Flat(chains: seq<seq<Ptr>>, n: nat): seq<Ptr>
    requires n <= |chains|
  {
    if n == 0 then [] else Flat(chains, n - 1) + chains[n - 1]
  }

  lemma {:induction false} FlatHas(chains: seq<seq<Ptr>>, n: nat, p: Ptr)
    requires n <= |chains|
    ensures p in Flat(chains, n) <==> exists s :: 0 <= s < n && p in chains[s]
  {
    if n > 0 {
      FlatHas(chains, n - 1, p);
    }
  }

  /** One more chain adds no entry that is there already. */
  lemma ChainOnce(h: Heap, es: Entries, slots: seq<Ptr>, chains: seq<seq<Ptr>>, table: map<Bytes, Ptr>,
        order: seq<Ptr>, n: nat)
    requires Tabled(h, es, slots, chains, table, order) && n < |chains| && Unrepeated(Flat(chains, n))
    ensures Unrepeated(Flat(chains, n + 1))
  {
    assert LookAtLayout(0);
    var a, b := Flat(chains, n), chains[n];
    assert ChainOf(h, es, |slots|, n, slots[n], b);
    assert Unrepeated(b) by {
      assert LookInside(0);
    }
    forall p | p in a ensures p !in b {
      FlatHas(chains, n, p);
      var s :| 0 <= s < n && p in chains[s];
      InSlot(h, es, slots, chains, table, order, s, p);
    }
    forall p | p in b ensures SlotOf(NameOf(h, es, p), |slots|) == n {
      InSlot(h, es, slots, chains, table, order, n, p);
    }
    UnrepeatedJoin(a, b);
  }

  lemma {:induction false} FlatApart(h: Heap, es: Entries, slots: seq<Ptr>, chains: seq<seq<Ptr>>,
        table: map<Bytes, Ptr>, order: seq<Ptr>, n: nat)
    requires Tabled(h, es, slots, chains, table, order) && n <= |chains|
    ensures Unrepeated(Flat(chains, n))
  {
    if n > 0 {
      FlatApart(h, es, slots, chains, table, order, n - 1);
      ChainOnce(h, es, slots, chains, table, order, n - 1);
    }
  }

  /** A listed entry hangs in some chain. */
  lemma ListedHangs(h: Heap, es: Entries, slots: seq<Ptr>, chains: seq<seq<Ptr>>, table: map<Bytes, Ptr>,
        order: seq<Ptr>, p: Ptr) returns (s: nat)
    requires Tabled(h, es, slots, chains, table, order) && p in order
    ensures s < |chains| && p in chains[s]
  {
    assert LookAtLayout(0);
    LinkedIn(h, es, slots, chains, table, order, p);
    s := SlotOf(NameOf(h, es, p), |chains|);
  }

  /** And an entry that hangs in a chain is listed. */
  lemma HangingListed(h: Heap, es: Entries, slots: seq<Ptr>, chains: seq<seq<Ptr>>, table: map<Bytes, Ptr>,
        order: seq<Ptr>, s: nat, p: Ptr)
    requires Tabled(h, es, slots, chains, table, order) && s < |chains| && p in chains[s]
    ensures p in order
  {
    assert LookAtLayout(0);
    var i :| 0 <= i < |chains[s]| && chains[s][i] == p;
    ChainListed(h, es, slots, chains, table, order, s, i);
  }

  /** The walk over all slots meets every linked entry, and no entry twice. */
  lemma FlatOnce(h: Heap, es: Entries, slots: seq<Ptr>, chains: seq<seq<Ptr>>, table: map<Bytes, Ptr>,
        order: seq<Ptr>, n: nat)
    requires Tabled(h, es, slots, chains, table, order) && n <= |chains|
    ensures Unrepeated(Flat(chains, n))
    ensures n == |chains| ==> forall p :: p in Flat(chains, n) <==> p in order
  {
    FlatApart(h, es, slots, chains, table, order, n);
    if n == |chains| {
      forall p ensures p in Flat(chains, n) <==> p in order {
        FlatHas(chains, n, p);
        if p in Flat(chains, n) {
          var s :| 0 <= s < n && p in chains[s];
          HangingListed(h, es, slots, chains, table, order, s, p);
        }
        if p in order {
          var s := ListedHangs(h, es, slots, chains, table, order, p);
        }
      }
    }
  }

  /** Keys belong to the slot they hang in. */
  lemma InSlot(h: Heap, es: Entries, slots: seq<Ptr>, chains: seq<seq<Ptr>>, table: map<Bytes, Ptr>, order: seq<Ptr>,
        s: nat, p: Ptr)
    requires Tabled(h, es, slots, chains, table, order) && s < |chains| && p in chains[s]
    ensures |slots| > 0 && SlotOf(NameOf(h, es, p), |slots|) == s
  {
    assert LookAtLayout(0);
    assert ChainOf(h, es, |slots|, s, slots[s], chains[s]);
    var i :| 0 <= i < |chains[s]| && chains[s][i] == p;
  }

  lemma HitInOrder(h: Heap, es: Entries, slots: seq<Ptr>, chains: seq<seq<Ptr>>, table: map<Bytes, Ptr>,
        order: seq<Ptr>, n: Counters,
                   key: Bytes, t: int, es': Entries)
    requires InOrder(h, es, slots, chains, table, order, n) && key in table && table[key] in es
    requires es' == es[table[key] := es[table[key]].(nhits := es[table[key]].nhits + 1, atime := t)]
    ensures InOrder(h, es', slots, chains, table, order, n.(hits := n.hits + 1))
  {
    assert LookAtState(0);
    BoundListed(h, es, slots, chains, table, order, key);
    HitTabled(h, es, slots, chains, table, order, table[key], t, es');
  }

  lemma MissInOrder(h: Heap, es: Entries, slots: seq<Ptr>, chains: seq<seq<Ptr>>, table: map<Bytes, Ptr>,
        order: seq<Ptr>, n: Counters, m: nat)
    requires InOrder(h, es, slots, chains, table, order, n)
    ensures InOrder(h, es, slots, chains, table, order, n.(misses := m))
  {
  }

  lemma AdmitInOrder(h: Heap, es: Entries, slots: seq<Ptr>, chains: seq<seq<Ptr>>, table: map<Bytes, Ptr>,
        order: seq<Ptr>, n: Counters,
                     h': Heap, at: Ptr, e: Entry, es': Entries)
    requires InOrder(h, es, slots, chains, table, order, n) && at != 0
    requires at !in es && KeyReady(h', e) && es' == es[at := e]
    requires KeysStay(h, h', es)
    ensures InOrder(h', es', slots, chains, table, order, n) && LooseIn(h', es', chains, at)
  {
    assert LookAtState(0);
    LinkedAll(h, es, slots, chains, table, order);
    StatsTabled(h, es, h', es', slots, chains, table, order);
    TotalsLoose(h, es, es', slots, chains, table, order);
    ChainsIn(h, es, slots, chains, table, order);
  }

  lemma ChainsIn(h: Heap, es: Entries, slots: seq<Ptr>, chains: seq<seq<Ptr>>, table: map<Bytes, Ptr>, order: seq<Ptr>)
    requires Tabled(h, es, slots, chains, table, order)
    ensures forall s, p {:trigger p in chains[s]} :: 0 <= s < |chains| && p in chains[s] ==> p in es
  {
    assert LookAtLayout(0);
    forall s, p | 0 <= s < |chains| && p in chains[s] ensures p in es {
      assert ChainOf(h, es, |slots|, s, slots[s], chains[s]);
      var i :| 0 <= i < |chains[s]| && chains[s][i] == p;
    }
  }

  lemma GrowInOrder(h: Heap, es: Entries, slots: seq<Ptr>, chains: seq<seq<Ptr>>, table: map<Bytes, Ptr>,
        order: seq<Ptr>, n: Counters, h': Heap)
    requires InOrder(h, es, slots, chains, table, order, n)
    requires KeysStay(h, h', es)
    ensures InOrder(h', es, slots, chains, table, order, n)
  {
    assert LookAtState(0);
    LinkedAll(h, es, slots, chains, table, order);
    StatsTabled(h, es, h', es, slots, chains, table, order);
  }
}
