/** What holds in every reachable state of the protocol. */
module Invariants {
  import opened Focus
  import opened Sequences
  import opened Tiles
  import opened Values
  import opened Chains
  import opened Protocol

  // ---- shared memory ----

  /** The entry is bound to its key. */
  predicate Linked(sh: Shared, p: Ptr) {
    p in sh.mem && sh.mem[p].key in sh.table && sh.table[sh.mem[p].key] == p
  }

  function ChainFor(sh: Shared, k: Bytes): seq<Ptr>
    requires |sh.chains| == |sh.slots| > 0
  {
    sh.chains[SlotOf(k, |sh.slots|)]
  }

  ghost predicate NextCells(mem: Cells, c: seq<Ptr>)
    requires forall i {:trigger c[i]} :: 0 <= i < |c| ==> c[i] in mem
  {
    && (forall i: nat, j: nat {:trigger Adjacent(i, j)} :: j < |c| && Adjacent(i, j) ==> mem[c[i]].next == c[j])
    && (c != [] ==> mem[c[|c| - 1]].next == 0)
  }

  /** Chain `c` of slot `sl`: bound entries of that slot, linked one to the next. */
  ghost predicate ChainGood(sh: Shared, sl: nat, c: seq<Ptr>)
    requires sl < |sh.slots|
  {
    && sh.slots[sl] == First(c) && Unrepeated(c)
    && (forall i {:trigger c[i]} ::
      0 <= i < |c| ==> c[i] != 0 && Linked(sh, c[i]) && SlotOf(sh.mem[c[i]].key, |sh.slots|) == sl)
    && NextCells(sh.mem, c)
  }

  /** Every entry in `ps` is bound. */
  ghost predicate AllLinked(sh: Shared, ps: set<Ptr>) {
    forall q {:trigger q in ps} :: q in ps ==> Linked(sh, q)
  }

  /** Bound entries lead into the blocks of bound entries only. */
  ghost predicate Grounded(sh: Shared) {
    forall z {:trigger LookAtUses(z)} :: LookAtUses(z) ==>
      forall p {:trigger Linked(sh, p)} :: Linked(sh, p) ==> AllLinked(sh, sh.mem[p].val.uses)
  }

  ghost predicate Structure(sh: Shared) {
    && |sh.chains| == |sh.slots| > 0 && Grounded(sh)
    && (forall z {:trigger LookAtState(z)} :: LookAtState(z) ==>
      && (forall sl {:trigger sh.chains[sl]} :: 0 <= sl < |sh.slots| ==> ChainGood(sh, sl, sh.chains[sl]))
      && (forall k {:trigger k in sh.table} :: k in sh.table ==>
        sh.table[k] in sh.mem && sh.mem[sh.table[k]].key == k && sh.table[k] in ChainFor(sh, k)))
  }

  // ---- single threads ----

  /** The thread's own block. */
  predicate Own(sh: Shared, e: Ptr) {
    e != 0 && e in sh.mem && !Linked(sh, e)
  }

  /** The entry has been written and waits to be linked. */
  predicate Written(sh: Shared, k: Bytes, v: Content, n: nat, e: Ptr) {
    Own(sh, e) && sh.mem[e] == Cell(k, v, 0, 0, n)
  }

  /** The entry has been linked by its thread. */
  predicate Bound(sh: Shared, k: Bytes, v: Content, n: nat, e: Ptr) {
    Stored(sh, k, v, n, e) && e !in sh.wins
  }

  predicate Stored(sh: Shared, k: Bytes, v: Content, n: nat, e: Ptr) {
    e != 0 && Linked(sh, e) && sh.mem[e].key == k && sh.mem[e].val == v && sh.mem[e].memSize == n
  }

  /** A walk down the chain of `k` stands behind `pos` entries of other keys, the last of them `prev`. */
  ghost predicate Behind(sh: Shared, k: Bytes, pos: nat, prev: Ptr)
    requires |sh.chains| == |sh.slots| > 0
  {
    var c := ChainFor(sh, k);
    && pos <= |c| && prev == (if pos == 0 then 0 else c[pos - 1])
    && (forall j {:trigger c[j]} :: 0 <= j < pos ==> KeyAt(sh, c[j]) != k)
  }

  ghost predicate StoreOk(sh: Shared, pc: PC)
    requires pc.Storing? && |sh.chains| == |sh.slots| > 0
  {
    match pc.at
    case WantAlloc => pc.e == 0
    case Allocating => pc.e == 0
    case Allocated => pc.e != 0 ==> Own(sh, pc.e)
    case Copying => Own(sh, pc.e)
    case WantGlobal => Written(sh, pc.k, pc.v, pc.n, pc.e)
    case WantFine => Written(sh, pc.k, pc.v, pc.n, pc.e)
    case Walking => Written(sh, pc.k, pc.v, pc.n, pc.e) && Behind(sh, pc.k, pc.pos, pc.prev)
    case Linking =>
      Written(sh, pc.k, pc.v, pc.n, pc.e) && Behind(sh, pc.k, pc.pos, pc.prev) && pc.pos == |ChainFor(sh, pc.k)| &&
        pc.k !in sh.table
    case Tally0 => pc.ok && Bound(sh, pc.k, pc.v, pc.n, pc.e)
    case Tally1 => pc.ok && Bound(sh, pc.k, pc.v, pc.n, pc.e)
    case Tally2 => pc.ok && Bound(sh, pc.k, pc.v, pc.n, pc.e)
    case DropFine => Decided(sh, pc)
    case DropGlobal => Decided(sh, pc)
    case WantFree => !pc.ok && Decided(sh, pc)
    case Freeing => !pc.ok && Decided(sh, pc)
    case Freed => !pc.ok && pc.e != 0 && pc.k in sh.table
    case Returned => if pc.ok then Stored(sh, pc.k, pc.v, pc.n, pc.e) else pc.e != 0 ==> pc.k in sh.table
  }

  /** The insertion has been made, or turned down because the key is bound. */
  ghost predicate Decided(sh: Shared, pc: PC)
    requires pc.Storing?
  {
    if pc.ok then Bound(sh, pc.k, pc.v, pc.n, pc.e) else Written(sh, pc.k, pc.v, pc.n, pc.e) && pc.k in sh.table
  }

  /** A lookup under its lock: the binding it will report is the one there was when the lock was taken. */
  ghost predicate FindOk(sh: Shared, pc: PC)
    requires pc.Finding? && |sh.chains| == |sh.slots| > 0
  {
    match pc.find
    case FindWant => true
    case FindLocked => Now(sh, pc.k) == pc.had
    case FindWalking =>
      var c := ChainFor(sh, pc.k);
      && Now(sh, pc.k) == pc.had && pc.pos <= |c|
      && (forall j {:trigger c[j]} :: 0 <= j < pc.pos ==> KeyAt(sh, c[j]) != pc.k)
      && if pc.cur == 0 then pc.had == 0 else pc.pos < |c| && c[pc.pos] == pc.cur
    case Hit1 => Now(sh, pc.k) == pc.had && pc.cur == pc.had != 0
    case Hit2 => Now(sh, pc.k) == pc.had && pc.cur == pc.had != 0
    case Missing => Now(sh, pc.k) == pc.had && pc.cur == pc.had == 0
    case FindDrop => Now(sh, pc.k) == pc.had && pc.cur == pc.had
    case Using => pc.cur != 0 ==> Now(sh, pc.k) == pc.cur
  }

  ghost predicate InfoOk(sh: Shared, pc: PC)
    requires pc.Listing? && |sh.chains| == |sh.slots| > 0
  {
    match pc.info
    case InfoWant => true
    case InfoLocked => pc.was == sh.table
    case InfoWalking =>
      && pc.was == sh.table && pc.slot <= |sh.slots|
      && (if pc.slot == |sh.slots| then pc.here == 0 && pc.list == Flat(sh.chains, pc.slot)
          else
            var c := sh.chains[pc.slot];
            pc.spot <= |c| && pc.list == Flat(sh.chains, pc.slot) + c[..pc.spot] &&
              pc.here == (if pc.spot < |c| then c[pc.spot] else 0))
    case InfoDrop => pc.was == sh.table && pc.list == Flat(sh.chains, |sh.chains|)
    case Reported => forall p :: p in pc.list ==> Linked(sh, p)
  }

  ghost predicate ThreadOk(sh: Shared, pc: PC)
    requires |sh.chains| == |sh.slots| > 0
  {
    match pc
    case Idle => true
    case Storing(_, _, _, _, _, _, _, _) => StoreOk(sh, pc) && AllLinked(sh, pc.v.uses)
    case Finding(_, _, _, _, _, _) => FindOk(sh, pc)
    case Listing(_, _, _, _, _, _) => InfoOk(sh, pc)
  }

  // ---- pairs of threads ----

  /** The block a storing thread is responsible for. */
  function Block(pc: PC): Ptr {
    if pc.Storing? && !pc.at.WantAlloc? && !pc.at.Allocating? && !pc.at.Freed? && !pc.at.Returned? then pc.e else 0
  }

  predicate Apart2(a: PC, b: PC) {
    Compatible(a, b) && (Block(a) != 0 ==> Block(a) != Block(b))
  }

  ghost predicate Pairwise(pcs: seq<PC>) {
    forall z {:trigger LookAtLayout(z)} :: LookAtLayout(z) ==>
      forall t, u {:trigger pcs[t], pcs[u]} :: 0 <= t < |pcs| && 0 <= u < |pcs| && t != u ==> Apart2(pcs[t], pcs[u])
  }

  ghost predicate Threads(s: State)
    requires |s.sh.chains| == |s.sh.slots| > 0
  {
    forall z {:trigger LookAtWalk(z)} :: LookAtWalk(z) ==>
      forall t {:trigger s.pcs[t]} :: 0 <= t < |s.pcs| ==> ThreadOk(s.sh, s.pcs[t])
  }

  // ---- counters ----

  function MemTotal(mem: Cells, ps: seq<Ptr>): nat {
    if ps == [] then 0
    else MemTotal(mem, ps[..|ps| - 1]) + (if ps[|ps| - 1] in mem then mem[ps[|ps| - 1]].memSize else 0)
  }

  function HitTotal(mem: Cells, ps: seq<Ptr>): nat {
    if ps == [] then 0
    else HitTotal(mem, ps[..|ps| - 1]) + (if ps[|ps| - 1] in mem then mem[ps[|ps| - 1]].hits else 0)
  }

  /** Threads between the two increments of a hit. */
  function Between(pcs: seq<PC>): nat {
    if pcs == [] then 0
    else Between(pcs[..|pcs| - 1]) + (if pcs[|pcs| - 1].Finding? && pcs[|pcs| - 1].find.Hit2? then 1 else 0)
  }

  predicate Tallying(pc: PC) {
    pc.Storing? && (pc.at.Tally0? || pc.at.Tally1? || pc.at.Tally2?)
  }

  /** The counters lag behind by what the inserting thread has still to add. */
  ghost predicate Tally(s: State) {
    forall z {:trigger LookAtSlots(z)} :: LookAtSlots(z) ==>
      && ((forall t {:trigger s.pcs[t]} :: 0 <= t < |s.pcs| ==> !Tallying(s.pcs[t])) ==> Lag(s.sh, 0, 0, 0))
      && (forall t {:trigger s.pcs[t]} :: 0 <= t < |s.pcs| && Tallying(s.pcs[t]) ==>
        var pc := s.pcs[t];
        Lag(s.sh, if pc.at.Tally0? then pc.n else 0, if pc.at.Tally2? then 0 else 1, 1))
  }

  ghost predicate Lag(sh: Shared, m: nat, e: nat, i: nat) {
    sh.memSize + m == MemTotal(sh.mem, sh.order) && sh.entries + e == |sh.order| && sh.inserts + i == |sh.order|
  }

  /** Header hits are the entries' hits, plus one for every thread between the two increments. */
  ghost predicate HitsAgree(s: State) {
    forall z {:trigger LookAtProgress(z)} :: LookAtProgress(z) ==>
      s.sh.hits == HitTotal(s.sh.mem, s.sh.order) + Between(s.pcs)
  }

  /**
   * History: `order` lists the bound entries, `wins` the stores that returned 1, `held` the entries handed to readers.
   */
  ghost predicate History(sh: Shared) {
    forall z {:trigger LookInside(z)} :: LookInside(z) ==>
      && Distinct(sh.order)
      && (forall p {:trigger p in sh.order} :: p in sh.order <==> Linked(sh, p))
      && Distinct(sh.wins)
      && (forall p {:trigger p in sh.wins} :: p in sh.wins ==> Linked(sh, p))
      && (forall p {:trigger p in sh.held} :: p in sh.held ==> p != 0 && Linked(sh, p))
  }

  ghost predicate Inv(s: State) {
    Structure(s.sh) && Threads(s) && Pairwise(s.pcs) && Tally(s) && HitsAgree(s) && History(s.sh)
  }
}
