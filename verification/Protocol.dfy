/**
 * Stores, lookups and whole-table walks by many threads, one atomic step at a time. A lock is held by
 * exactly the threads whose position lies between taking and releasing it.
 */
module Protocol {
  import opened Values
  import opened Chains

  const FINE_LOCKS: nat := 16

  /** The fine-grained lock of a key: hash & 15. */
  function FineLock(k: Bytes): nat {
    HashOf(k) % FINE_LOCKS
  }

  /** A value as it is stored: `uses` are the entries, other than its own, whose blocks its key and value lead into. */
  datatype Content = Content(val: Zval, uses: set<Ptr>)

  /** An entry block in shared memory. */
  datatype Cell = Cell(key: Bytes, val: Content, next: Ptr, hits: nat, memSize: nat)

  type Cells = map<Ptr, Cell>

  const BLANK: Cell := Cell([], Content(Undef, {}), 0, 0, 0)

  /** What all threads share. The last five fields record history and are read by no step. */
  datatype Shared = Shared(
    slots: seq<Ptr>, mem: Cells, hits: nat, misses: nat, inserts: nat, entries: nat, memSize: nat,
    chains: seq<seq<Ptr>>, table: map<Bytes, Ptr>, order: seq<Ptr>, wins: seq<Ptr>, held: set<Ptr>)

  // ---- positions of a thread ----

  datatype StoreAt =
    | WantAlloc | Allocating | Allocated      // immutable_cache_sma_malloc_ex
    | Copying                                 // immutable_cache_persist_copy, into a private block
    | WantGlobal | WantFine                   // immutable_cache_cache_wlock
    | Walking | Linking | Tally0 | Tally1 | Tally2  // wlocked_insert_exclusive
    | DropFine | DropGlobal                   // immutable_cache_cache_wunlock
    | WantFree | Freeing | Freed              // free_entry of a rejected entry
    | Returned

  datatype FindAt = FindWant | FindLocked | FindWalking | Hit1 | Hit2 | Missing | FindDrop | Using

  datatype InfoAt = InfoWant | InfoLocked | InfoWalking | InfoDrop | Reported

  datatype PC =
    | Idle
    | Storing(at: StoreAt, k: Bytes, v: Content, n: nat, e: Ptr, pos: nat, prev: Ptr, ok: bool)
    | Finding(find: FindAt, k: Bytes, stat: bool, pos: nat, cur: Ptr, had: Ptr)
    | Listing(info: InfoAt, slot: nat, spot: nat, here: Ptr, list: seq<Ptr>, was: map<Bytes, Ptr>)

  datatype State = State(pcs: seq<PC>, sh: Shared, protect: bool)

  /** The calls a thread can start. */
  datatype Call = Store(k: Bytes, v: Content, n: nat) | Find(k: Bytes, stat: bool) | Info

  function Started(c: Call): PC {
    match c
    case Store(k, v, n) => Storing(WantAlloc, k, v, n, 0, 0, 0, false)
    case Find(k, stat) => Finding(FindWant, k, stat, 0, 0, 0)
    case Info => Listing(InfoWant, 0, 0, 0, [], map[])
  }

  /** A process has pointers into shared memory only from entries that were handed out. */
  predicate MayStart(sh: Shared, c: Call) {
    c.Store? ==> c.v.uses <= sh.held
  }

  // ---- locks ----

  predicate GlobalWrite(pc: PC) {
    pc.Storing? && (pc.at.Allocating? || pc.at.Allocated? || pc.at.WantFine? || Inserting(pc) || pc.at.DropGlobal? ||
                    pc.at.Freeing? || pc.at.Freed?)
  }

  /** Inside immutable_cache_cache_wlocked_insert_exclusive, or about to release the fine lock after it. */
  predicate Inserting(pc: PC) {
    pc.Storing? && (pc.at.Walking? || pc.at.Linking? || pc.at.Tally0? || pc.at.Tally1? || pc.at.Tally2? ||
      pc.at.DropFine?)
  }

  predicate GlobalRead(pc: PC) {
    pc.Listing? && (pc.info.InfoLocked? || pc.info.InfoWalking? || pc.info.InfoDrop?)
  }

  predicate FineRead(pc: PC) {
    pc.Finding? && !pc.find.FindWant? && !pc.find.Using?
  }

  /** Two threads may be at these positions at the same time. */
  predicate Compatible(a: PC, b: PC) {
    && !(GlobalWrite(a) && (GlobalWrite(b) || GlobalRead(b)))
    && !(GlobalWrite(b) && GlobalRead(a))
    && !(Inserting(a) && FineRead(b) && FineLock(a.k) == FineLock(b.k))
    && !(Inserting(b) && FineRead(a) && FineLock(b.k) == FineLock(a.k))
  }

  predicate GlobalFree(s: State) {
    forall u :: 0 <= u < |s.pcs| ==> !GlobalWrite(s.pcs[u]) && !GlobalRead(s.pcs[u])
  }

  predicate NoGlobalWriter(s: State) {
    forall u :: 0 <= u < |s.pcs| ==> !GlobalWrite(s.pcs[u])
  }

  predicate NoFineReader(s: State, k: Bytes) {
    forall u :: 0 <= u < |s.pcs| && FineRead(s.pcs[u]) ==> FineLock(s.pcs[u].k) != FineLock(k)
  }

  predicate NoFineWriter(s: State, k: Bytes) {
    forall u :: 0 <= u < |s.pcs| && Inserting(s.pcs[u]) ==> FineLock(s.pcs[u].k) != FineLock(k)
  }

  // ---- steps ----

  /** The pointer a walk reads next: the slot, or the link of the entry before. */
  function Link(sh: Shared, k: Bytes, prev: Ptr): Ptr {
    if prev == 0 then (if |sh.slots| > 0 then sh.slots[SlotOf(k, |sh.slots|)] else 0)
    else if prev in sh.mem then sh.mem[prev].next else 0
  }

  function KeyAt(sh: Shared, p: Ptr): Bytes {
    if p in sh.mem then sh.mem[p].key else []
  }

  function Now(sh: Shared, k: Bytes): Ptr {
    if k in sh.table then sh.table[k] else 0
  }

  /** Thread at `pc` can take its next step; `choice` is what the allocator comes up with. */
  predicate CanStep(s: State, pc: PC, choice: Ptr) {
    match pc
    case Idle => false
    case Storing(at, k, _, _, _, _, _, _) =>
      (match at
       case WantAlloc => GlobalFree(s)
       case Allocating => choice == 0 || choice !in s.sh.mem
       case WantGlobal => GlobalFree(s)
       case WantFine => NoFineReader(s, k) && NoFineWriter(s, k)
       case WantFree => GlobalFree(s)
       case _ => true)
    case Finding(find, k, _, _, _, _) => find.FindWant? ==> NoFineWriter(s, k)
    case Listing(info, _, _, _, _, _) => info.InfoWant? ==> NoGlobalWriter(s)
  }

  /** *entry = new_entry. */
  function Published(sh: Shared, k: Bytes, e: Ptr, prev: Ptr): Shared
    requires |sh.chains| == |sh.slots| > 0 && e in sh.mem && (prev != 0 ==> prev in sh.mem)
  {
    var sl := SlotOf(k, |sh.slots|);
    var mem := sh.mem[e := sh.mem[e].(next := 0)];
    sh.(slots := if prev == 0 then sh.slots[sl := e] else sh.slots,
        mem := if prev == 0 then mem else mem[prev := mem[prev].(next := e)],
        chains := sh.chains[sl := sh.chains[sl] + [e]],
        table := sh.table[k := e],
        order := sh.order + [e])
  }

  /** Every pointer the next step follows leads to an allocated block. */
  predicate Ready(sh: Shared, pc: PC) {
    && |sh.chains| == |sh.slots| > 0
    && match pc
       case Idle => true
       case Storing(at, k, _, _, e, _, prev, _) =>
         && (at.Copying? || at.Linking? || at.Freeing? ==> e in sh.mem)
         && (at.Walking? || at.Linking? ==>
           (prev != 0 ==> prev in sh.mem) && (Link(sh, k, prev) != 0 ==> Link(sh, k, prev) in sh.mem))
       case Finding(find, _, _, _, cur, _) =>
         && ((find.FindWalking? || find.Using?) && cur != 0 ==> cur in sh.mem)
         && (find.Hit2? ==> cur in sh.mem)
       case Listing(info, _, _, here, _, _) => info.InfoWalking? && here != 0 ==> here in sh.mem
  }

  /** The next step of a storing thread. */
  function StoreStep(sh: Shared, pc: PC, choice: Ptr): (PC, Shared)
    requires pc.Storing? && Ready(sh, pc)
  {
    match pc.at
    case WantAlloc => (pc.(at := Allocating), sh)
    case Allocating =>
      if choice == 0 then (pc.(at := Allocated, e := 0), sh)
      else (pc.(at := Allocated, e := choice), sh.(mem := sh.mem[choice := BLANK]))
    case Allocated =>
      if pc.e != 0 then (pc.(at := Copying), sh)
      else if choice == 0 then (pc.(at := Returned, ok := false), sh)
      else (pc.(at := WantAlloc), sh)  // another segment
    case Copying => (pc.(at := WantGlobal), sh.(mem := sh.mem[pc.e := Cell(pc.k, pc.v, 0, 0, pc.n)]))
    case WantGlobal => (pc.(at := WantFine), sh)
    case WantFine => (pc.(at := Walking, pos := 0, prev := 0), sh)
    case Walking =>
      var p := Link(sh, pc.k, pc.prev);
      if p == 0 then (pc.(at := Linking), sh)
      else if KeyAt(sh, p) == pc.k then (pc.(at := DropFine, ok := false), sh)
      else (pc.(pos := pc.pos + 1, prev := p), sh)
    case Linking => (pc.(at := Tally0, ok := true), Published(sh, pc.k, pc.e, pc.prev))
    case Tally0 => (pc.(at := Tally1), sh.(memSize := sh.memSize + pc.n))
    case Tally1 => (pc.(at := Tally2), sh.(entries := sh.entries + 1))
    case Tally2 => (pc.(at := DropFine), sh.(inserts := sh.inserts + 1))
    case DropFine => (pc.(at := DropGlobal), sh)
    case DropGlobal =>
      if pc.ok then (pc.(at := Returned), sh.(wins := sh.wins + [pc.e])) else (pc.(at := WantFree), sh)
    case WantFree => (pc.(at := Freeing), sh)
    case Freeing => (pc.(at := Freed), sh.(mem := sh.mem - {pc.e}))
    case Freed => (pc.(at := Returned), sh)
    case Returned => (Idle, sh)
  }

  /** The next step of a lookup. */
  function FindStep(sh: Shared, pc: PC, protect: bool): (PC, Shared)
    requires pc.Finding? && Ready(sh, pc)
  {
    match pc.find
    case FindWant => (pc.(find := FindLocked, had := Now(sh, pc.k)), sh)
    case FindLocked => (pc.(find := FindWalking, pos := 0, cur := Link(sh, pc.k, 0)), sh)
    case FindWalking =>
      if pc.cur == 0 then (pc.(find := if pc.stat && !protect then Missing else FindDrop), sh)
      else if KeyAt(sh, pc.cur) == pc.k then (pc.(find := if pc.stat && !protect then Hit1 else FindDrop), sh)
      else (pc.(pos := pc.pos + 1, cur := Link(sh, pc.k, pc.cur)), sh)
    case Hit1 => (pc.(find := Hit2), sh.(hits := sh.hits + 1))
    case Hit2 => (pc.(find := FindDrop), sh.(mem := sh.mem[pc.cur := sh.mem[pc.cur].(hits := sh.mem[pc.cur].hits + 1)]))
    case Missing => (pc.(find := FindDrop), sh.(misses := sh.misses + 1))
    case FindDrop => (pc.(find := Using), if pc.cur == 0 then sh else sh.(held := sh.held + Reached(sh.mem, {pc.cur})))
    case Using => (Idle, sh)
  }

  /** The next step of a walk over the whole table. */
  function InfoStep(sh: Shared, pc: PC): (PC, Shared)
    requires pc.Listing? && Ready(sh, pc)
  {
    match pc.info
    case InfoWant => (pc.(info := InfoLocked, was := sh.table), sh)
    case InfoLocked => (pc.(info := InfoWalking, slot := 0, spot := 0, here := Head(sh, 0), list := []), sh)
    case InfoWalking =>
      if pc.slot >= |sh.slots| then (pc.(info := InfoDrop), sh)
      else if pc.here == 0 then (pc.(slot := pc.slot + 1, spot := 0, here := Head(sh, pc.slot + 1)), sh)
      else (pc.(list := pc.list + [pc.here], spot := pc.spot + 1, here := Link(sh, [], pc.here)), sh)
    case InfoDrop => (pc.(info := Reported), sh.(held := sh.held + Reached(sh.mem, set p | p in pc.list)))
    case Reported => (Idle, sh)
  }

  /** Entries handed out, and those whose blocks they lead into. */
  function Reached(mem: Cells, ps: set<Ptr>): set<Ptr> {
    ps + set p, q | p in ps && p in mem && q in mem[p].val.uses :: q
  }

  function Head(sh: Shared, slot: nat): Ptr {
    if slot < |sh.slots| then sh.slots[slot] else 0
  }

  /** The whole state after thread `t` has taken its next step. */
  function After(s: State, t: nat, choice: Ptr): State
    requires t < |s.pcs| && Ready(s.sh, s.pcs[t])
  {
    var pc := s.pcs[t];
    var next := match pc
      case Idle => (pc, s.sh)
      case Storing(_, _, _, _, _, _, _, _) => StoreStep(s.sh, pc, choice)
      case Finding(_, _, _, _, _, _) => FindStep(s.sh, pc, s.protect)
      case Listing(_, _, _, _, _, _) => InfoStep(s.sh, pc);
    s.(pcs := s.pcs[t := next.0], sh := next.1)
  }

  /** One step of one thread: it starts a call, or goes on with the one it is in. */
  ghost predicate Step(s: State, s': State) {
    exists t: nat, choice: Ptr, call: Call {:trigger Steps(s, s', t, choice, call)} :: Steps(s, s', t, choice, call)
  }

  predicate Steps(s: State, s': State, t: nat, choice: Ptr, call: Call) {
    && t < |s.pcs|
    && if s.pcs[t].Idle? then MayStart(s.sh, call) && s' == s.(pcs := s.pcs[t := Started(call)])
       else Ready(s.sh, s.pcs[t]) && CanStep(s, s.pcs[t], choice) && s' == After(s, t, choice)
  }

  predicate Init(s: State) {
    && (forall t :: 0 <= t < |s.pcs| ==> s.pcs[t].Idle?)
    && |s.sh.slots| > 0 && (forall i :: 0 <= i < |s.sh.slots| ==> s.sh.slots[i] == 0)
    && s.sh == Shared(s.sh.slots, map[], 0, 0, 0, 0, 0, seq(|s.sh.slots|, _ => []), map[], [], [], {})
  }
}
