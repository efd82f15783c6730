/** The two-tier cache over many CPUs and sockets: one L2 table per CPU, one L3
    table and one set of external slots per socket, counters per CPU and a clock.
    Every call is pinned to one CPU and taken as one step. Each table keeps its own
    sequence of entries; that the code links one and the same `node` into both
    tiers is the subject of modules SharedNode, SharedPair and SharedStores. */
module System {
  import opened Words
  import opened Entries
  import opened Tables
  import opened Payloads
  import opened Slots

  const EINVAL: int := 22
  const ENOMEM: int := 12

  // nodeOf is cpu_to_node; ttl is msecs_to_jiffies(1000).
  datatype Config = Config(nodeOf: seq<nat>, sockets: nat, boot: u64, ttl: nat)

  ghost predicate ValidConfig(g: Config) {
    0 < g.sockets && 0 < g.ttl < HALF
  }

  function SocketOf(g: Config, c: nat): nat
    requires c < |g.nodeOf|
  {
    if g.nodeOf[c] >= g.sockets then 0 else g.nodeOf[c]
  }

  datatype Counters = Counters(l2Hits: u64, l3Hits: u64, misses: u64, invalidations: u64, cyclesSaved: u64)

  /** `now` counts timer interrupts since boot without wrapping; the code sees
      only its 64-bit image, jiffies. `nextId` numbers the stores. */
  datatype Sys = Sys(
    l2: seq<Table>, l3: seq<Table>, slots: seq<seq<Slot>>, counters: seq<Counters>, now: nat, nextId: nat)

  ghost predicate Shape(g: Config, s: Sys) {
    && ValidConfig(g)
    && |s.l2| == |s.counters| == |g.nodeOf| && |s.l3| == |s.slots| == g.sockets
    && (forall c :: 0 <= c < |s.l2| ==> |s.l2[c]| == L2_ENTRIES)
    && (forall k :: 0 <= k < |s.l3| ==> |s.l3[k]| == L3_ENTRIES)
    && (forall k :: 0 <= k < |s.slots| ==> |s.slots[k]| == EXT_SLOTS)
  }

  function EmptyTable(n: nat): Table {
    seq(n, _ => [])
  }

  const ZERO_COUNTERS := Counters(0, 0, 0, 0, 0)

  // The state kcr_init leaves behind.
  function Init(g: Config): Sys {
    Sys(seq(|g.nodeOf|, _ => EmptyTable(L2_ENTRIES)), seq(g.sockets, _ => EmptyTable(L3_ENTRIES)),
        seq(g.sockets, _ => seq(EXT_SLOTS, _ => FREE_SLOT)), seq(|g.nodeOf|, _ => ZERO_COUNTERS), 0, 0)
  }

  function Jiffies(g: Config, s: Sys): u64 {
    Clock(g.boot, s.now)
  }

  // --- lookup ---

  function InL2(g: Config, s: Sys, c: nat, fingerprint: u64, mm: u64): Option<Entry>
    requires Shape(g, s) && c < |s.l2|
  {
    Find(s.l2[c], fingerprint, mm, Jiffies(g, s))
  }

  function InL3(g: Config, s: Sys, c: nat, fingerprint: u64, mm: u64): Option<Entry>
    requires Shape(g, s) && c < |s.l2|
  {
    Find(s.l3[SocketOf(g, c)], fingerprint, mm, Jiffies(g, s))
  }

  // What lookup_unified returns.
  function Answer(g: Config, s: Sys, c: nat, fingerprint: u64, mm: u64): Option<Entry>
    requires Shape(g, s) && c < |s.l2|
  {
    if InL2(g, s, c, fingerprint, mm).Some? then InL2(g, s, c, fingerprint, mm)
    else InL3(g, s, c, fingerprint, mm)
  }

  function Promote(g: Config, s: Sys, c: nat, e: Entry): (t: Sys)
    requires Shape(g, s) && c < |s.l2|
    ensures Shape(g, t)
  {
    var k := SocketOf(g, c);
    s.(l3 := s.l3[k := Detach(s.l3[k], e)], l2 := s.l2[c := Attach(s.l2[c], e)])
  }

  function Counted(s: Sys, c: nat, n: Counters): Sys
    requires c < |s.counters|
  {
    s.(counters := s.counters[c := n])
  }

  // The state lookup_unified leaves behind.
  function AfterLookup(g: Config, s: Sys, c: nat, fingerprint: u64, mm: u64): (t: Sys)
    requires Shape(g, s) && c < |s.l2|
    ensures Shape(g, t)
  {
    var n := s.counters[c];
    if InL2(g, s, c, fingerprint, mm).Some? then
      Counted(s, c, n.(l2Hits := Wrap(n.l2Hits + 1)))
    else if InL3(g, s, c, fingerprint, mm).Some? then
      Counted(Promote(g, s, c, InL3(g, s, c, fingerprint, mm).value), c, n.(l3Hits := Wrap(n.l3Hits + 1)))
    else
      Counted(s, c, n.(misses := Wrap(n.misses + 1)))
  }

  // --- store ---

  // What the allocators answer: kzalloc succeeds or not, kvmalloc returns a pointer or NULL.
  datatype Allocator = Allocator(entryOk: bool, pointer: u64)

  function NewEntry(g: Config, s: Sys, c: nat, fingerprint: u64, mm: u64, slot: Option<nat>, payload: seq<u8>): Entry {
    Entry(s.nextId, c, s.now, slot, fingerprint, mm, mm, ExpiryWord(g.boot, g.ttl, s.now), 0, MASK_RAX, payload)
  }

  datatype Stored = Refused(code: int) | Accepted(e: Entry)

  // How far store_result gets: `data` is None for a NULL pointer.
  function Prepare(g: Config, s: Sys, c: nat, fingerprint: u64, data: Option<seq<u8>>, mm: u64,
                   a: Allocator): (r: Stored)
    requires Shape(g, s) && c < |s.l2|
    requires data.Some? ==> |data.value| < 0x1_0000_0000
    ensures r.Accepted? ==> data.Some? && (r.e.slot.Some? ==> r.e.slot.value < EXT_SLOTS)
  {
    if data.None? || |data.value| == 0 then Refused(-EINVAL)
    else if !a.entryOk then Refused(-ENOMEM)
    else if |data.value| > RESULT_SIZE_MAX then
      match TryAllocate(s.slots[SocketOf(g, c)], a.pointer)
      case Failed => Refused(-ENOMEM)
      case Got(k) => Accepted(NewEntry(g, s, c, fingerprint, mm, Some(k), ExternalPayload(a.pointer, |data.value|)))
    else Accepted(NewEntry(g, s, c, fingerprint, mm, None, InlinePayload(data.value)))
  }

  // The state store_result leaves behind.
  function AfterStore(g: Config, s: Sys, c: nat, fingerprint: u64, data: Option<seq<u8>>, mm: u64,
                      a: Allocator): (t: Sys)
    requires Shape(g, s) && c < |s.l2|
    requires data.Some? ==> |data.value| < 0x1_0000_0000
    ensures Shape(g, t)
  {
    match Prepare(g, s, c, fingerprint, data, mm, a)
    case Refused(_) => s
    case Accepted(e) =>
      var k := SocketOf(g, c);
      var filled := if e.slot.Some? then
                      s.slots[k := Fill(s.slots[k], e.slot.value, a.pointer, data.value)]
                    else s.slots;
      s.(slots := filled, l2 := s.l2[c := Store(s.l2[c], e)], l3 := s.l3[k := Store(s.l3[k], e)],
         nextId := s.nextId + 1)
  }

  // --- invalidation ---

  function AfterInvalidate(g: Config, s: Sys, c: nat, mm: u64): (t: Sys)
    requires Shape(g, s) && c < |s.l2|
    ensures Shape(g, t)
  {
    var k := SocketOf(g, c);
    var n := s.counters[c];
    s.(l2 := s.l2[c := PurgeAll(s.l2[c], mm)], l3 := s.l3[k := PurgeAll(s.l3[k], mm)],
       slots := s.slots[k := FreeAll(s.slots[k])],
       counters := s.counters[c := n.(invalidations := Wrap(n.invalidations + Removed(s.l2[c], mm)))])
  }

  // --- runs ---

  datatype Call =
    | Ticks(n: nat)
    | Lookup(cpu: nat, fingerprint: u64, mm: u64)
    | StoreResult(cpu: nat, fingerprint: u64, data: Option<seq<u8>>, mm: u64, a: Allocator)
    | InvalidateRange(cpu: nat, mm: u64)

  predicate ValidCall(g: Config, call: Call) {
    match call
    case Ticks(_) => true
    case Lookup(c, _, _) => c < |g.nodeOf|
    case StoreResult(c, _, data, _, _) =>
      c < |g.nodeOf| && (data.Some? ==> |data.value| < 0x1_0000_0000)
    case InvalidateRange(c, _) => c < |g.nodeOf|
  }

  ghost predicate ValidCalls(g: Config, calls: seq<Call>) {
    forall i :: 0 <= i < |calls| ==> ValidCall(g, calls[i])
  }

  function Step(g: Config, s: Sys, call: Call): (t: Sys)
    requires Shape(g, s) && ValidCall(g, call)
    ensures Shape(g, t)
  {
    match call
    case Ticks(n) => s.(now := s.now + n)
    case Lookup(c, fingerprint, mm) => AfterLookup(g, s, c, fingerprint, mm)
    case StoreResult(c, fingerprint, data, mm, a) => AfterStore(g, s, c, fingerprint, data, mm, a)
    case InvalidateRange(c, mm) => AfterInvalidate(g, s, c, mm)
  }

  function Run(g: Config, s: Sys, calls: seq<Call>): (t: Sys)
    requires Shape(g, s) && ValidCalls(g, calls)
    ensures Shape(g, t)
    decreases |calls|
  {
    if calls == [] then s
    else assert ValidCall(g, calls[0]); Run(g, Step(g, s, calls[0]), calls[1..])
  }
}
