/** The whole cache in place: tiers of mutable nodes, slot arrays and counters, with
    the entry points lookup_unified, store_result and invalidate_range. Each of them is
    proved against the step of module System that carries its name. */
module Cache {
  import opened Words
  import opened Entries
  import Tables
  import opened Payloads
  import opened Slots
  import S = System
  import Invariant = SystemInvariant
  import opened Buckets
  import opened Tiers

  class KcrCache {
    const g: S.Config
    const cpus: nat
    const tiers: seq<Tier>            // the L2 tier of every CPU, then the L3 tier of every socket
    const slots: seq<array<Slot>>     // the external slots of every socket
    const counters: array<S.Counters> // the statistics of every CPU
    var now: nat
    var nextId: nat
    ghost var tables: seq<Tables.Table>
    ghost var held: seq<seq<Slot>>
    ghost var Repr: set<object>

    ghost predicate TiersFramed()
      reads this, Repr
    {
      && this in Repr && counters in Repr && |tiers| == |tables|
      && (forall i {:trigger tiers[i]} :: 0 <= i < |tiers| ==>
            && tiers[i] in Repr && tiers[i].Repr <= Repr
            && this !in tiers[i].Repr && counters !in tiers[i].Repr
            && tiers[i].Valid() && tiers[i].table == tables[i])
      && (forall i :: 0 <= i < |tables| ==> 0 < |tables[i]|)
      && (forall i, j :: 0 <= i < j < |tiers| ==> tiers[i].Repr !! tiers[j].Repr)
    }

    ghost predicate SlotsFramed()
      reads this, Repr
      requires TiersFramed()
    {
      && |slots| == |held|
      && (forall k {:trigger slots[k]} :: 0 <= k < |slots| ==>
            slots[k] in Repr && slots[k] as object != counters && slots[k][..] == held[k])
      && (forall k, i {:trigger slots[k], tiers[i]} :: 0 <= k < |slots| && 0 <= i < |tiers| ==>
            slots[k] !in tiers[i].Repr)
      && (forall k, h :: 0 <= k < h < |slots| ==> slots[k] != slots[h])
    }

    ghost predicate Framed()
      reads this, Repr
    {
      && TiersFramed() && SlotsFramed()
      && cpus == |g.nodeOf| == counters.Length && |tiers| == cpus + g.sockets && |slots| == g.sockets
    }

    ghost function State(): S.Sys
      reads this, counters
      requires cpus <= |tables|
    {
      S.Sys(tables[..cpus], tables[cpus..], held, counters[..], now, nextId)
    }

    ghost predicate Valid()
      reads this, Repr
      ensures Valid() ==> this in Repr && counters in Repr && cpus <= |tables| && cpus == |g.nodeOf|
    {
      Framed() && Invariant.Inv(g, State())
    }

    // --- the empty cache kcr_init builds ---

    constructor (g: S.Config)
      requires S.ValidConfig(g)
      ensures Valid() && fresh(Repr) && this.g == g
      ensures State() == S.Init(g)
    {
      Invariant.InitInv(g);
      var n := |g.nodeOf|;
      var ts, footprint := NewTiers(n, g.sockets);
      var ss := NewSlots(g.sockets);
      var cs := new S.Counters[n](_ => S.ZERO_COUNTERS);
      this.g, cpus, tiers, slots, counters := g, n, ts, ss, cs;
      now, nextId := 0, 0;
      tables := EmptyTables(n, g.sockets);
      held := seq(g.sockets, _ => seq(EXT_SLOTS, _ => FREE_SLOT));
      Repr := footprint + (set k | 0 <= k < |ss| :: ss[k] as object) + {this, cs};
      new;
      assert tables[..cpus] == S.Init(g).l2 && tables[cpus..] == S.Init(g).l3;
      assert counters[..] == S.Init(g).counters;
    }

    // --- one tier at a time ---

    // Nothing but the tables differs from an earlier state.
    twostate predicate OnlyTables()
      reads this, counters
    {
      held == old(held) && counters[..] == old(counters[..]) && now == old(now) && nextId == old(nextId)
    }

    method TierStore(i: nat, e: Entry)
      requires Framed() && i < |tiers|
      modifies Repr
      ensures Framed() && fresh(Repr - old(Repr)) && OnlyTables()
      ensures tables == old(tables)[i := Tables.Store(old(tables)[i], e)]
    {
      tiers[i].Store(e);
      Repr := Repr + tiers[i].Repr;
      tables := tables[i := tiers[i].table];
    }

    method TierPurge(i: nat, mm: u64) returns (removed: nat)
      requires Framed() && i < |tiers|
      modifies Repr
      ensures Framed() && fresh(Repr - old(Repr)) && OnlyTables()
      ensures tables == old(tables)[i := Tables.PurgeAll(old(tables)[i], mm)]
      ensures removed == Tables.Removed(old(tables)[i], mm)
    {
      removed := tiers[i].PurgeMm(mm);
      tables := tables[i := tiers[i].table];
    }

    /** promote_to_l2: the node leaves the tier it was found in and is pushed on the other. */
    method Promote(from: nat, n: Node, to: nat)
      requires Framed() && from < |tiers| && to < |tiers| && from != to
      requires Tables.Unique(tables[from]) && n in NodesFor(from, n.e)
      modifies Repr
      ensures Framed() && Repr == old(Repr) && OnlyTables()
      ensures n in NodesFor(to, n.e)
      ensures tables == old(tables)[from := Tables.Detach(old(tables)[from], n.e)]
                                   [to := Tables.Attach(old(tables)[to], n.e)]
    {
      TierDetach(from, n);
      TierAttach(to, n);
    }

    // The nodes in the bucket of tier i that e belongs to.
    ghost function NodesFor(i: nat, e: Entry): seq<Node>
      reads this, Repr
      requires TiersFramed() && i < |tiers|
    {
      tiers[i].buckets[Tables.BucketOf(|tables[i]|, e.fingerprint)].nodes
    }

    // The node n belongs to the cache, but to none of its tiers.
    ghost predicate Loose(n: Node)
      reads this, Repr
      requires TiersFramed()
    {
      n in Repr && forall i {:trigger tiers[i]} :: 0 <= i < |tiers| ==> n !in tiers[i].Repr
    }

    method TierDetach(i: nat, n: Node)
      requires Framed() && i < |tiers| && Tables.Unique(tables[i]) && n in NodesFor(i, n.e)
      modifies Repr
      ensures Framed() && Repr == old(Repr) && OnlyTables() && Loose(n)
      ensures tables == old(tables)[i := Tables.Detach(old(tables)[i], n.e)]
    {
      tiers[i].Detach(n);
      tables := tables[i := tiers[i].table];
    }

    method TierAttach(i: nat, n: Node)
      requires Framed() && i < |tiers| && Loose(n)
      modifies Repr
      ensures Framed() && Repr == old(Repr) && OnlyTables() && n in NodesFor(i, n.e)
      ensures tables == old(tables)[i := Tables.Attach(old(tables)[i], n.e)]
    {
      tiers[i].Attach(n);
      tables := tables[i := tiers[i].table];
    }

    method Count(c: nat, n: S.Counters)
      requires Framed() && c < cpus
      modifies counters
      ensures Framed() && counters[..] == old(counters[..])[c := n]
    {
      counters[c] := n;
    }

    // --- the slots of one socket ---

    /** The search loop of store_result: the first NULL slot gets the block kvmalloc
        returned, if any, and the loop stops there. */
    method Allocate(k: nat, pointer: u64, data: seq<u8>) returns (slot: Allocation)
      requires Framed() && k < |slots|
      modifies this`held, slots[k]
      ensures Framed() && slot == TryAllocate(old(held)[k], pointer)
      ensures held == match slot
                      case Failed => old(held)
                      case Got(j) => old(held)[k := Slots.Fill(old(held)[k], j, pointer, data)]
    {
      ghost var before := held[k];
      var j := 0;
      while j < slots[k].Length
        invariant 0 <= j <= |before| && slots[k][..] == before
        invariant forall i :: 0 <= i < j ==> before[i].pointer != 0
      {
        if slots[k][j].pointer == 0 {
          FirstFreeIs(before, j);
          if pointer != 0 {
            slots[k][j] := Slot(pointer, |data|, data);
            held := held[k := Slots.Fill(before, j, pointer, data)];
            return Got(j);
          }
          return Failed;
        }
        j := j + 1;
      }
      FirstFreeIs(before, |before|);
      slot := Failed;
    }

    // The freeing loop of invalidate_range.
    method FreeSlots(k: nat)
      requires Framed() && k < |slots|
      modifies this`held, slots[k]
      ensures Framed() && held == old(held)[k := FreeAll(old(held)[k])]
    {
      ghost var before := held[k];
      for j := 0 to slots[k].Length
        invariant held == old(held) && |before| == slots[k].Length
        invariant forall i :: 0 <= i < j ==> slots[k][i] == FreeAll(before)[i]
        invariant forall i :: j <= i < |before| ==> slots[k][i] == before[i]
      {
        if slots[k][j].pointer != 0 {
          slots[k][j] := FREE_SLOT;
        }
      }
      held := held[k := slots[k][..]];
      assert slots[k][..] == FreeAll(before);
    }

    // --- the entry points ---

    // The node `hit` of the socket's L3 moves to CPU c's L2.
    method PromoteHit(c: nat, hit: Node)
      requires Framed() && S.Shape(g, State()) && c < cpus
      requires Tables.Unique(State().l3[S.SocketOf(g, c)])
      requires hit in NodesFor(cpus + S.SocketOf(g, c), hit.e)
      modifies Repr
      ensures Framed() && Repr == old(Repr) && OnlyTables()
      ensures hit in NodesFor(c, hit.e)
      ensures State() == S.Promote(g, old(State()), c, hit.e)
    {
      var k := S.SocketOf(g, c);
      SplitSet(tables, cpus, cpus + k, Tables.Detach(tables[cpus + k], hit.e));
      SplitSet(tables[cpus + k := Tables.Detach(tables[cpus + k], hit.e)], cpus, c, Tables.Attach(tables[c], hit.e));
      Promote(cpus + k, hit, c);
    }

    // An L3 hit: promoted, then counted.
    method TakeHit(c: nat, hit: Node, fingerprint: u64, mm: u64)
      requires Framed() && S.Shape(g, State()) && c < cpus
      requires Tables.Unique(State().l3[S.SocketOf(g, c)])
      requires S.InL2(g, State(), c, fingerprint, mm).None? && S.InL3(g, State(), c, fingerprint, mm) == Some(hit.e)
      requires hit in NodesFor(cpus + S.SocketOf(g, c), hit.e)
      modifies Repr
      ensures Framed() && Repr == old(Repr) && hit in NodesFor(c, hit.e)
      ensures State() == S.AfterLookup(g, old(State()), c, fingerprint, mm)
    {
      var n := counters[c];
      PromoteHit(c, hit);
      Count(c, n.(l3Hits := Wrap(n.l3Hits + 1)));
    }

    // The second half of lookup_unified: L2 has missed.
    method LookupBehindL2(c: nat, fingerprint: u64, mm: u64) returns (r: Option<Entry>)
      requires Framed() && S.Shape(g, State()) && c < cpus
      requires Tables.Unique(State().l3[S.SocketOf(g, c)])
      requires S.InL2(g, State(), c, fingerprint, mm).None?
      modifies Repr
      ensures Framed() && fresh(Repr - old(Repr))
      ensures r == S.InL3(g, old(State()), c, fingerprint, mm)
      ensures State() == S.AfterLookup(g, old(State()), c, fingerprint, mm)
    {
      ghost var s := State();
      if S.InL3(g, s, c, fingerprint, mm).Some? { Invariant.L3Hit(g, s, c, fingerprint, mm); }
      var n := counters[c];
      var hit := tiers[cpus + S.SocketOf(g, c)].Lookup(fingerprint, mm, Clock(g.boot, now));
      if hit != null {
        TakeHit(c, hit, fingerprint, mm);
        return Some(hit.e);
      }
      Count(c, n.(misses := Wrap(n.misses + 1)));
      r := None;
    }

    // lookup_unified, before the invariant is drawn from module SystemInvariant.
    method LookupSteps(c: nat, fingerprint: u64, mm: u64) returns (r: Option<Entry>)
      requires Framed() && S.Shape(g, State()) && c < cpus
      requires Tables.Unique(State().l3[S.SocketOf(g, c)])
      modifies Repr
      ensures Framed() && fresh(Repr - old(Repr))
      ensures r == S.Answer(g, old(State()), c, fingerprint, mm)
      ensures State() == S.AfterLookup(g, old(State()), c, fingerprint, mm)
    {
      var n := counters[c];
      var found := tiers[c].Lookup(fingerprint, mm, Clock(g.boot, now));
      if found != null {
        Count(c, n.(l2Hits := Wrap(n.l2Hits + 1)));
        return Some(found.e);
      }
      r := LookupBehindL2(c, fingerprint, mm);
    }

    method LookupUnified(c: nat, fingerprint: u64, mm: u64) returns (r: Option<Entry>)
      requires Valid() && c < cpus
      modifies Repr
      ensures Valid() && fresh(Repr - old(Repr))
      ensures r == S.Answer(g, old(State()), c, fingerprint, mm)
      ensures State() == S.AfterLookup(g, old(State()), c, fingerprint, mm)
    {
      ghost var s := State();
      assert Invariant.L3OK(g, s, S.SocketOf(g, c));
      r := LookupSteps(c, fingerprint, mm);
      Invariant.LookupInv(g, s, c, fingerprint, mm);
    }

    // The tail of store_result: the entry goes into both tiers.
    method Insert(c: nat, e: Entry)
      requires Framed() && c < cpus && S.Shape(g, State())
      modifies Repr
      ensures Framed() && fresh(Repr - old(Repr)) && OnlyTables()
      ensures var s, k := old(State()), S.SocketOf(g, c);
              State() == s.(l2 := s.l2[c := Tables.Store(s.l2[c], e)], l3 := s.l3[k := Tables.Store(s.l3[k], e)])
    {
      var k := S.SocketOf(g, c);
      SplitSet(tables, cpus, c, Tables.Store(tables[c], e));
      SplitSet(tables[c := Tables.Store(tables[c], e)], cpus, cpus + k, Tables.Store(tables[cpus + k], e));
      TierStore(c, e);
      TierStore(cpus + k, e);
    }

    // The bookkeeping field of a new entry and its union.
    method Payload(c: nat, data: seq<u8>, pointer: u64) returns (slot: Option<Option<nat>>, payload: seq<u8>)
      requires Framed() && S.ValidConfig(g) && c < cpus && |data| < 0x1_0000_0000
      modifies this`held, slots[S.SocketOf(g, c)]
      ensures Framed() && |payload| == RESULT_SIZE_MAX
      ensures |data| <= RESULT_SIZE_MAX ==>
                held == old(held) && slot == Some(None) && payload == InlinePayload(data)
      ensures |data| > RESULT_SIZE_MAX ==>
                var k := S.SocketOf(g, c);
                match TryAllocate(old(held)[k], pointer)
                case Failed => slot == None && held == old(held)
                case Got(j) =>
                  && slot == Some(Some(j)) && payload == ExternalPayload(pointer, |data|)
                  && held == old(held)[k := Slots.Fill(old(held)[k], j, pointer, data)]
    {
      slot, payload := None, ExternalPayload(0, 0);
      if |data| > RESULT_SIZE_MAX {
        var taken := Allocate(S.SocketOf(g, c), pointer, data);
        match taken {
          case Failed =>
          case Got(j) =>
            slot := Some(Some(j));
            payload := ExternalPayload(pointer, |data|);
        }
      } else {
        slot := Some(None);
        payload := InlinePayload(data);
      }
    }

    // store_result, before the invariant is drawn from module SystemInvariant.
    method StoreSteps(c: nat, fingerprint: u64, data: Option<seq<u8>>, mm: u64, a: S.Allocator) returns (ret: int)
      requires Framed() && S.Shape(g, State()) && c < cpus && (data.Some? ==> |data.value| < 0x1_0000_0000)
      modifies Repr
      ensures Framed() && fresh(Repr - old(Repr))
      ensures ret == match S.Prepare(g, old(State()), c, fingerprint, data, mm, a)
                     case Refused(code) => code
                     case Accepted(_) => 0
      ensures State() == S.AfterStore(g, old(State()), c, fingerprint, data, mm, a)
    {
      if data.None? || |data.value| == 0 {
        return -S.EINVAL;
      }
      if !a.entryOk {
        return -S.ENOMEM;
      }
      var slot, payload := Payload(c, data.value, a.pointer);
      if slot.None? {
        return -S.ENOMEM;
      }
      var expiry := ExpiryWord(g.boot, g.ttl, now);
      var e := Entry(nextId, c, now, slot.value, fingerprint, mm, mm, expiry, 0, MASK_RAX, payload);
      Insert(c, e);
      nextId := nextId + 1;
      ret := 0;
    }

    method StoreResult(c: nat, fingerprint: u64, data: Option<seq<u8>>, mm: u64, a: S.Allocator) returns (ret: int)
      requires Valid() && c < cpus && (data.Some? ==> |data.value| < 0x1_0000_0000)
      modifies Repr
      ensures Valid() && fresh(Repr - old(Repr))
      ensures ret == match S.Prepare(g, old(State()), c, fingerprint, data, mm, a)
                     case Refused(code) => code
                     case Accepted(_) => 0
      ensures State() == S.AfterStore(g, old(State()), c, fingerprint, data, mm, a)
    {
      ghost var s := State();
      ret := StoreSteps(c, fingerprint, data, mm, a);
      Invariant.StoreInv(g, s, c, fingerprint, data, mm, a);
    }

    // invalidate_range, before the invariant is drawn from module SystemInvariant.
    method InvalidateSteps(c: nat, mm: u64)
      requires Framed() && S.Shape(g, State()) && c < cpus
      modifies Repr
      ensures Framed() && fresh(Repr - old(Repr))
      ensures State() == S.AfterInvalidate(g, old(State()), c, mm)
    {
      var k := S.SocketOf(g, c);
      var n := counters[c];
      SplitSet(tables, cpus, c, Tables.PurgeAll(tables[c], mm));
      SplitSet(tables[c := Tables.PurgeAll(tables[c], mm)], cpus, cpus + k, Tables.PurgeAll(tables[cpus + k], mm));
      var removed := TierPurge(c, mm);
      Count(c, n.(invalidations := Wrap(n.invalidations + removed)));
      var uncounted := TierPurge(cpus + k, mm);
      FreeSlots(k);
    }

    method InvalidateRange(c: nat, mm: u64)
      requires Valid() && c < cpus
      modifies Repr
      ensures Valid() && fresh(Repr - old(Repr))
      ensures State() == S.AfterInvalidate(g, old(State()), c, mm)
    {
      ghost var s := State();
      InvalidateSteps(c, mm);
      Invariant.InvalidateInv(g, s, c, mm);
    }

    method Tick(n: nat)
      requires Valid()
      modifies this`now
      ensures Valid()
      ensures State() == S.Step(g, old(State()), S.Ticks(n))
    {
      Invariant.TicksInv(g, State(), n);
      now := now + n;
    }
  }

  ghost function EmptyTables(cpus: nat, sockets: nat): seq<Tables.Table> {
    seq(cpus, _ => S.EmptyTable(L2_ENTRIES)) + seq(sockets, _ => S.EmptyTable(L3_ENTRIES))
  }

  // The L2 buckets of every CPU and the L3 buckets of every socket.
  method NewTiers(cpus: nat, sockets: nat) returns (ts: seq<Tier>, ghost footprint: set<object>)
    ensures |ts| == cpus + sockets && fresh(footprint)
    ensures forall i {:trigger ts[i]} :: 0 <= i < |ts| ==>
              ts[i] in footprint && ts[i].Repr <= footprint && ts[i].Valid()
              && ts[i].table == EmptyTables(cpus, sockets)[i]
    ensures forall i, j :: 0 <= i < j < |ts| ==> ts[i].Repr !! ts[j].Repr
  {
    ts, footprint := [], {};
    for c := 0 to cpus + sockets
      invariant |ts| == c && fresh(footprint)
      invariant forall i {:trigger ts[i]} :: 0 <= i < c ==>
        ts[i] in footprint && ts[i].Repr <= footprint && ts[i].Valid() && ts[i].table == EmptyTables(cpus, sockets)[i]
      invariant forall i, j :: 0 <= i < j < c ==> ts[i].Repr !! ts[j].Repr
    {
      var t := new Tier(if c < cpus then L2_ENTRIES else L3_ENTRIES);
      ts := ts + [t];
      footprint := footprint + t.Repr;
    }
  }

  // The external slots of every socket, each set to NULL.
  method NewSlots(sockets: nat) returns (ss: seq<array<Slot>>)
    ensures |ss| == sockets
    ensures forall k {:trigger ss[k]} :: 0 <= k < |ss| ==> fresh(ss[k]) && ss[k][..] == seq(EXT_SLOTS, _ => FREE_SLOT)
    ensures forall k, h :: 0 <= k < h < |ss| ==> ss[k] != ss[h]
  {
    ss := [];
    for s := 0 to sockets
      invariant |ss| == s
      invariant forall k {:trigger ss[k]} :: 0 <= k < s ==> fresh(ss[k]) && ss[k][..] == seq(EXT_SLOTS, _ => FREE_SLOT)
      invariant forall k, h :: 0 <= k < h < s ==> ss[k] != ss[h]
    {
      var a := new Slot[EXT_SLOTS];
      for j := 0 to EXT_SLOTS
        invariant forall i :: 0 <= i < j ==> a[i] == FREE_SLOT
        invariant forall k {:trigger ss[k]} :: 0 <= k < s ==> ss[k][..] == seq(EXT_SLOTS, _ => FREE_SLOT)
      {
        a[j] := FREE_SLOT;
      }
      assert a[..] == seq(EXT_SLOTS, _ => FREE_SLOT);
      ss := ss + [a];
    }
  }

  lemma FirstFreeIs(slots: seq<Slot>, j: nat)
    requires j <= |slots| && forall i :: 0 <= i < j ==> slots[i].pointer != 0
    requires j < |slots| ==> slots[j].pointer == 0
    ensures FirstFree(slots) == j
  {
  }

  // An update of the combined list of tables, seen on its two parts.
  lemma SplitSet(tables: seq<Tables.Table>, n: nat, i: nat, t: Tables.Table)
    requires n <= |tables| && i < |tables|
    ensures i < n ==> tables[i := t][..n] == tables[..n][i := t] && tables[i := t][n..] == tables[n..]
    ensures n <= i ==> tables[i := t][..n] == tables[..n] && tables[i := t][n..] == tables[n..][i - n := t]
  {
  }
}
