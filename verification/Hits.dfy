/** What a hit is worth: which store every returned entry comes from, and whether the
    stored bytes can still be got from it. */
module Hits {
  import opened Words
  import opened Entries
  import opened Tables
  import opened Payloads
  import opened Slots
  import opened System
  import opened SystemInvariant
  import opened SystemTheorems
  import opened Histories
  import opened SlotTheorems

  // e is what the store r made.
  predicate MadeBy(e: Entry, r: Receipt) {
    && e.owner == r.cpu && Matches(e, r.fingerprint, r.mm) && |e.result| == RESULT_SIZE_MAX
    && if |r.data| <= RESULT_SIZE_MAX then e.slot.None? && e.result == InlinePayload(r.data)
       else e.slot.Some? && ExtData(e.result) != 0 && ExtSize(e.result) == |r.data|
  }

  // e's slot is one of those handed out, to e's own store.
  predicate Holds(e: Entry, h: History)
    requires |e.result| == RESULT_SIZE_MAX && e.id < |h.journal|
  {
    && e.slot.Some? && e.slot.value < |h.ledger|
    && h.ledger[e.slot.value] == Grant(e.id, Slot(ExtData(e.result), ExtSize(e.result), h.journal[e.id].data))
  }

  // e's pointer and size are those of its slot, which holds `data`.
  predicate Names(slots: seq<Slot>, e: Entry, data: seq<u8>)
    requires |e.result| == RESULT_SIZE_MAX
  {
    && e.slot.Some? && e.slot.value < |slots|
    && slots[e.slot.value] == Slot(ExtData(e.result), ExtSize(e.result), data)
  }

  // --- the history explains every L2 table, and the slots of socket k ---

  ghost predicate Explained(g: Config, s: Sys, c: nat, k: nat, h: History)
    requires Shape(g, s) && c < |s.l2|
  {
    forall e :: Has(s.l2[c], e) ==>
      && e.id < |h.journal| && MadeBy(e, h.journal[e.id])
      && (SocketOf(g, c) == k && e.slot.Some? && e.id >= h.mark ==> Holds(e, h))
  }

  ghost predicate Logged(g: Config, s: Sys, k: nat, h: History)
    requires Shape(g, s) && k < |s.slots|
  {
    && |h.journal| == s.nextId && h.mark <= s.nextId
    && Prefix(s.slots[k], Blocks(h.ledger))
    && (forall j :: 0 <= j < |h.ledger| ==> h.mark <= h.ledger[j].id)
    && (forall c :: 0 <= c < |s.l2| ==> Explained(g, s, c, k, h))
  }

  lemma LookupLogged(g: Config, s: Sys, c: nat, fingerprint: u64, mm: u64, k: nat, h: History)
    requires Inv(g, s) && c < |s.l2| && k < |s.slots| && Logged(g, s, k, h)
    ensures Logged(g, AfterLookup(g, s, c, fingerprint, mm), k, h)
  {
    var t := AfterLookup(g, s, c, fingerprint, mm);
    forall d | 0 <= d < |t.l2| ensures Explained(g, t, d, k, h) {
      assert Explained(g, s, d, k, h);
      if d == c && InL2(g, s, c, fingerprint, mm).None? && InL3(g, s, c, fingerprint, mm).Some? {
        L3Hit(g, s, c, fingerprint, mm);
        var e := InL3(g, s, c, fingerprint, mm).value;
        assert L2OK(g, s, c) && L3OK(g, s, SocketOf(g, c));
        assert Explained(g, s, e.owner, k, h);
        AttachFacts(s.l2[c], e);
      }
    }
  }

  lemma StoreLogged(g: Config, s: Sys, call: Call, k: nat, h: History)
    requires Inv(g, s) && ValidCall(g, call) && call.StoreResult? && k < |s.slots| && Logged(g, s, k, h)
    ensures Logged(g, Step(g, s, call), k, Recorded(g, s, call, k, h))
  {
    var c, t := call.cpu, Step(g, s, call);
    var after := Recorded(g, s, call, k, h);
    LedgerStepKept(g, s, call, k, h);
    match Prepare(g, s, c, call.fingerprint, call.data, call.mm, call.a)
    case Refused(_) =>
    case Accepted(e) =>
      NewIsMadeBy(g, s, call, k, h);
      assert L2OK(g, s, c);
      StoreTableKeeps(s.l2[c], e);
      forall d | 0 <= d < |t.l2| ensures Explained(g, t, d, k, after) {
        assert Explained(g, s, d, k, h);
      }
  }

  // The new entry is made by the receipt it is recorded with, and holds the block granted to it.
  lemma NewIsMadeBy(g: Config, s: Sys, call: Call, k: nat, h: History)
    requires Shape(g, s) && ValidCall(g, call) && call.StoreResult? && k < |s.slots| && Logged(g, s, k, h)
    requires Prepare(g, s, call.cpu, call.fingerprint, call.data, call.mm, call.a).Accepted?
    ensures var e := Prepare(g, s, call.cpu, call.fingerprint, call.data, call.mm, call.a).e;
            var after := Recorded(g, s, call, k, h);
            && e.id == |h.journal| < |after.journal| && MadeBy(e, after.journal[e.id])
            && (SocketOf(g, call.cpu) == k && e.slot.Some? ==> Holds(e, after))
  {
    var data := call.data.value;
    if |data| > RESULT_SIZE_MAX {
      ExternalRoundTrip(call.a.pointer, |data|);
      if SocketOf(g, call.cpu) == k { GrantExtends(s.slots[k], h, call.a.pointer, data); }
    }
  }

  lemma InvalidateLogged(g: Config, s: Sys, call: Call, k: nat, h: History)
    requires Inv(g, s) && ValidCall(g, call) && call.InvalidateRange? && k < |s.slots| && Logged(g, s, k, h)
    ensures Logged(g, Step(g, s, call), k, Recorded(g, s, call, k, h))
  {
    var c, t := call.cpu, Step(g, s, call);
    LedgerStepKept(g, s, call, k, h);
    assert L2OK(g, s, c);
    PurgePlaced(s.l2[c], call.mm);
    forall d | 0 <= d < |t.l2| ensures Explained(g, t, d, k, Recorded(g, s, call, k, h)) {
      assert Explained(g, s, d, k, h);
    }
  }

  lemma StepLogged(g: Config, s: Sys, call: Call, k: nat, h: History)
    requires Inv(g, s) && ValidCall(g, call) && k < |s.slots| && Logged(g, s, k, h)
    ensures Logged(g, Step(g, s, call), k, Recorded(g, s, call, k, h))
  {
    match call
    case Ticks(_) =>
      var t := Step(g, s, call);
      forall d | 0 <= d < |t.l2| ensures Explained(g, t, d, k, h) {
        assert Explained(g, s, d, k, h);
      }
    case Lookup(c, fingerprint, mm) => LookupLogged(g, s, c, fingerprint, mm, k, h);
    case StoreResult(_, _, _, _, _) => StoreLogged(g, s, call, k, h);
    case InvalidateRange(_, _) => InvalidateLogged(g, s, call, k, h);
  }

  lemma {:induction false} RunLogged(g: Config, s: Sys, calls: seq<Call>, k: nat, h: History)
    requires Inv(g, s) && ValidCalls(g, calls) && k < |s.slots| && Logged(g, s, k, h)
    ensures Logged(g, Run(g, s, calls), k, Past(g, s, calls, k, h))
    decreases |calls|
  {
    if calls != [] {
      assert ValidCall(g, calls[0]);
      StepLogged(g, s, calls[0], k, h);
      StepInv(g, s, calls[0]);
      RunLogged(g, Step(g, s, calls[0]), calls[1..], k, Recorded(g, s, calls[0], k, h));
    }
  }

  // --- every hit, on every CPU ---

  lemma HitIsLogged(g: Config, calls: seq<Call>, d: nat, fingerprint: u64, mm: u64)
    requires ValidConfig(g) && ValidCalls(g, calls) && d < |g.nodeOf|
    requires Answer(g, Run(g, Init(g), calls), d, fingerprint, mm).Some?
    ensures var u, h := Run(g, Init(g), calls), HistoryOf(g, calls, SocketOf(g, d));
            var e := Answer(g, u, d, fingerprint, mm).value;
            && Logged(g, u, SocketOf(g, d), h) && Matches(e, fingerprint, mm)
            && e.id < |h.journal| && MadeBy(e, h.journal[e.id])
            && e.owner < |g.nodeOf| && SocketOf(g, e.owner) == SocketOf(g, d)
            && (e.slot.Some? && e.id >= h.mark ==> Holds(e, h))
  {
    var k, u := SocketOf(g, d), Run(g, Init(g), calls);
    var h := HistoryOf(g, calls, k);
    InitInv(g);
    RunInv(g, Init(g), calls);
    RunLogged(g, Init(g), calls, k, NOTHING);
    AnswerHas(g, u, d, fingerprint, mm);
    assert L2OK(g, u, d) && L3OK(g, u, k);
    var e := Answer(g, u, d, fingerprint, mm).value;
    assert Explained(g, u, d, k, h);
    assert Explained(g, u, e.owner, k, h);
  }

  /** Whatever any CPU is given, in any run, is an entry some store of its socket made under
      exactly that key. A small result can be read back from it if and only if its first
      twelve bytes are zero. A large one still has the slot it was given if and only if
      nothing has been invalidated on the socket since that store; and then the entry's
      pointer and size name that slot, which holds exactly the stored bytes. */
  lemma HitHoldsItsData(g: Config, calls: seq<Call>, d: nat, fingerprint: u64, mm: u64)
    requires ValidConfig(g) && ValidCalls(g, calls) && d < |g.nodeOf|
    requires Answer(g, Run(g, Init(g), calls), d, fingerprint, mm).Some?
    ensures var k, u := SocketOf(g, d), Run(g, Init(g), calls);
            var h, e := HistoryOf(g, calls, k), Answer(g, u, d, fingerprint, mm).value;
            && |e.result| == RESULT_SIZE_MAX && e.id < |h.journal|
            && var r := h.journal[e.id];
            && r.fingerprint == fingerprint && r.mm == mm && r.cpu < |g.nodeOf| && SocketOf(g, r.cpu) == k
            && (|r.data| <= RESULT_SIZE_MAX ==>
                  (e.result[..|r.data|] == r.data <==> forall i :: 0 <= i < |r.data| && i < 12 ==> r.data[i] == 0))
            && (|r.data| > RESULT_SIZE_MAX ==>
                  && e.slot.Some? && ExtSize(e.result) == |r.data|
                  && (Holds(e, h) <==> e.id >= h.mark)
                  && (e.id >= h.mark ==> Names(u.slots[k], e, r.data)))
  {
    HitIsLogged(g, calls, d, fingerprint, mm);
    var k, u := SocketOf(g, d), Run(g, Init(g), calls);
    var h, e := HistoryOf(g, calls, k), Answer(g, u, d, fingerprint, mm).value;
    var r := h.journal[e.id];
    if |r.data| <= RESULT_SIZE_MAX { InlineSurvives(r.data); }
  }

  // --- an invalidation under a large hit ---

  /** The comment calls freeing every slot conservative. Of a large entry still found after
      an invalidation by c, the pointer and size name its block if and only if they did
      before and c is on another socket; on the same socket its slot has become free. */
  lemma EntryOutlivesItsSlot(g: Config, calls: seq<Call>, c: nat, mm: u64, d: nat, f: u64, m: u64)
    requires ValidConfig(g) && ValidCalls(g, calls) && c < |g.nodeOf| && d < |g.nodeOf|
    requires var t := AfterInvalidate(g, Run(g, Init(g), calls), c, mm);
             Answer(g, t, d, f, m).Some? && Answer(g, t, d, f, m).value.slot.Some?
    ensures var s, k := Run(g, Init(g), calls), SocketOf(g, d);
            var t := AfterInvalidate(g, s, c, mm);
            var h, e := HistoryOf(g, calls, k), Answer(g, t, d, f, m).value;
            && Answer(g, s, d, f, m) == Some(e)
            && |e.result| == RESULT_SIZE_MAX && e.id < |h.journal|
            && var data := h.journal[e.id].data;
            && (Names(t.slots[k], e, data) <==> Names(s.slots[k], e, data) && SocketOf(g, c) != k)
            && (SocketOf(g, c) == k && e.id >= h.mark ==>
                  e.slot.value < EXT_SLOTS && t.slots[k][e.slot.value] == FREE_SLOT)
  {
    var s, k := Run(g, Init(g), calls), SocketOf(g, d);
    InitInv(g);
    RunInv(g, Init(g), calls);
    InvalidationReach(g, s, c, mm, d, f, m);
    HitIsLogged(g, calls, d, f, m);
  }

  /** A run in which this happens: a 65-byte result of mm 1, then an invalidation of mm 2.
      The result is still found and its entry still points at the block, whose slot is free. */
  lemma FreedUnderAHit(g: Config, fingerprint: u64)
    requires ValidConfig(g) && 0 < |g.nodeOf|
    ensures var data := seq(65, _ => 1);
            var calls := [StoreResult(0, fingerprint, Some(data), 1, Allocator(true, 4096)), InvalidateRange(0, 2)];
            && ValidCalls(g, calls)
            && var u := Run(g, Init(g), calls);
               var r := Answer(g, u, 0, fingerprint, 1);
               && r.Some? && r.value.slot == Some(0) && |r.value.result| == RESULT_SIZE_MAX
               && ExtData(r.value.result) == 4096 && ExtSize(r.value.result) == 65
               && u.slots[SocketOf(g, 0)][0] == FREE_SLOT
  {
    var s, a, data := Init(g), Allocator(true, 4096), seq(65, _ => 1);
    var store := StoreResult(0, fingerprint, Some(data), 1, a);
    var t := Step(g, s, store);
    RunTwo(g, s, store, InvalidateRange(0, 2));
    AllocateExtends(s.slots[SocketOf(g, 0)], [], 4096, data);
    ExternalRoundTrip(4096, 65);
    FoundAtOnce(g, s, 0, fingerprint, Some(data), 1, a);
    InitInv(g);
    StepInv(g, s, store);
    InvalidationReach(g, t, 0, 2, 0, fingerprint, 1);
  }
}
