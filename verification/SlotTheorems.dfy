/** The external slots over whole runs: who owns which slot, and until when. */
module SlotTheorems {
  import opened Words
  import opened Entries
  import opened Payloads
  import opened Slots
  import opened System
  import opened SystemTheorems
  import opened Histories

  lemma LedgerStepKept(g: Config, s: Sys, call: Call, k: nat, h: History)
    requires Shape(g, s) && ValidCall(g, call) && k < |s.slots| && Prefix(s.slots[k], Blocks(h.ledger))
    ensures Prefix(Step(g, s, call).slots[k], Blocks(Recorded(g, s, call, k, h).ledger))
  {
    match call
    case StoreResult(c, fingerprint, data, mm, a) =>
      if SocketOf(g, c) == k && data.Some? { GrantExtends(s.slots[k], h, a.pointer, data.value); }
    case InvalidateRange(c, _) => if SocketOf(g, c) == k { FreeAllEmpties(s.slots[k], Blocks(h.ledger)); }
    case _ =>
  }

  lemma GrantExtends(slots: seq<Slot>, h: History, pointer: u64, data: seq<u8>)
    requires Prefix(slots, Blocks(h.ledger))
    ensures FirstFree(slots) == |h.ledger|
    ensures TryAllocate(slots, pointer) == Failed <==> |h.ledger| == |slots| || pointer == 0
    ensures var grant := Grant(|h.journal|, Slot(pointer, |data|, data));
            TryAllocate(slots, pointer).Got? ==>
              && TryAllocate(slots, pointer).slot == |h.ledger|
              && Prefix(Fill(slots, |h.ledger|, pointer, data), Blocks(h.ledger + [grant]))
  {
    AllocateExtends(slots, Blocks(h.ledger), pointer, data);
    assert Blocks(h.ledger + [Grant(|h.journal|, Slot(pointer, |data|, data))])
           == Blocks(h.ledger) + [Slot(pointer, |data|, data)];
  }

  lemma {:induction false} LedgerKept(g: Config, s: Sys, calls: seq<Call>, k: nat, h: History)
    requires Shape(g, s) && ValidCalls(g, calls) && k < |s.slots| && Prefix(s.slots[k], Blocks(h.ledger))
    ensures Prefix(Run(g, s, calls).slots[k], Blocks(Past(g, s, calls, k, h).ledger))
    decreases |calls|
  {
    if calls != [] {
      assert ValidCall(g, calls[0]);
      LedgerStepKept(g, s, calls[0], k, h);
      LedgerKept(g, Step(g, s, calls[0]), calls[1..], k, Recorded(g, s, calls[0], k, h));
    }
  }

  /** In every run the occupied slots of a socket are a prefix, one for each large
      result stored since the socket's last invalidation, in that order, and each
      still holds that result's pointer, length and bytes. */
  lemma SlotsAreTheLedger(g: Config, calls: seq<Call>, k: nat)
    requires ValidConfig(g) && ValidCalls(g, calls) && k < g.sockets
    ensures Prefix(Run(g, Init(g), calls).slots[k], Blocks(HistoryOf(g, calls, k).ledger))
  {
    LedgerKept(g, Init(g), calls, k, NOTHING);
  }

  /** A store fails exactly for a NULL or empty result, a failed entry allocation, or a
      large result when its socket already holds 256 blocks or kvmalloc fails; a failing
      store changes nothing. */
  lemma StoreFailsExactly(g: Config, calls: seq<Call>, c: nat, fingerprint: u64, data: Option<seq<u8>>, mm: u64,
                          a: Allocator)
    requires ValidConfig(g) && ValidCalls(g, calls) && c < |g.nodeOf|
    requires data.Some? ==> |data.value| < 0x1_0000_0000
    ensures var s := Run(g, Init(g), calls);
            var p := Prepare(g, s, c, fingerprint, data, mm, a);
            var held := |HistoryOf(g, calls, SocketOf(g, c)).ledger|;
            && held <= EXT_SLOTS
            && (p == Refused(-EINVAL) <==> data.None? || data.value == [])
            && (p == Refused(-ENOMEM) <==>
                  data.Some? && data.value != [] &&
                  (!a.entryOk || (|data.value| > RESULT_SIZE_MAX && (held == EXT_SLOTS || a.pointer == 0))))
            && (p.Refused? ==> AfterStore(g, s, c, fingerprint, data, mm, a) == s)
  {
    var k := SocketOf(g, c);
    SlotsAreTheLedger(g, calls, k);
    var s := Run(g, Init(g), calls);
    GrantExtends(s.slots[k], HistoryOf(g, calls, k), a.pointer, if data.Some? then data.value else []);
  }

  lemma {:induction false} LedgerGrows(g: Config, s: Sys, calls: seq<Call>, k: nat, h: History)
    requires Shape(g, s) && ValidCalls(g, calls) && NoInvalidation(g, calls, k)
    ensures h.ledger <= Past(g, s, calls, k, h).ledger
    decreases |calls|
  {
    if calls != [] {
      assert ValidCall(g, calls[0]);
      var rest := calls[1..];
      assert forall i :: 0 <= i < |rest| ==> rest[i] == calls[i + 1];
      LedgerGrows(g, Step(g, s, calls[0]), rest, k, Recorded(g, s, calls[0], k, h));
    }
  }

  /** A large result keeps its slot, with its exact bytes and length, until the next
      invalidation on its socket, even after its entry has been replaced or has expired;
      and the entry's own pointer and size fields name that block. */
  lemma SlotIsKept(g: Config, calls: seq<Call>, c: nat, fingerprint: u64, data: seq<u8>, mm: u64, a: Allocator,
                   later: seq<Call>)
    requires ValidConfig(g) && ValidCalls(g, calls) && ValidCalls(g, later) && c < |g.nodeOf|
    requires RESULT_SIZE_MAX < |data| < 0x1_0000_0000 && NoInvalidation(g, later, SocketOf(g, c))
    requires Prepare(g, Run(g, Init(g), calls), c, fingerprint, Some(data), mm, a).Accepted?
    ensures var s := Run(g, Init(g), calls);
            var e := Prepare(g, s, c, fingerprint, Some(data), mm, a).e;
            var u := Run(g, AfterStore(g, s, c, fingerprint, Some(data), mm, a), later);
            && e.slot.Some?
            && u.slots[SocketOf(g, c)][e.slot.value] == Slot(a.pointer, |data|, data)
            && ExtData(e.result) == a.pointer && ExtSize(e.result) == |data|
  {
    var s, k := Run(g, Init(g), calls), SocketOf(g, c);
    var call := StoreResult(c, fingerprint, Some(data), mm, a);
    var t := Step(g, s, call);
    var before := HistoryOf(g, calls, k);
    var after := Recorded(g, s, call, k, before);
    SlotsAreTheLedger(g, calls, k);
    GrantExtends(s.slots[k], before, a.pointer, data);
    LedgerStepKept(g, s, call, k, before);
    LedgerKept(g, t, later, k, after);
    LedgerGrows(g, t, later, k, after);
    assert Past(g, t, later, k, after).ledger[|before.ledger|] == after.ledger[|before.ledger|];
    ExternalRoundTrip(a.pointer, |data|);
  }

  /** The round trip of a small result: until it expires the storing CPU's lookup returns
      an entry whose result field holds the stored bytes, if and only if the first twelve of
      them are zero. */
  lemma SmallResultComesBack(g: Config, calls: seq<Call>, c: nat, fingerprint: u64, data: seq<u8>, mm: u64,
                             a: Allocator, later: seq<Call>)
    requires ValidConfig(g) && ValidCalls(g, calls) && ValidCalls(g, later) && c < |g.nodeOf|
    requires 0 < |data| <= RESULT_SIZE_MAX && a.entryOk
    requires var s := Run(g, Init(g), calls);
             Undisturbed(g, AfterStore(g, s, c, fingerprint, Some(data), mm, a), later, c,
                         Prepare(g, s, c, fingerprint, Some(data), mm, a).e)
    ensures var s := Run(g, Init(g), calls);
            var u := Run(g, AfterStore(g, s, c, fingerprint, Some(data), mm, a), later);
            u.now < s.now + g.ttl ==>
              var r := Answer(g, u, c, fingerprint, mm);
              && r.Some? && |r.value.result| == RESULT_SIZE_MAX
              && (r.value.result[..|data|] == data <==> forall i :: 0 <= i < |data| && i < 12 ==> data[i] == 0)
  {
    ReadYourWrites(g, Run(g, Init(g), calls), c, fingerprint, Some(data), mm, a, later);
    InlineSurvives(data);
  }

  /** The round trip of a large result: until it expires the storing CPU's lookup returns an
      entry whose pointer and size name a slot holding exactly the stored bytes, as long as
      nobody on the socket invalidates anything. */
  lemma LargeResultComesBack(g: Config, calls: seq<Call>, c: nat, fingerprint: u64, data: seq<u8>, mm: u64,
                             a: Allocator, later: seq<Call>)
    requires ValidConfig(g) && ValidCalls(g, calls) && ValidCalls(g, later) && c < |g.nodeOf|
    requires RESULT_SIZE_MAX < |data| < 0x1_0000_0000 && NoInvalidation(g, later, SocketOf(g, c))
    requires Prepare(g, Run(g, Init(g), calls), c, fingerprint, Some(data), mm, a).Accepted?
    requires var s := Run(g, Init(g), calls);
             Undisturbed(g, AfterStore(g, s, c, fingerprint, Some(data), mm, a), later, c,
                         Prepare(g, s, c, fingerprint, Some(data), mm, a).e)
    ensures var s := Run(g, Init(g), calls);
            var e := Prepare(g, s, c, fingerprint, Some(data), mm, a).e;
            var u := Run(g, AfterStore(g, s, c, fingerprint, Some(data), mm, a), later);
            && e.slot.Some?
            && u.slots[SocketOf(g, c)][e.slot.value] == Slot(ExtData(e.result), |data|, data)
            && ExtSize(e.result) == |data|
            && (u.now < s.now + g.ttl ==> Answer(g, u, c, fingerprint, mm) == Some(e))
  {
    ReadYourWrites(g, Run(g, Init(g), calls), c, fingerprint, Some(data), mm, a, later);
    SlotIsKept(g, calls, c, fingerprint, data, mm, a, later);
  }

  /** Two large results stored on a socket with no invalidation in between never share
      a slot: the later one gets a strictly later slot. */
  lemma SlotsAreDistinct(g: Config, calls: seq<Call>, first: Call, later: seq<Call>, second: Call)
    requires ValidConfig(g) && ValidCalls(g, calls) && ValidCall(g, first) && ValidCalls(g, later)
    requires ValidCall(g, second) && first.StoreResult? && second.StoreResult?
    requires SocketOf(g, first.cpu) == SocketOf(g, second.cpu)
    requires NoInvalidation(g, later, SocketOf(g, first.cpu))
    requires var s := Run(g, Init(g), calls);
             Prepare(g, s, first.cpu, first.fingerprint, first.data, first.mm, first.a).Accepted?
    requires var u := Run(g, Step(g, Run(g, Init(g), calls), first), later);
             Prepare(g, u, second.cpu, second.fingerprint, second.data, second.mm, second.a).Accepted?
    ensures var s := Run(g, Init(g), calls);
            var u := Run(g, Step(g, s, first), later);
            var e := Prepare(g, s, first.cpu, first.fingerprint, first.data, first.mm, first.a).e;
            var f := Prepare(g, u, second.cpu, second.fingerprint, second.data, second.mm, second.a).e;
            e.slot.Some? && f.slot.Some? ==> e.slot.value < f.slot.value
  {
    var s, k := Run(g, Init(g), calls), SocketOf(g, first.cpu);
    var t := Step(g, s, first);
    var u := Run(g, t, later);
    var before := HistoryOf(g, calls, k);
    var mid := Recorded(g, s, first, k, before);
    SlotsAreTheLedger(g, calls, k);
    GrantExtends(s.slots[k], before, first.a.pointer, first.data.value);
    LedgerStepKept(g, s, first, k, before);
    LedgerKept(g, t, later, k, mid);
    LedgerGrows(g, t, later, k, mid);
    GrantExtends(u.slots[k], Past(g, t, later, k, mid), second.a.pointer, second.data.value);
  }
}
