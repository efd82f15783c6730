/** What a run has stored so far, kept apart from the cache: which store made which
    entry, and which blocks of a socket have been handed out since it last freed them. */
module Histories {
  import opened Words
  import opened Entries
  import opened Slots
  import opened System

  // A successful store; its index in the journal is its number.
  datatype Receipt = Receipt(cpu: nat, fingerprint: u64, mm: u64, data: seq<u8>)

  // A block, and the number of the store it was handed to.
  datatype Grant = Grant(id: nat, block: Slot)

  /** `ledger` lists the blocks handed out on one socket since its slots were last freed;
      `mark` is the number of stores that had succeeded by then. */
  datatype History = History(journal: seq<Receipt>, ledger: seq<Grant>, mark: nat)

  const NOTHING := History([], [], 0)

  function Blocks(ledger: seq<Grant>): (blocks: seq<Slot>)
    ensures |blocks| == |ledger| && forall j :: 0 <= j < |ledger| ==> blocks[j] == ledger[j].block
  {
    seq(|ledger|, j requires 0 <= j < |ledger| => ledger[j].block)
  }

  // The history of socket k after one more call.
  function Recorded(g: Config, s: Sys, call: Call, k: nat, h: History): History
    requires Shape(g, s) && ValidCall(g, call)
  {
    match call
    case StoreResult(c, fingerprint, data, mm, a) =>
      if Prepare(g, s, c, fingerprint, data, mm, a).Refused? then h
      else
        h.(journal := h.journal + [Receipt(c, fingerprint, mm, data.value)],
           ledger := if SocketOf(g, c) == k && |data.value| > RESULT_SIZE_MAX
                     then h.ledger + [Grant(|h.journal|, Slot(a.pointer, |data.value|, data.value))]
                     else h.ledger)
    case InvalidateRange(c, _) => if SocketOf(g, c) == k then h.(ledger := [], mark := |h.journal|) else h
    case _ => h
  }

  function Past(g: Config, s: Sys, calls: seq<Call>, k: nat, h: History): History
    requires Shape(g, s) && ValidCalls(g, calls)
    decreases |calls|
  {
    if calls == [] then h
    else
      assert ValidCall(g, calls[0]);
      Past(g, Step(g, s, calls[0]), calls[1..], k, Recorded(g, s, calls[0], k, h))
  }

  // The history of socket k after a run from the start.
  function HistoryOf(g: Config, calls: seq<Call>, k: nat): History
    requires ValidConfig(g) && ValidCalls(g, calls)
  {
    Past(g, Init(g), calls, k, NOTHING)
  }

  // Nothing is invalidated on socket k.
  ghost predicate NoInvalidation(g: Config, calls: seq<Call>, k: nat)
    requires ValidCalls(g, calls)
  {
    forall i :: 0 <= i < |calls| && calls[i].InvalidateRange? ==>
      (assert ValidCall(g, calls[i]); SocketOf(g, calls[i].cpu) != k)
  }

  // --- what mark and journal say about a run ---

  lemma {:induction false} PastGrows(g: Config, s: Sys, calls: seq<Call>, k: nat, h: History)
    requires Shape(g, s) && ValidCalls(g, calls) && h.mark <= |h.journal|
    ensures var p := Past(g, s, calls, k, h);
            && h.journal <= p.journal && p.mark <= |p.journal|
            && (if NoInvalidation(g, calls, k) then p.mark == h.mark else |h.journal| <= p.mark)
    decreases |calls|
  {
    if calls != [] {
      assert ValidCall(g, calls[0]);
      var rest := calls[1..];
      PastGrows(g, Step(g, s, calls[0]), rest, k, Recorded(g, s, calls[0], k, h));
      InvalidatesFirst(g, calls, k);
    }
  }

  lemma InvalidatesFirst(g: Config, calls: seq<Call>, k: nat)
    requires ValidCalls(g, calls) && calls != [] && ValidCalls(g, calls[1..])
    ensures NoInvalidation(g, calls, k) <==>
            NoInvalidation(g, calls[1..], k)
            && (calls[0].InvalidateRange? ==> (assert ValidCall(g, calls[0]); SocketOf(g, calls[0].cpu) != k))
  {
    var rest := calls[1..];
    assert forall i :: 0 <= i < |rest| ==> rest[i] == calls[i + 1];
    assert forall i :: 1 <= i < |calls| ==> calls[i] == rest[i - 1];
  }

  lemma {:induction false} PastAppend(g: Config, s: Sys, first: seq<Call>, later: seq<Call>, k: nat, h: History)
    requires Shape(g, s) && ValidCalls(g, first) && ValidCalls(g, later)
    ensures ValidCalls(g, first + later)
    ensures Past(g, s, first + later, k, h) == Past(g, Run(g, s, first), later, k, Past(g, s, first, k, h))
    decreases |first|
  {
    if first == [] {
      assert first + later == later;
    } else {
      assert ValidCall(g, first[0]);
      assert (first + later)[1..] == first[1..] + later;
      PastAppend(g, Step(g, s, first[0]), first[1..], later, k, Recorded(g, s, first[0], k, h));
    }
  }

  /** In the history of a whole run a successful store keeps its receipt under its number,
      and that number is at or above the mark of socket k if and only if nothing has been
      invalidated on the socket since the store. */
  lemma StoredSince(g: Config, before: seq<Call>, store: Call, later: seq<Call>, k: nat)
    requires ValidConfig(g) && ValidCalls(g, before) && ValidCall(g, store) && ValidCalls(g, later)
    requires store.StoreResult?
    requires Prepare(g, Run(g, Init(g), before), store.cpu, store.fingerprint, store.data, store.mm, store.a).Accepted?
    ensures ValidCalls(g, before + ([store] + later))
    ensures var h, id := HistoryOf(g, before + ([store] + later), k), |HistoryOf(g, before, k).journal|;
            && id < |h.journal|
            && h.journal[id] == Receipt(store.cpu, store.fingerprint, store.mm, store.data.value)
            && (id >= h.mark <==> NoInvalidation(g, later, k))
  {
    var s, h := Run(g, Init(g), before), HistoryOf(g, before, k);
    var after := Recorded(g, s, store, k, h);
    PastGrows(g, Init(g), before, k, NOTHING);
    PastAppend(g, Init(g), before, [store] + later, k, NOTHING);
    assert ([store] + later)[1..] == later;
    PastGrows(g, Step(g, s, store), later, k, after);
    assert after.journal[|h.journal|] == Receipt(store.cpu, store.fingerprint, store.mm, store.data.value);
  }
}
