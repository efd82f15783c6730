/** The external slots of one socket, as values: what the allocation loop of
    store_result and the freeing loop of invalidate_range do to them. */
module Slots {
  import opened Words

  /** `pointer` is ext_slots[j] (0 is NULL), `size` is ext_slot_size[j], `bytes` is
      what the block at `pointer` holds. */
  datatype Slot = Slot(pointer: u64, size: nat, bytes: seq<u8>)

  const FREE_SLOT := Slot(0, 0, [])

  // The first slot with a NULL pointer, or |slots|.
  function FirstFree(slots: seq<Slot>): (k: nat)
    ensures k <= |slots|
    ensures forall j :: 0 <= j < k ==> slots[j].pointer != 0
    ensures k < |slots| ==> slots[k].pointer == 0
  {
    if slots == [] then 0
    else if slots[0].pointer == 0 then 0
    else FirstFree(slots[1..]) + 1
  }

  datatype Allocation = Failed | Got(slot: nat)

  // kvmalloc returned `pointer`, possibly NULL.
  function TryAllocate(slots: seq<Slot>, pointer: u64): Allocation {
    if FirstFree(slots) >= |slots| || pointer == 0 then Failed else Got(FirstFree(slots))
  }

  function Fill(slots: seq<Slot>, k: nat, pointer: u64, data: seq<u8>): (r: seq<Slot>)
    requires k < |slots|
    ensures |r| == |slots|
  {
    slots[k := Slot(pointer, |data|, data)]
  }

  function FreeAll(slots: seq<Slot>): (r: seq<Slot>)
    ensures |r| == |slots| && forall j :: 0 <= j < |slots| ==>
              r[j] == if slots[j].pointer != 0 then FREE_SLOT else slots[j]
  {
    seq(|slots|, j requires 0 <= j < |slots| => if slots[j].pointer != 0 then FREE_SLOT else slots[j])
  }

  // --- the occupied slots are a prefix ---

  // `ledger` lists the blocks handed out since the slots were last freed.
  predicate Prefix(slots: seq<Slot>, ledger: seq<Slot>) {
    && |ledger| <= |slots|
    && (forall j :: 0 <= j < |ledger| ==> slots[j] == ledger[j] && ledger[j].pointer != 0)
    && (forall j :: |ledger| <= j < |slots| ==> slots[j] == FREE_SLOT)
  }

  /** With a prefix occupied, the next block goes right behind it, and the loop
      fails exactly when the prefix is everything or kvmalloc fails. */
  lemma AllocateExtends(slots: seq<Slot>, ledger: seq<Slot>, pointer: u64, data: seq<u8>)
    requires Prefix(slots, ledger)
    ensures FirstFree(slots) == |ledger|
    ensures TryAllocate(slots, pointer) == Failed <==> |ledger| == |slots| || pointer == 0
    ensures TryAllocate(slots, pointer).Got? ==>
              && TryAllocate(slots, pointer).slot == |ledger|
              && Prefix(Fill(slots, |ledger|, pointer, data), ledger + [Slot(pointer, |data|, data)])
  {
    assert |ledger| < |slots| ==> slots[|ledger|] == FREE_SLOT;
    assert forall j :: 0 <= j < |ledger| ==> slots[j].pointer != 0;
  }

  lemma FreeAllEmpties(slots: seq<Slot>, ledger: seq<Slot>)
    requires Prefix(slots, ledger)
    ensures Prefix(FreeAll(slots), [])
  {
  }
}
