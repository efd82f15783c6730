/** The cache entry and the constants of include/linux/kcr.h. */
module Entries {
  import opened Words

  const L2_ENTRIES: nat := 64
  const L3_ENTRIES: nat := 512
  const RESULT_SIZE_MAX: nat := 64
  const EXT_SLOTS: nat := 256
  const MASK_RAX: u8 := 1

  /** `id`, `owner` (the storing CPU), `born` (the storing tick) and `slot` (the
      external slot taken, if any) are bookkeeping: the code never reads them.
      `result` holds the 64 bytes of the union of `result[8]` with
      `ext_data`/`ext_size`. The pid, pid_ns, flags and hit_count fields are
      never read and are not modelled. */
  datatype Entry = Entry(
    id: nat, owner: nat, born: nat, slot: Option<nat>,
    fingerprint: u64, mm: u64, mmGeneration: u64, expiry: u64,
    fragmentLength: u16, registerMask: u8, result: seq<u8>)

  // The comparison made by every lookup and every store while walking a bucket.
  predicate Matches(e: Entry, fingerprint: u64, mm: u64) {
    e.fingerprint == fingerprint && e.mm == mm
  }

  predicate SameKey(e: Entry, f: Entry) {
    Matches(e, f.fingerprint, f.mm)
  }
}
