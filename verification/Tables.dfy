/** A hash table of buckets, and what a store, a purge and a lookup mean on it: an
    update, a filter and a read of a map from keys to entries. */
module Tables {
  import opened Words
  import opened Entries
  import opened Chains

  type Table = seq<Chain>

  function BucketOf(n: nat, fingerprint: u64): (b: nat)
    requires 0 < n
    ensures b < n
  {
    fingerprint % n
  }

  function ChainFor(t: Table, fingerprint: u64): Chain
    requires 0 < |t|
  {
    t[BucketOf(|t|, fingerprint)]
  }

  function SetChain(t: Table, fingerprint: u64, ch: Chain): Table
    requires 0 < |t|
  {
    t[BucketOf(|t|, fingerprint) := ch]
  }

  function Find(t: Table, fingerprint: u64, mm: u64, jiffies: u64): Option<Entry>
    requires 0 < |t|
  {
    FindLive(ChainFor(t, fingerprint), fingerprint, mm, jiffies)
  }

  // store_in_l2 and store_in_l3
  function Store(t: Table, e: Entry): Table
    requires 0 < |t|
  {
    SetChain(t, e.fingerprint, StoreChain(ChainFor(t, e.fingerprint), e))
  }

  // the two bucket loops of invalidate_range
  function PurgeAll(t: Table, mm: u64): (r: Table)
    ensures |r| == |t| && forall b :: 0 <= b < |t| ==> r[b] == Purge(t[b], mm)
  {
    seq(|t|, b requires 0 <= b < |t| => Purge(t[b], mm))
  }

  // How many entries those loops remove.
  function Removed(t: Table, mm: u64): nat {
    if t == [] then 0 else |Casualties(t[0], mm)| + Removed(t[1..], mm)
  }

  // the two halves of promote_to_l2
  function Detach(t: Table, e: Entry): Table
    requires 0 < |t|
  {
    SetChain(t, e.fingerprint, Unlink(ChainFor(t, e.fingerprint), e))
  }

  function Attach(t: Table, e: Entry): Table
    requires 0 < |t|
  {
    SetChain(t, e.fingerprint, [e] + ChainFor(t, e.fingerprint))
  }

  // Every entry sits in the bucket of its fingerprint.
  ghost predicate Placed(t: Table) {
    0 < |t| && forall b, e :: 0 <= b < |t| && e in t[b] ==> BucketOf(|t|, e.fingerprint) == b
  }

  ghost predicate Unique(t: Table) {
    forall b :: 0 <= b < |t| ==> UniqueKeys(t[b])
  }

  predicate Has(t: Table, e: Entry) {
    0 < |t| && e in ChainFor(t, e.fingerprint)
  }

  function Content(t: Table): multiset<Entry> {
    if t == [] then multiset{} else multiset(t[0]) + Content(t[1..])
  }

  // --- membership after each operation ---

  lemma StorePlaced(t: Table, e: Entry)
    requires Placed(t)
    ensures Placed(Store(t, e))
  {
    RemoveFirstKeeps(ChainFor(t, e.fingerprint), e.fingerprint, e.mm);
  }

  lemma PurgePlaced(t: Table, mm: u64)
    requires Placed(t)
    ensures Placed(PurgeAll(t, mm))
    ensures forall e :: Has(PurgeAll(t, mm), e) <==> Has(t, e) && e.mm != mm
  {
    forall b | 0 <= b < |t| ensures forall e :: e in PurgeAll(t, mm)[b] <==> e in t[b] && e.mm != mm {
      PurgeExact(t[b], mm);
    }
  }

  lemma StoreUnique(t: Table, e: Entry)
    requires Placed(t) && Unique(t)
    ensures Unique(Store(t, e))
    ensures forall x :: Has(Store(t, e), x) <==> x == e || (Has(t, x) && !SameKey(x, e))
  {
    var ch := ChainFor(t, e.fingerprint);
    StoreChainUnique(ch, e);
    RemoveFirstKeeps(ch, e.fingerprint, e.mm);
    RemoveFirstUnique(ch, e.fingerprint, e.mm);
  }

  lemma PurgeAllUnique(t: Table, mm: u64)
    requires Unique(t)
    ensures Unique(PurgeAll(t, mm))
  {
    forall b | 0 <= b < |t| ensures UniqueKeys(PurgeAll(t, mm)[b]) {
      PurgeUnique(t[b], mm);
    }
  }

  lemma DetachFacts(t: Table, e: Entry)
    requires Placed(t) && Unique(t) && Has(t, e)
    ensures Placed(Detach(t, e)) && Unique(Detach(t, e))
    ensures forall x :: Has(Detach(t, e), x) <==> Has(t, x) && x != e
  {
    var ch := ChainFor(t, e.fingerprint);
    UnlinkKeeps(ch, e);
    UnlinkIsRemoveFirst(ch, e);
    RemoveFirstUnique(ch, e.fingerprint, e.mm);
  }

  lemma AttachFacts(t: Table, e: Entry)
    requires Placed(t)
    ensures Placed(Attach(t, e))
    ensures forall x :: Has(Attach(t, e), x) <==> Has(t, x) || x == e
  {
  }

  // --- the table as a map from keys ---

  datatype Key = Key(fingerprint: u64, mm: u64)

  function KeyOf(e: Entry): Key {
    Key(e.fingerprint, e.mm)
  }

  // `m` is the table read as a map.
  ghost predicate Represents(t: Table, m: map<Key, Entry>) {
    && Placed(t) && Unique(t)
    && (forall e :: Has(t, e) ==> KeyOf(e) in m && m[KeyOf(e)] == e)
    && (forall k :: k in m ==> KeyOf(m[k]) == k && Has(t, m[k]))
  }

  lemma EmptyIsEmptyMap(n: nat)
    requires 0 < n
    ensures Represents(seq(n, _ => []), map[])
  {
  }

  /** A store is a map update. */
  lemma StoreIsUpdate(t: Table, m: map<Key, Entry>, e: Entry)
    requires Represents(t, m)
    ensures Represents(Store(t, e), m[KeyOf(e) := e])
  {
    StorePlaced(t, e);
    StoreUnique(t, e);
  }

  /** Invalidating an mm filters its keys out of the map. */
  lemma PurgeIsFilter(t: Table, m: map<Key, Entry>, mm: u64)
    requires Represents(t, m)
    ensures Represents(PurgeAll(t, mm), map k | k in m && k.mm != mm :: m[k])
  {
    PurgePlaced(t, mm);
    PurgeAllUnique(t, mm);
  }

  /** A lookup reads the map and hides what has expired. */
  lemma FindIsRead(t: Table, m: map<Key, Entry>, fingerprint: u64, mm: u64, jiffies: u64)
    requires Represents(t, m)
    ensures Find(t, fingerprint, mm, jiffies) ==
            var k := Key(fingerprint, mm);
            if k in m && TimeBefore(jiffies, m[k].expiry) then Some(m[k]) else None
  {
    var ch, k := ChainFor(t, fingerprint), Key(fingerprint, mm);
    FindLiveFirst(ch, fingerprint, mm, jiffies);
    FindLiveIn(ch, fingerprint, mm, jiffies);
    var f := Find(t, fingerprint, mm, jiffies);
    assert f.Some? ==> Has(t, f.value) && KeyOf(f.value) == k;
    if k in m && TimeBefore(jiffies, m[k].expiry) {
      assert Has(t, m[k]);
      FindLiveUnique(ch, m[k], jiffies);
    }
  }

  /** A removal of one present entry removes its key. */
  lemma DetachIsRemove(t: Table, m: map<Key, Entry>, e: Entry)
    requires Represents(t, m) && Has(t, e)
    ensures Represents(Detach(t, e), m - {KeyOf(e)})
  {
    DetachFacts(t, e);
  }

  // --- contents as multisets ---

  lemma {:induction false} ContentSet(t: Table, b: nat, ch: Chain)
    requires b < |t|
    ensures Content(t[b := ch]) == Content(t) - multiset(t[b]) + multiset(ch)
    ensures multiset(t[b]) <= Content(t)
  {
    if b == 0 {
      assert t[0 := ch][1..] == t[1..];
    } else {
      ContentSet(t[1..], b - 1, ch);
      assert t[b := ch][1..] == t[1..][b - 1 := ch];
    }
  }
}
