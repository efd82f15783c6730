/** What one hash bucket does, on the sequence of its entries, head first. */
module Chains {
  import opened Words
  import opened Entries

  type Chain = seq<Entry>

  predicate Live(e: Entry, fingerprint: u64, mm: u64, jiffies: u64) {
    Matches(e, fingerprint, mm) && TimeBefore(jiffies, e.expiry)
  }

  // The walk of lookup_l2 and lookup_l3.
  function FindLive(ch: Chain, fingerprint: u64, mm: u64, jiffies: u64): Option<Entry> {
    if ch == [] then None
    else if Live(ch[0], fingerprint, mm, jiffies) then Some(ch[0])
    else FindLive(ch[1..], fingerprint, mm, jiffies)
  }

  // The deletion loop of store_in_l2 and store_in_l3: the first match goes.
  function RemoveFirst(ch: Chain, fingerprint: u64, mm: u64): Chain {
    if ch == [] then []
    else if Matches(ch[0], fingerprint, mm) then ch[1..]
    else [ch[0]] + RemoveFirst(ch[1..], fingerprint, mm)
  }

  function StoreChain(ch: Chain, e: Entry): Chain {
    [e] + RemoveFirst(ch, e.fingerprint, e.mm)
  }

  // The deletion loop of invalidate_range on one bucket.
  function Purge(ch: Chain, mm: u64): Chain {
    if ch == [] then []
    else if ch[0].mm == mm then Purge(ch[1..], mm)
    else [ch[0]] + Purge(ch[1..], mm)
  }

  // The entries that loop hands to call_rcu, in order.
  function Casualties(ch: Chain, mm: u64): Chain {
    if ch == [] then []
    else if ch[0].mm == mm then [ch[0]] + Casualties(ch[1..], mm)
    else Casualties(ch[1..], mm)
  }

  // hlist_del_rcu of one given entry, as promote_to_l2 does it.
  function Unlink(ch: Chain, e: Entry): Chain {
    if ch == [] then []
    else if ch[0] == e then ch[1..]
    else [ch[0]] + Unlink(ch[1..], e)
  }

  predicate UniqueKeys(ch: Chain) {
    forall i, j :: 0 <= i < j < |ch| ==> !SameKey(ch[i], ch[j])
  }

  // --- lookup ---

  /** The walk returns the first live match and misses only when there is none. */
  lemma {:induction false} FindLiveFirst(ch: Chain, fingerprint: u64, mm: u64, jiffies: u64)
    ensures FindLive(ch, fingerprint, mm, jiffies) == None <==>
            forall e :: e in ch ==> !Live(e, fingerprint, mm, jiffies)
    ensures forall r :: FindLive(ch, fingerprint, mm, jiffies) == Some(r) ==>
              exists i :: 0 <= i < |ch| && ch[i] == r && Live(r, fingerprint, mm, jiffies)
                       && forall k :: 0 <= k < i ==> !Live(ch[k], fingerprint, mm, jiffies)
  {
    if ch != [] && !Live(ch[0], fingerprint, mm, jiffies) {
      var rest := ch[1..];
      FindLiveFirst(rest, fingerprint, mm, jiffies);
      assert forall e :: e in ch <==> e == ch[0] || e in rest;
      var f := FindLive(rest, fingerprint, mm, jiffies);
      if f.Some? {
        var i :| 0 <= i < |rest| && rest[i] == f.value
                 && forall k :: 0 <= k < i ==> !Live(rest[k], fingerprint, mm, jiffies);
        assert ch[i + 1] == f.value;
        forall k | 0 <= k < i + 1 ensures !Live(ch[k], fingerprint, mm, jiffies) {
          if k > 0 { assert ch[k] == rest[k - 1]; }
        }
      }
    }
  }

  lemma {:induction false} FindLiveIn(ch: Chain, fingerprint: u64, mm: u64, jiffies: u64)
    ensures FindLive(ch, fingerprint, mm, jiffies).Some? ==>
              FindLive(ch, fingerprint, mm, jiffies).value in ch
              && Live(FindLive(ch, fingerprint, mm, jiffies).value, fingerprint, mm, jiffies)
  {
    FindLiveFirst(ch, fingerprint, mm, jiffies);
  }

  /** A live entry whose key is unique in the chain is the one found. */
  lemma {:induction false} FindLiveUnique(ch: Chain, e: Entry, jiffies: u64)
    requires UniqueKeys(ch) && e in ch && TimeBefore(jiffies, e.expiry)
    ensures FindLive(ch, e.fingerprint, e.mm, jiffies) == Some(e)
  {
    FindLiveFirst(ch, e.fingerprint, e.mm, jiffies);
    var f := FindLive(ch, e.fingerprint, e.mm, jiffies);
    assert f.Some?;
    var i :| 0 <= i < |ch| && ch[i] == f.value && Matches(f.value, e.fingerprint, e.mm);
    var k :| 0 <= k < |ch| && ch[k] == e;
    assert SameKey(ch[i], ch[k]) && SameKey(ch[k], ch[i]);
  }

  // The walk by position, as a loop sees it.
  lemma {:induction false} FindLiveAt(ch: Chain, i: nat, fingerprint: u64, mm: u64, jiffies: u64)
    requires i <= |ch| && forall k :: 0 <= k < i ==> !Live(ch[k], fingerprint, mm, jiffies)
    ensures i == |ch| ==> FindLive(ch, fingerprint, mm, jiffies) == None
    ensures i < |ch| && Live(ch[i], fingerprint, mm, jiffies) ==>
              FindLive(ch, fingerprint, mm, jiffies) == Some(ch[i])
  {
    if i > 0 { FindLiveAt(ch[1..], i - 1, fingerprint, mm, jiffies); }
  }

  // --- the first matching entry, live or not ---

  function FirstMatch(ch: Chain, fingerprint: u64, mm: u64): Option<Entry> {
    if ch == [] then None
    else if Matches(ch[0], fingerprint, mm) then Some(ch[0])
    else FirstMatch(ch[1..], fingerprint, mm)
  }

  lemma {:induction false} FirstMatchLive(ch: Chain, fingerprint: u64, mm: u64, jiffies: u64)
    requires FirstMatch(ch, fingerprint, mm).Some?
    requires TimeBefore(jiffies, FirstMatch(ch, fingerprint, mm).value.expiry)
    ensures FindLive(ch, fingerprint, mm, jiffies) == FirstMatch(ch, fingerprint, mm)
  {
    if !Matches(ch[0], fingerprint, mm) {
      FirstMatchLive(ch[1..], fingerprint, mm, jiffies);
    }
  }

  lemma {:induction false} FirstMatchIn(ch: Chain, fingerprint: u64, mm: u64)
    ensures FirstMatch(ch, fingerprint, mm).Some? ==>
              FirstMatch(ch, fingerprint, mm).value in ch
              && Matches(FirstMatch(ch, fingerprint, mm).value, fingerprint, mm)
    ensures FirstMatch(ch, fingerprint, mm).None? ==>
              forall e :: e in ch ==> !Matches(e, fingerprint, mm)
  {
    if ch != [] && !Matches(ch[0], fingerprint, mm) {
      FirstMatchIn(ch[1..], fingerprint, mm);
      assert forall e :: e in ch <==> e == ch[0] || e in ch[1..];
    }
  }

  // --- removal of the first match ---

  lemma {:induction false} FirstMatchAt(ch: Chain, i: nat, fingerprint: u64, mm: u64)
    requires i <= |ch| && forall k :: 0 <= k < i ==> !Matches(ch[k], fingerprint, mm)
    ensures i == |ch| ==> FirstMatch(ch, fingerprint, mm) == None && RemoveFirst(ch, fingerprint, mm) == ch
    ensures i < |ch| && Matches(ch[i], fingerprint, mm) ==>
              && FirstMatch(ch, fingerprint, mm) == Some(ch[i])
              && RemoveFirst(ch, fingerprint, mm) == ch[..i] + ch[i + 1..]
  {
    if i > 0 { FirstMatchAt(ch[1..], i - 1, fingerprint, mm); }
  }

  /** Removal keeps every entry of another key and, of the same key, all but the
      first. */
  lemma {:induction false} RemoveFirstKeeps(ch: Chain, fingerprint: u64, mm: u64)
    ensures multiset(RemoveFirst(ch, fingerprint, mm)) ==
            multiset(ch) - (match FirstMatch(ch, fingerprint, mm)
                            case Some(e) => multiset{e}
                            case None => multiset{})
    ensures forall e :: e in RemoveFirst(ch, fingerprint, mm) ==> e in ch
    ensures forall e :: e in ch && !Matches(e, fingerprint, mm) ==> e in RemoveFirst(ch, fingerprint, mm)
  {
    FirstMatchIn(ch, fingerprint, mm);
    if ch != [] {
      var rest := ch[1..];
      assert ch == [ch[0]] + rest;
      if !Matches(ch[0], fingerprint, mm) {
        RemoveFirstKeeps(rest, fingerprint, mm);
        FirstMatchIn(rest, fingerprint, mm);
      }
    }
  }

  lemma {:induction false} RemoveFirstOtherKey(ch: Chain, fingerprint: u64, mm: u64, f2: u64, mm2: u64, jiffies: u64)
    requires f2 != fingerprint || mm2 != mm
    ensures FindLive(RemoveFirst(ch, fingerprint, mm), f2, mm2, jiffies) == FindLive(ch, f2, mm2, jiffies)
    ensures FirstMatch(RemoveFirst(ch, fingerprint, mm), f2, mm2) == FirstMatch(ch, f2, mm2)
  {
    if ch != [] && !Matches(ch[0], fingerprint, mm) {
      RemoveFirstOtherKey(ch[1..], fingerprint, mm, f2, mm2, jiffies);
      var r := RemoveFirst(ch, fingerprint, mm);
      assert r[1..] == RemoveFirst(ch[1..], fingerprint, mm);
    }
  }

  // Every suffix relation between remaining entries is inherited from `ch`.
  lemma {:induction false} RemoveFirstOrder(ch: Chain, fingerprint: u64, mm: u64, i: nat, j: nat)
    returns (i': nat, j': nat)
    requires i < j < |RemoveFirst(ch, fingerprint, mm)|
    ensures i' < j' < |ch|
    ensures ch[i'] == RemoveFirst(ch, fingerprint, mm)[i]
    ensures ch[j'] == RemoveFirst(ch, fingerprint, mm)[j]
  {
    if Matches(ch[0], fingerprint, mm) {
      i', j' := i + 1, j + 1;
    } else if i > 0 {
      i', j' := RemoveFirstOrder(ch[1..], fingerprint, mm, i - 1, j - 1);
      i', j' := i' + 1, j' + 1;
    } else {
      i' := 0;
      j' := RemoveFirstAt(ch[1..], fingerprint, mm, j - 1);
      j' := j' + 1;
    }
  }

  lemma {:induction false} RemoveFirstAt(ch: Chain, fingerprint: u64, mm: u64, j: nat) returns (j': nat)
    requires j < |RemoveFirst(ch, fingerprint, mm)|
    ensures j' < |ch| && ch[j'] == RemoveFirst(ch, fingerprint, mm)[j]
  {
    if Matches(ch[0], fingerprint, mm) {
      j' := j + 1;
    } else if j == 0 {
      j' := 0;
    } else {
      j' := RemoveFirstAt(ch[1..], fingerprint, mm, j - 1);
      j' := j' + 1;
    }
  }

  lemma {:induction false} RemoveFirstUnique(ch: Chain, fingerprint: u64, mm: u64)
    requires UniqueKeys(ch)
    ensures UniqueKeys(RemoveFirst(ch, fingerprint, mm))
    ensures forall e :: e in RemoveFirst(ch, fingerprint, mm) ==> !Matches(e, fingerprint, mm)
  {
    var r := RemoveFirst(ch, fingerprint, mm);
    if ch != [] {
      if Matches(ch[0], fingerprint, mm) {
        forall e | e in r ensures !Matches(e, fingerprint, mm) {
          var k :| 0 <= k < |r| && r[k] == e;
          assert !SameKey(ch[0], ch[k + 1]);
        }
      } else {
        assert UniqueKeys(ch[1..]);
        RemoveFirstUnique(ch[1..], fingerprint, mm);
        forall i, j | 0 <= i < j < |r| ensures !SameKey(r[i], r[j]) {
          var i', j' := RemoveFirstOrder(ch, fingerprint, mm, i, j);
        }
      }
    }
  }

  /** A store keeps the keys of a chain unique when they were. */
  lemma {:induction false} StoreChainUnique(ch: Chain, e: Entry)
    requires UniqueKeys(ch)
    ensures UniqueKeys(StoreChain(ch, e))
  {
    RemoveFirstUnique(ch, e.fingerprint, e.mm);
    var r := StoreChain(ch, e);
    forall i, j | 0 <= i < j < |r| ensures !SameKey(r[i], r[j]) {
      if i == 0 {
        assert r[j] in RemoveFirst(ch, e.fingerprint, e.mm);
      } else {
        assert r[i] == RemoveFirst(ch, e.fingerprint, e.mm)[i - 1];
        assert r[j] == RemoveFirst(ch, e.fingerprint, e.mm)[j - 1];
      }
    }
  }

  // --- purge ---

  /** Purge removes exactly the entries of `mm`. */
  lemma {:induction false} PurgeExact(ch: Chain, mm: u64)
    ensures forall e :: e in Purge(ch, mm) <==> e in ch && e.mm != mm
    ensures forall e :: multiset(Purge(ch, mm))[e] == if e.mm == mm then 0 else multiset(ch)[e]
  {
    if ch != [] {
      PurgeExact(ch[1..], mm);
      assert ch == [ch[0]] + ch[1..];
      var p := Purge(ch[1..], mm);
      assert multiset([ch[0]] + p) == multiset{ch[0]} + multiset(p);
    }
  }

  // One more entry of the deletion loop.
  lemma {:induction false} PurgeNext(ch: Chain, n: nat, mm: u64)
    requires n < |ch|
    ensures Purge(ch[..n + 1], mm) == Purge(ch[..n], mm) + (if ch[n].mm == mm then [] else [ch[n]])
    ensures Casualties(ch[..n + 1], mm) == Casualties(ch[..n], mm) + (if ch[n].mm == mm then [ch[n]] else [])
  {
    if n > 0 {
      PurgeNext(ch[1..], n - 1, mm);
      assert ch[..n + 1][1..] == ch[1..][..n] && ch[..n][1..] == ch[1..][..n - 1];
    } else {
      assert ch[..1] == [ch[0]];
    }
  }

  /** The survivors keep their order: one strictly increasing map of positions embeds
      the purged chain in the old one, and it skips exactly the entries of the mm. */
  lemma {:induction false} PurgeOrder(ch: Chain, mm: u64) returns (at: seq<nat>)
    ensures |at| == |Purge(ch, mm)|
    ensures forall i, j :: 0 <= i < j < |at| ==> at[i] < at[j]
    ensures forall i :: 0 <= i < |at| ==> at[i] < |ch| && Purge(ch, mm)[i] == ch[at[i]]
    ensures forall k :: 0 <= k < |ch| ==> (k in at <==> ch[k].mm != mm)
  {
    at := [];
    if ch != [] {
      var n := |ch| - 1;
      at := PurgeOrder(ch[..n], mm);
      PurgeNext(ch, n, mm);
      assert ch[..n + 1] == ch;
      if ch[n].mm != mm { at := at + [n]; }
    }
  }

  lemma {:induction false} PurgeOtherMm(ch: Chain, mm: u64, fingerprint: u64, mm2: u64, jiffies: u64)
    requires mm2 != mm
    ensures FindLive(Purge(ch, mm), fingerprint, mm2, jiffies) == FindLive(ch, fingerprint, mm2, jiffies)
    ensures FirstMatch(Purge(ch, mm), fingerprint, mm2) == FirstMatch(ch, fingerprint, mm2)
  {
    if ch != [] {
      PurgeOtherMm(ch[1..], mm, fingerprint, mm2, jiffies);
      if ch[0].mm != mm {
        assert Purge(ch, mm)[1..] == Purge(ch[1..], mm);
      }
    }
  }

  lemma {:induction false} PurgeUnique(ch: Chain, mm: u64)
    requires UniqueKeys(ch)
    ensures UniqueKeys(Purge(ch, mm))
  {
    var at := PurgeOrder(ch, mm);
  }

  // --- unlinking one entry ---

  lemma {:induction false} UnlinkKeeps(ch: Chain, e: Entry)
    ensures multiset(Unlink(ch, e)) == multiset(ch) - multiset{e}
    ensures forall x :: x in Unlink(ch, e) ==> x in ch
    ensures forall x :: x in ch && x != e ==> x in Unlink(ch, e)
  {
    if ch != [] {
      assert ch == [ch[0]] + ch[1..];
      if ch[0] != e {
        UnlinkKeeps(ch[1..], e);
      }
    }
  }

  // With unique keys, unlinking an entry is removing the first match of its key.
  lemma {:induction false} UnlinkIsRemoveFirst(ch: Chain, e: Entry)
    requires UniqueKeys(ch) && e in ch
    ensures Unlink(ch, e) == RemoveFirst(ch, e.fingerprint, e.mm)
  {
    if ch[0] != e {
      var k :| 0 <= k < |ch| && ch[k] == e;
      assert !SameKey(ch[0], ch[k]);
      assert UniqueKeys(ch[1..]);
      UnlinkIsRemoveFirst(ch[1..], e);
    }
  }
}
