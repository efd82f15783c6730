/** What every reachable state of the two-tier cache satisfies. */
module SystemInvariant {
  import opened Words
  import opened Entries
  import opened Chains
  import opened Tables
  import opened Payloads
  import opened System

  // What store_result wrote into an entry, seen at any later time.
  predicate WellMade(g: Config, s: Sys, e: Entry) {
    && e.id < s.nextId && e.born <= s.now && e.owner < |g.nodeOf|
    && e.expiry == ExpiryWord(g.boot, g.ttl, e.born)
    && e.mmGeneration == e.mm && e.fragmentLength == 0 && e.registerMask == MASK_RAX
    && |e.result| == RESULT_SIZE_MAX
    && (e.slot.None? ==> forall i :: 0 <= i < 12 ==> e.result[i] == 0)
  }

  // Behind an entry, every other entry of its key has outlived the TTL.
  ghost predicate StaleBehind(ch: Chain, ttl: nat, now: nat) {
    forall i, j :: 0 <= i < j < |ch| && SameKey(ch[i], ch[j]) ==> ch[j].born + ttl <= now
  }

  // Everything in a CPU's L2 was stored by a CPU of its socket.
  ghost predicate L2OK(g: Config, s: Sys, c: nat)
    requires Shape(g, s) && c < |s.l2|
  {
    && Placed(s.l2[c])
    && (forall e :: Has(s.l2[c], e) ==> WellMade(g, s, e) && SocketOf(g, e.owner) == SocketOf(g, c))
    && (forall b :: 0 <= b < L2_ENTRIES ==> StaleBehind(s.l2[c][b], g.ttl, s.now))
  }

  /** A socket's L3 table has one entry per key; each was stored by a CPU of the
      socket, in whose own L2 it still is. */
  ghost predicate L3OK(g: Config, s: Sys, k: nat)
    requires Shape(g, s) && k < |s.l3|
  {
    && Placed(s.l3[k]) && Unique(s.l3[k])
    && (forall e :: Has(s.l3[k], e) ==>
          && WellMade(g, s, e)
          && SocketOf(g, e.owner) == k
          && Has(s.l2[e.owner], e))
  }

  ghost predicate Inv(g: Config, s: Sys) {
    && Shape(g, s)
    && (forall c :: 0 <= c < |s.l2| ==> L2OK(g, s, c))
    && (forall k :: 0 <= k < |s.l3| ==> L3OK(g, s, k))
  }

  lemma InitInv(g: Config)
    requires ValidConfig(g)
    ensures Inv(g, Init(g))
  {
  }

  // --- the clock and the counters ---

  lemma TicksInv(g: Config, s: Sys, n: nat)
    requires Inv(g, s)
    ensures Inv(g, s.(now := s.now + n))
  {
    var t := s.(now := s.now + n);
    forall c | 0 <= c < |t.l2| ensures L2OK(g, t, c) { assert L2OK(g, s, c); }
    forall k | 0 <= k < |t.l3| ensures L3OK(g, t, k) { assert L3OK(g, s, k); }
  }

  lemma CountedInv(g: Config, s: Sys, c: nat, n: Counters)
    requires Inv(g, s) && c < |s.counters|
    ensures Inv(g, Counted(s, c, n))
  {
    var t := Counted(s, c, n);
    forall d | 0 <= d < |t.l2| ensures L2OK(g, t, d) { assert L2OK(g, s, d); }
    forall k | 0 <= k < |t.l3| ensures L3OK(g, t, k) { assert L3OK(g, s, k); }
  }

  // --- promotion ---

  // An entry the expiry test rejects has outlived the TTL.
  lemma RejectedIsStale(g: Config, s: Sys, e: Entry)
    requires ValidConfig(g) && WellMade(g, s, e) && !TimeBefore(Jiffies(g, s), e.expiry)
    ensures e.born + g.ttl <= s.now
  {
    AcceptsExactly(g.boot, g.ttl, e.born, s.now);
  }

  // Nothing in CPU c's L2 matches and is live.
  lemma L2Miss(g: Config, s: Sys, c: nat, fingerprint: u64, mm: u64, e: Entry)
    requires Shape(g, s) && c < |s.l2| && InL2(g, s, c, fingerprint, mm).None?
    requires Has(s.l2[c], e) && Matches(e, fingerprint, mm)
    ensures !TimeBefore(Jiffies(g, s), e.expiry)
  {
    FindLiveFirst(ChainFor(s.l2[c], fingerprint), fingerprint, mm, Jiffies(g, s));
  }

  lemma L3Hit(g: Config, s: Sys, c: nat, fingerprint: u64, mm: u64)
    requires Shape(g, s) && c < |s.l2| && InL3(g, s, c, fingerprint, mm).Some?
    ensures var e := InL3(g, s, c, fingerprint, mm).value;
            && Matches(e, fingerprint, mm) && TimeBefore(Jiffies(g, s), e.expiry)
            && Has(s.l3[SocketOf(g, c)], e)
  {
    FindLiveIn(ChainFor(s.l3[SocketOf(g, c)], fingerprint), fingerprint, mm, Jiffies(g, s));
  }

  lemma AttachStale(g: Config, s: Sys, c: nat, e: Entry)
    requires Inv(g, s) && c < |s.l2| && InL2(g, s, c, e.fingerprint, e.mm).None?
    ensures forall b :: 0 <= b < L2_ENTRIES ==> StaleBehind(Attach(s.l2[c], e)[b], g.ttl, s.now)
  {
    assert L2OK(g, s, c);
    var ch := ChainFor(s.l2[c], e.fingerprint);
    forall j | 0 <= j < |ch| && SameKey(e, ch[j]) ensures ch[j].born + g.ttl <= s.now {
      assert Has(s.l2[c], ch[j]);
      L2Miss(g, s, c, e.fingerprint, e.mm, ch[j]);
      RejectedIsStale(g, s, ch[j]);
    }
  }

  lemma PromoteInv(g: Config, s: Sys, c: nat, e: Entry)
    requires Inv(g, s) && c < |s.l2| && InL2(g, s, c, e.fingerprint, e.mm).None?
    requires Has(s.l3[SocketOf(g, c)], e)
    ensures Inv(g, Promote(g, s, c, e))
  {
    var t := Promote(g, s, c, e);
    var h := SocketOf(g, c);
    assert L3OK(g, s, h);
    assert L2OK(g, s, c);
    DetachFacts(s.l3[h], e);
    AttachFacts(s.l2[c], e);
    AttachStale(g, s, c, e);
    forall d | 0 <= d < |t.l2| ensures L2OK(g, t, d) {
      assert L2OK(g, s, d);
    }
    forall k | 0 <= k < |t.l3| ensures L3OK(g, t, k) {
      assert L3OK(g, s, k);
    }
  }

  lemma LookupInv(g: Config, s: Sys, c: nat, fingerprint: u64, mm: u64)
    requires Inv(g, s) && c < |s.l2|
    ensures Inv(g, AfterLookup(g, s, c, fingerprint, mm))
  {
    var n := s.counters[c];
    if InL2(g, s, c, fingerprint, mm).Some? {
      CountedInv(g, s, c, n.(l2Hits := Wrap(n.l2Hits + 1)));
    } else if InL3(g, s, c, fingerprint, mm).Some? {
      L3Hit(g, s, c, fingerprint, mm);
      var e := InL3(g, s, c, fingerprint, mm).value;
      PromoteInv(g, s, c, e);
      CountedInv(g, Promote(g, s, c, e), c, n.(l3Hits := Wrap(n.l3Hits + 1)));
    } else {
      CountedInv(g, s, c, n.(misses := Wrap(n.misses + 1)));
    }
  }

  // --- stores ---

  lemma {:induction false} StoreStale(ch: Chain, e: Entry, ttl: nat, now: nat)
    requires StaleBehind(ch, ttl, now)
    ensures StaleBehind(StoreChain(ch, e), ttl, now)
  {
    var r := StoreChain(ch, e);
    var rest := RemoveFirst(ch, e.fingerprint, e.mm);
    forall i, j | 0 <= i < j < |r| && SameKey(r[i], r[j]) ensures r[j].born + ttl <= now {
      if i > 0 {
        assert r[i] == rest[i - 1] && r[j] == rest[j - 1];
        var i', j' := RemoveFirstOrder(ch, e.fingerprint, e.mm, i - 1, j - 1);
      } else {
        assert r[j] == rest[j - 1];
        SecondMatchStale(ch, e, ttl, now, j - 1);
      }
    }
  }

  // What still matches after the first match is gone was behind it.
  lemma {:induction false} SecondMatchStale(ch: Chain, e: Entry, ttl: nat, now: nat, j: nat)
    requires StaleBehind(ch, ttl, now)
    requires j < |RemoveFirst(ch, e.fingerprint, e.mm)| && SameKey(RemoveFirst(ch, e.fingerprint, e.mm)[j], e)
    ensures RemoveFirst(ch, e.fingerprint, e.mm)[j].born + ttl <= now
  {
    if Matches(ch[0], e.fingerprint, e.mm) {
      assert SameKey(ch[0], ch[j + 1]);
    } else {
      var rest := ch[1..];
      assert StaleBehind(rest, ttl, now) by {
        forall i, k | 0 <= i < k < |rest| && SameKey(rest[i], rest[k]) ensures rest[k].born + ttl <= now {
          assert SameKey(ch[i + 1], ch[k + 1]);
        }
      }
      SecondMatchStale(rest, e, ttl, now, j - 1);
    }
  }

  lemma StoreTableKeeps(t: Table, e: Entry)
    requires Placed(t)
    ensures Has(Store(t, e), e)
    ensures forall x :: Has(Store(t, e), x) ==> x == e || Has(t, x)
    ensures forall x :: Has(t, x) && !SameKey(x, e) ==> Has(Store(t, e), x)
  {
    RemoveFirstKeeps(ChainFor(t, e.fingerprint), e.fingerprint, e.mm);
  }

  lemma StoreL2(g: Config, s: Sys, t: Sys, c: nat, e: Entry)
    requires Inv(g, s) && Shape(g, t) && c < |s.l2| && e.owner == c
    requires t.l2 == s.l2[c := Store(s.l2[c], e)]
    requires t.now == s.now && t.nextId == s.nextId + 1 && WellMade(g, t, e)
    ensures forall d :: 0 <= d < |t.l2| ==> L2OK(g, t, d)
  {
    assert L2OK(g, s, c);
    StoreTableKeeps(s.l2[c], e);
    StorePlaced(s.l2[c], e);
    StoreStale(ChainFor(s.l2[c], e.fingerprint), e, g.ttl, s.now);
    forall d | 0 <= d < |t.l2| ensures L2OK(g, t, d) {
      assert L2OK(g, s, d);
    }
  }

  lemma StoreL3(g: Config, s: Sys, t: Sys, c: nat, e: Entry)
    requires Inv(g, s) && Shape(g, t) && c < |s.l2| && e.owner == c
    requires t.l2 == s.l2[c := Store(s.l2[c], e)]
    requires t.l3 == s.l3[SocketOf(g, c) := Store(s.l3[SocketOf(g, c)], e)]
    requires t.now == s.now && t.nextId == s.nextId + 1 && WellMade(g, t, e)
    ensures forall k :: 0 <= k < |t.l3| ==> L3OK(g, t, k)
  {
    var h := SocketOf(g, c);
    assert L2OK(g, s, c);
    assert L3OK(g, s, h);
    StoreTableKeeps(s.l2[c], e);
    StorePlaced(s.l3[h], e);
    StoreUnique(s.l3[h], e);
    forall k | 0 <= k < |t.l3| ensures L3OK(g, t, k) {
      assert L3OK(g, s, k);
    }
  }

  lemma StoreInv(g: Config, s: Sys, c: nat, fingerprint: u64, data: Option<seq<u8>>, mm: u64, a: Allocator)
    requires Inv(g, s) && c < |s.l2| && (data.Some? ==> |data.value| < 0x1_0000_0000)
    ensures Inv(g, AfterStore(g, s, c, fingerprint, data, mm, a))
  {
    match Prepare(g, s, c, fingerprint, data, mm, a)
    case Refused(_) =>
    case Accepted(e) =>
      var t := AfterStore(g, s, c, fingerprint, data, mm, a);
      if |data.value| <= RESULT_SIZE_MAX { InlineBytes(data.value); }
      StoreL2(g, s, t, c, e);
      StoreL3(g, s, t, c, e);
  }

  // --- invalidation ---

  lemma PurgeStale(ch: Chain, mm: u64, ttl: nat, now: nat)
    requires StaleBehind(ch, ttl, now)
    ensures StaleBehind(Purge(ch, mm), ttl, now)
  {
    var at := PurgeOrder(ch, mm);
  }

  lemma InvalidateInv(g: Config, s: Sys, c: nat, mm: u64)
    requires Inv(g, s) && c < |s.l2|
    ensures Inv(g, AfterInvalidate(g, s, c, mm))
  {
    var t := AfterInvalidate(g, s, c, mm);
    var h := SocketOf(g, c);
    assert L2OK(g, s, c);
    assert L3OK(g, s, h);
    PurgePlaced(s.l2[c], mm);
    PurgePlaced(s.l3[h], mm);
    PurgeAllUnique(s.l3[h], mm);
    forall b | 0 <= b < L2_ENTRIES ensures StaleBehind(PurgeAll(s.l2[c], mm)[b], g.ttl, s.now) {
      PurgeStale(s.l2[c][b], mm, g.ttl, s.now);
    }
    forall d | 0 <= d < |t.l2| ensures L2OK(g, t, d) {
      assert L2OK(g, s, d);
    }
    forall k | 0 <= k < |t.l3| ensures L3OK(g, t, k) {
      assert L3OK(g, s, k);
    }
  }

  // --- runs ---

  lemma StepInv(g: Config, s: Sys, call: Call)
    requires Inv(g, s) && ValidCall(g, call)
    ensures Inv(g, Step(g, s, call))
  {
    match call
    case Ticks(n) => TicksInv(g, s, n);
    case Lookup(c, fingerprint, mm) => LookupInv(g, s, c, fingerprint, mm);
    case StoreResult(c, fingerprint, data, mm, a) => StoreInv(g, s, c, fingerprint, data, mm, a);
    case InvalidateRange(c, mm) => InvalidateInv(g, s, c, mm);
  }

  lemma {:induction false} RunInv(g: Config, s: Sys, calls: seq<Call>)
    requires Inv(g, s) && ValidCalls(g, calls)
    ensures Inv(g, Run(g, s, calls))
    decreases |calls|
  {
    if calls != [] {
      assert ValidCall(g, calls[0]);
      StepInv(g, s, calls[0]);
      RunInv(g, Step(g, s, calls[0]), calls[1..]);
    }
  }
}
