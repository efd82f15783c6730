/** What callers of the two-tier cache can and cannot rely on, in every run. */
module SystemTheorems {
  import opened Words
  import opened Entries
  import opened Chains
  import opened Tables
  import opened System
  import opened SystemInvariant

  // --- L3 hits ---

  /** Every L3 hit is for an entry some other CPU of the same socket stored, and it
      is never already in the L2 it is promoted to. */
  lemma L3HitIsForeign(g: Config, calls: seq<Call>, c: nat, fingerprint: u64, mm: u64)
    requires ValidConfig(g) && ValidCalls(g, calls) && c < |g.nodeOf|
    requires var s := Run(g, Init(g), calls);
             InL2(g, s, c, fingerprint, mm).None? && InL3(g, s, c, fingerprint, mm).Some?
    ensures var s := Run(g, Init(g), calls);
            var e := InL3(g, s, c, fingerprint, mm).value;
            && e.owner != c && e.owner < |g.nodeOf| && SocketOf(g, e.owner) == SocketOf(g, c)
            && !Has(s.l2[c], e)
  {
    InitInv(g);
    RunInv(g, Init(g), calls);
    var s := Run(g, Init(g), calls);
    L3Hit(g, s, c, fingerprint, mm);
    assert L3OK(g, s, SocketOf(g, c));
    var e := InL3(g, s, c, fingerprint, mm).value;
    if Has(s.l2[c], e) {
      L2Miss(g, s, c, fingerprint, mm, e);
    }
  }

  /** A CPU alone on its socket never has an L3 hit. */
  lemma LonelyCpuHasNoL3Hit(g: Config, calls: seq<Call>, c: nat, fingerprint: u64, mm: u64)
    requires ValidConfig(g) && ValidCalls(g, calls) && c < |g.nodeOf|
    requires forall d :: 0 <= d < |g.nodeOf| && SocketOf(g, d) == SocketOf(g, c) ==> d == c
    ensures var s := Run(g, Init(g), calls);
            Answer(g, s, c, fingerprint, mm) == InL2(g, s, c, fingerprint, mm)
  {
    var s := Run(g, Init(g), calls);
    if InL2(g, s, c, fingerprint, mm).None? && InL3(g, s, c, fingerprint, mm).Some? {
      L3HitIsForeign(g, calls, c, fingerprint, mm);
    }
  }

  // --- duplicates ---

  /** In every L2 chain of every run, what lies behind an entry of its key has
      outlived the TTL; so as long as nothing linked is older than 2^63 + ttl ticks
      at most one entry of a key is live. */
  lemma AtMostOneLive(g: Config, calls: seq<Call>, c: nat, b: nat, i: nat, j: nat)
    requires ValidConfig(g) && ValidCalls(g, calls) && c < |g.nodeOf| && b < L2_ENTRIES
    requires var s := Run(g, Init(g), calls);
             i < j < |s.l2[c][b]| && SameKey(s.l2[c][b][i], s.l2[c][b][j])
    ensures var s := Run(g, Init(g), calls);
            var e := s.l2[c][b][j];
            && e.born + g.ttl <= s.now
            && (s.now < e.born + HALF + g.ttl ==> !TimeBefore(Jiffies(g, s), e.expiry))
  {
    InitInv(g);
    RunInv(g, Init(g), calls);
    var s := Run(g, Init(g), calls);
    assert L2OK(g, s, c);
    var e := s.l2[c][b][j];
    assert Has(s.l2[c], e);
    if s.now < e.born + HALF + g.ttl {
      AcceptsIffFresh(g.boot, g.ttl, e.born, s.now);
    }
  }

  // --- freshness ---

  lemma AnswerHas(g: Config, s: Sys, c: nat, fingerprint: u64, mm: u64)
    requires Inv(g, s) && c < |s.l2| && Answer(g, s, c, fingerprint, mm).Some?
    ensures var e := Answer(g, s, c, fingerprint, mm).value;
            && Matches(e, fingerprint, mm) && TimeBefore(Jiffies(g, s), e.expiry) && WellMade(g, s, e)
            && (Has(s.l2[c], e) || Has(s.l3[SocketOf(g, c)], e))
  {
    assert L2OK(g, s, c);
    assert L3OK(g, s, SocketOf(g, c));
    if InL2(g, s, c, fingerprint, mm).Some? {
      FindLiveIn(ChainFor(s.l2[c], fingerprint), fingerprint, mm, Jiffies(g, s));
    } else {
      L3Hit(g, s, c, fingerprint, mm);
    }
  }

  /** Whatever a lookup returns on any CPU, promoted or missed by an invalidation,
      has the key asked for and was stored less than one TTL ago, in clock cycles of
      2^64; without wrap-around, simply less than one TTL ago. */
  lemma HitIsFresh(g: Config, calls: seq<Call>, c: nat, fingerprint: u64, mm: u64)
    requires ValidConfig(g) && ValidCalls(g, calls) && c < |g.nodeOf|
    requires Answer(g, Run(g, Init(g), calls), c, fingerprint, mm).Some?
    ensures var s := Run(g, Init(g), calls);
            var e := Answer(g, s, c, fingerprint, mm).value;
            && Matches(e, fingerprint, mm) && e.born <= s.now
            && ((s.now - e.born) % WORD < g.ttl || (s.now - e.born) % WORD >= HALF + g.ttl)
            && (s.now < e.born + HALF + g.ttl ==> s.now < e.born + g.ttl)
  {
    InitInv(g);
    RunInv(g, Init(g), calls);
    var s := Run(g, Init(g), calls);
    AnswerHas(g, s, c, fingerprint, mm);
    var e := Answer(g, s, c, fingerprint, mm).value;
    AcceptsExactly(g.boot, g.ttl, e.born, s.now);
    if s.now < e.born + HALF + g.ttl {
      AcceptsIffFresh(g.boot, g.ttl, e.born, s.now);
    }
  }

  /** The bound on the age is needed: an entry nobody touches for 2^63 + ttl ticks
      is returned again. */
  lemma OldEntryComesBack(g: Config, c: nat, fingerprint: u64, mm: u64)
    requires ValidConfig(g) && c < |g.nodeOf|
    ensures var calls := [StoreResult(c, fingerprint, Some([1]), mm, Allocator(true, 0)), Ticks(HALF + g.ttl)];
            && ValidCalls(g, calls)
            && var r := Answer(g, Run(g, Init(g), calls), c, fingerprint, mm);
               r.Some? && r.value.born + HALF + g.ttl == Run(g, Init(g), calls).now
  {
    var s := Init(g);
    var store := StoreResult(c, fingerprint, Some([1]), mm, Allocator(true, 0));
    var t := Step(g, s, store);
    var u := Step(g, t, Ticks(HALF + g.ttl));
    RunTwo(g, s, store, Ticks(HALF + g.ttl));
    var e := Prepare(g, s, c, fingerprint, Some([1]), mm, Allocator(true, 0)).e;
    assert ChainFor(u.l2[c], fingerprint)[0] == e;
    AcceptsAgain(g.boot, g.ttl, e.born);
    assert Live(e, fingerprint, mm, Jiffies(g, u));
  }

  lemma RunTwo(g: Config, s: Sys, first: Call, second: Call)
    requires Shape(g, s) && ValidCall(g, first) && ValidCall(g, second)
    ensures ValidCalls(g, [first, second])
    ensures Run(g, s, [first, second]) == Step(g, Step(g, s, first), second)
  {
    var calls := [first, second];
    var t := Step(g, s, first);
    assert calls[1..] == [second] && [second][1..] == [];
    assert Run(g, t, [second]) == Run(g, Step(g, t, second), []);
  }

  // --- read your writes ---

  // The call can change what CPU c finds for e's key.
  ghost predicate Disturbs(g: Config, s: Sys, call: Call, c: nat, e: Entry)
    requires Shape(g, s) && ValidCall(g, call)
  {
    match call
    case StoreResult(d, fingerprint, data, mm, a) =>
      d == c && Matches(e, fingerprint, mm) && Prepare(g, s, d, fingerprint, data, mm, a).Accepted?
    case InvalidateRange(d, mm) => d == c && e.mm == mm
    case _ => false
  }

  ghost predicate Undisturbed(g: Config, s: Sys, calls: seq<Call>, c: nat, e: Entry)
    requires Shape(g, s) && ValidCalls(g, calls)
    decreases |calls|
  {
    calls == [] || (assert ValidCall(g, calls[0]);
                    !Disturbs(g, s, calls[0], c, e) && Undisturbed(g, Step(g, s, calls[0]), calls[1..], c, e))
  }

  // e is what c's L2 walk meets first for its key, unless it has expired.
  ghost predicate Readable(g: Config, s: Sys, c: nat, e: Entry)
    requires Shape(g, s) && c < |s.l2|
  {
    && e.expiry == ExpiryWord(g.boot, g.ttl, e.born) && e.born <= s.now
    && (s.now < e.born + g.ttl ==>
          FirstMatch(ChainFor(s.l2[c], e.fingerprint), e.fingerprint, e.mm) == Some(e))
  }

  lemma ReadableAnswer(g: Config, s: Sys, c: nat, e: Entry)
    requires Shape(g, s) && c < |s.l2| && Readable(g, s, c, e) && s.now < e.born + g.ttl
    ensures InL2(g, s, c, e.fingerprint, e.mm) == Some(e)
  {
    AcceptsIffFresh(g.boot, g.ttl, e.born, s.now);
    FirstMatchLive(ChainFor(s.l2[c], e.fingerprint), e.fingerprint, e.mm, Jiffies(g, s));
  }

  lemma ReadableStep(g: Config, s: Sys, call: Call, c: nat, e: Entry)
    requires Shape(g, s) && ValidCall(g, call) && c < |s.l2|
    requires Readable(g, s, c, e) && !Disturbs(g, s, call, c, e)
    ensures Readable(g, Step(g, s, call), c, e)
  {
    var t := Step(g, s, call);
    if s.now < e.born + g.ttl {
      ReadableAnswer(g, s, c, e);
      var ch := ChainFor(s.l2[c], e.fingerprint);
      match call
      case Ticks(_) =>
      case Lookup(d, fingerprint, mm) =>
        if InL3(g, s, d, fingerprint, mm).Some? { L3Hit(g, s, d, fingerprint, mm); }
      case StoreResult(d, fingerprint, data, mm, a) =>
        if d == c && Prepare(g, s, d, fingerprint, data, mm, a).Accepted? {
          RemoveFirstOtherKey(ch, fingerprint, mm, e.fingerprint, e.mm, 0);
          assert StoreChain(ch, Prepare(g, s, d, fingerprint, data, mm, a).e)[1..] == RemoveFirst(ch, fingerprint, mm);
        }
      case InvalidateRange(d, mm) =>
        if d == c { PurgeOtherMm(ch, mm, e.fingerprint, e.mm, 0); }
    }
  }

  lemma {:induction false} ReadableRun(g: Config, s: Sys, calls: seq<Call>, c: nat, e: Entry)
    requires Shape(g, s) && ValidCalls(g, calls) && c < |s.l2|
    requires Readable(g, s, c, e) && Undisturbed(g, s, calls, c, e)
    ensures Readable(g, Run(g, s, calls), c, e)
    decreases |calls|
  {
    if calls != [] {
      assert ValidCall(g, calls[0]);
      ReadableStep(g, s, calls[0], c, e);
      ReadableRun(g, Step(g, s, calls[0]), calls[1..], c, e);
    }
  }

  /** What a CPU stores successfully it finds again until the entry expires, whatever
      the other CPUs do, unless it stores the key again or invalidates the mm. */
  lemma ReadYourWrites(g: Config, s: Sys, c: nat, fingerprint: u64, data: Option<seq<u8>>, mm: u64, a: Allocator,
                       calls: seq<Call>)
    requires Shape(g, s) && c < |s.l2| && (data.Some? ==> |data.value| < 0x1_0000_0000)
    requires Prepare(g, s, c, fingerprint, data, mm, a).Accepted? && ValidCalls(g, calls)
    requires Undisturbed(g, AfterStore(g, s, c, fingerprint, data, mm, a), calls, c,
                         Prepare(g, s, c, fingerprint, data, mm, a).e)
    ensures var e := Prepare(g, s, c, fingerprint, data, mm, a).e;
            var u := Run(g, AfterStore(g, s, c, fingerprint, data, mm, a), calls);
            u.now < s.now + g.ttl ==> Answer(g, u, c, fingerprint, mm) == Some(e)
  {
    var e := Prepare(g, s, c, fingerprint, data, mm, a).e;
    var t := AfterStore(g, s, c, fingerprint, data, mm, a);
    assert ChainFor(t.l2[c], fingerprint)[0] == e;
    ReadableRun(g, t, calls, c, e);
    var u := Run(g, t, calls);
    if u.now < s.now + g.ttl {
      ReadableAnswer(g, u, c, e);
    }
  }

  // --- promotion ---

  lemma {:induction false} UnlinkOtherKey(ch: Chain, e: Entry, fingerprint: u64, mm: u64, jiffies: u64)
    requires !Matches(e, fingerprint, mm)
    ensures FindLive(Unlink(ch, e), fingerprint, mm, jiffies) == FindLive(ch, fingerprint, mm, jiffies)
  {
    if ch != [] && ch[0] != e {
      UnlinkOtherKey(ch[1..], e, fingerprint, mm, jiffies);
      assert Unlink(ch, e)[1..] == Unlink(ch[1..], e);
    }
  }

  lemma DetachFind(t: Table, e: Entry, fingerprint: u64, mm: u64, jiffies: u64)
    requires Placed(t) && Unique(t) && Has(t, e)
    ensures Find(Detach(t, e), fingerprint, mm, jiffies) ==
            if Matches(e, fingerprint, mm) then None else Find(t, fingerprint, mm, jiffies)
  {
    var ch := ChainFor(t, e.fingerprint);
    if Matches(e, fingerprint, mm) {
      UnlinkIsRemoveFirst(ch, e);
      RemoveFirstUnique(ch, fingerprint, mm);
      FindLiveFirst(RemoveFirst(ch, fingerprint, mm), fingerprint, mm, jiffies);
    } else {
      UnlinkOtherKey(ch, e, fingerprint, mm, jiffies);
    }
  }

  lemma AttachFind(t: Table, e: Entry, fingerprint: u64, mm: u64, jiffies: u64)
    requires 0 < |t|
    ensures Find(Attach(t, e), fingerprint, mm, jiffies) ==
            if Live(e, fingerprint, mm, jiffies) then Some(e) else Find(t, fingerprint, mm, jiffies)
  {
    if BucketOf(|t|, fingerprint) == BucketOf(|t|, e.fingerprint) {
      assert ([e] + ChainFor(t, e.fingerprint))[1..] == ChainFor(t, e.fingerprint);
    }
  }

  lemma DetachContent(t: Table, e: Entry)
    requires Has(t, e)
    ensures multiset{e} <= Content(t) && Content(Detach(t, e)) == Content(t) - multiset{e}
  {
    var ch := ChainFor(t, e.fingerprint);
    UnlinkKeeps(ch, e);
    ContentSet(t, BucketOf(|t|, e.fingerprint), Unlink(ch, e));
    assert multiset{e} <= multiset(ch);
  }

  lemma AttachContent(t: Table, e: Entry)
    requires 0 < |t|
    ensures Content(Attach(t, e)) == Content(t) + multiset{e}
  {
    var ch := ChainFor(t, e.fingerprint);
    ContentSet(t, BucketOf(|t|, e.fingerprint), [e] + ch);
    assert multiset([e] + ch) == multiset{e} + multiset(ch);
  }

  /** A promotion moves exactly one entry from the socket's L3 to the CPU's L2 and
      touches no other table. */
  lemma PromotionMovesOne(g: Config, s: Sys, c: nat, fingerprint: u64, mm: u64)
    requires Inv(g, s) && c < |s.l2|
    requires InL2(g, s, c, fingerprint, mm).None? && InL3(g, s, c, fingerprint, mm).Some?
    ensures var t := AfterLookup(g, s, c, fingerprint, mm);
            var k := SocketOf(g, c);
            var e := InL3(g, s, c, fingerprint, mm).value;
            && multiset{e} <= Content(s.l3[k])
            && Content(t.l2[c]) == Content(s.l2[c]) + multiset{e}
            && Content(t.l3[k]) == Content(s.l3[k]) - multiset{e}
    ensures var t := AfterLookup(g, s, c, fingerprint, mm);
            var k := SocketOf(g, c);
            t.l2 == s.l2[c := t.l2[c]] && t.l3 == s.l3[k := t.l3[k]] && t.slots == s.slots
  {
    var k, e := SocketOf(g, c), InL3(g, s, c, fingerprint, mm).value;
    L3Hit(g, s, c, fingerprint, mm);
    DetachContent(s.l3[k], e);
    AttachContent(s.l2[c], e);
  }

  /** So the entries c can reach stay the same, counted with multiplicity. */
  lemma PromotionKeepsContent(g: Config, s: Sys, c: nat, fingerprint: u64, mm: u64)
    requires Inv(g, s) && c < |s.l2|
    ensures var t := AfterLookup(g, s, c, fingerprint, mm);
            var k := SocketOf(g, c);
            Content(t.l2[c]) + Content(t.l3[k]) == Content(s.l2[c]) + Content(s.l3[k])
  {
    if InL2(g, s, c, fingerprint, mm).None? && InL3(g, s, c, fingerprint, mm).Some? {
      PromotionMovesOne(g, s, c, fingerprint, mm);
    }
  }

  /** After a promotion by c, c finds exactly what it found before, for every key;
      another CPU's answer changes only from a hit to a miss, and only for the
      promoted key, on the same socket, where its own L2 has no live entry. */
  lemma PromotionIsInvisible(g: Config, s: Sys, c: nat, fingerprint: u64, mm: u64, d: nat, f: u64, m: u64)
    requires Inv(g, s) && c < |s.l2| && d < |s.l2|
    requires InL2(g, s, c, fingerprint, mm).None? && InL3(g, s, c, fingerprint, mm).Some?
    ensures Answer(g, AfterLookup(g, s, c, fingerprint, mm), d, f, m) ==
            if d != c && SocketOf(g, d) == SocketOf(g, c) && f == fingerprint && m == mm
               && InL2(g, s, d, f, m).None?
            then None
            else Answer(g, s, d, f, m)
  {
    var t := AfterLookup(g, s, c, fingerprint, mm);
    var k, e := SocketOf(g, c), InL3(g, s, c, fingerprint, mm).value;
    var j := Jiffies(g, s);
    L3Hit(g, s, c, fingerprint, mm);
    assert L3OK(g, s, k);
    DetachFind(s.l3[k], e, f, m, j);
    AttachFind(s.l2[c], e, f, m, j);
    assert InL2(g, t, d, f, m) == if d == c && Live(e, f, m, j) then Some(e) else InL2(g, s, d, f, m);
    assert InL3(g, t, d, f, m) ==
           if SocketOf(g, d) == k && Matches(e, f, m) then None else InL3(g, s, d, f, m);
  }

  // --- invalidation ---

  lemma PurgeFind(t: Table, mm: u64, fingerprint: u64, m: u64, jiffies: u64)
    requires 0 < |t|
    ensures Find(PurgeAll(t, mm), fingerprint, m, jiffies) ==
            if m == mm then None else Find(t, fingerprint, m, jiffies)
  {
    var ch := ChainFor(t, fingerprint);
    if m == mm {
      PurgeExact(ch, mm);
      FindLiveFirst(Purge(ch, mm), fingerprint, m, jiffies);
    } else {
      PurgeOtherMm(ch, mm, fingerprint, m, jiffies);
    }
  }

  /** The reach of invalidate_range, which its comments call complete: an entry of the
      mm is still returned to another CPU exactly when that CPU has it live in its own
      L2, or is on another socket and finds it in that L3. Other mms keep their answers. */
  lemma InvalidationReach(g: Config, s: Sys, c: nat, mm: u64, d: nat, f: u64, m: u64)
    requires Inv(g, s) && c < |s.l2| && d < |s.l2|
    ensures Answer(g, AfterInvalidate(g, s, c, mm), d, f, m) ==
            if m != mm then Answer(g, s, d, f, m)
            else if d == c then None
            else if SocketOf(g, d) == SocketOf(g, c) then InL2(g, s, d, f, m)
            else Answer(g, s, d, f, m)
  {
    var k := SocketOf(g, c);
    PurgeFind(s.l2[c], mm, f, m, Jiffies(g, s));
    PurgeFind(s.l3[k], mm, f, m, Jiffies(g, s));
  }

  /** Two calls are enough: what CPU 1 has stored it still finds after CPU 0 has
      invalidated the mm. */
  lemma OtherCpuStillHits(g: Config, fingerprint: u64)
    requires ValidConfig(g) && 1 < |g.nodeOf|
    ensures var calls := [StoreResult(1, fingerprint, Some([1]), 1, Allocator(true, 0)), InvalidateRange(0, 1)];
            ValidCalls(g, calls) && Answer(g, Run(g, Init(g), calls), 1, fingerprint, 1).Some?
  {
    var s := Init(g);
    var a := Allocator(true, 0);
    var store := StoreResult(1, fingerprint, Some([1]), 1, a);
    var t := Step(g, s, store);
    RunTwo(g, s, store, InvalidateRange(0, 1));
    FoundAtOnce(g, s, 1, fingerprint, Some([1]), 1, a);
  }

  // What has just been stored is found.
  lemma FoundAtOnce(g: Config, s: Sys, c: nat, fingerprint: u64, data: Option<seq<u8>>, mm: u64, a: Allocator)
    requires Shape(g, s) && c < |s.l2| && (data.Some? ==> |data.value| < 0x1_0000_0000)
    requires Prepare(g, s, c, fingerprint, data, mm, a).Accepted?
    ensures InL2(g, AfterStore(g, s, c, fingerprint, data, mm, a), c, fingerprint, mm)
            == Some(Prepare(g, s, c, fingerprint, data, mm, a).e)
  {
    var t := AfterStore(g, s, c, fingerprint, data, mm, a);
    var e := Prepare(g, s, c, fingerprint, data, mm, a).e;
    assert ChainFor(t.l2[c], fingerprint)[0] == e;
    AcceptsIffFresh(g.boot, g.ttl, e.born, t.now);
  }

  lemma {:induction false} CasualtiesCount(ch: Chain, mm: u64)
    ensures |Casualties(ch, mm)| + |Purge(ch, mm)| == |ch|
  {
    if ch != [] { CasualtiesCount(ch[1..], mm); }
  }

  lemma {:induction false} RemovedCounts(t: Table, mm: u64)
    ensures Removed(t, mm) + |Content(PurgeAll(t, mm))| == |Content(t)|
  {
    if t != [] {
      CasualtiesCount(t[0], mm);
      RemovedCounts(t[1..], mm);
      assert PurgeAll(t, mm)[1..] == PurgeAll(t[1..], mm);
    }
  }

  /** An invalidation by c removes exactly the entries of the mm from c's L2 and its
      socket's L3, leaves the others in place bucket by bucket, touches no other table and
      no other CPU's counters, and raises c's invalidation counter by the number of L2
      entries removed, as a 64-bit word. */
  lemma InvalidationIsExact(g: Config, s: Sys, c: nat, mm: u64)
    requires Inv(g, s) && c < |s.l2|
    ensures var t := AfterInvalidate(g, s, c, mm);
            var k := SocketOf(g, c);
            && (forall e :: Has(t.l2[c], e) <==> Has(s.l2[c], e) && e.mm != mm)
            && (forall e :: Has(t.l3[k], e) <==> Has(s.l3[k], e) && e.mm != mm)
            && (forall b :: 0 <= b < L2_ENTRIES ==> t.l2[c][b] == Purge(s.l2[c][b], mm))
            && (forall b :: 0 <= b < L3_ENTRIES ==> t.l3[k][b] == Purge(s.l3[k][b], mm))
    ensures var t := AfterInvalidate(g, s, c, mm);
            var k := SocketOf(g, c);
            && t.l2 == s.l2[c := t.l2[c]] && t.l3 == s.l3[k := t.l3[k]]
            && t.slots == s.slots[k := t.slots[k]] && t.counters == s.counters[c := t.counters[c]]
            && t.counters[c] == s.counters[c].(invalidations :=
                 Wrap(s.counters[c].invalidations + |Content(s.l2[c])| - |Content(t.l2[c])|))
  {
    InvalidationHas(g, s, c, mm);
    InvalidationFrame(g, s, c, mm);
  }

  lemma InvalidationFrame(g: Config, s: Sys, c: nat, mm: u64)
    requires Shape(g, s) && c < |s.l2|
    ensures var t := AfterInvalidate(g, s, c, mm);
            var k := SocketOf(g, c);
            && t.l2 == s.l2[c := t.l2[c]] && t.l3 == s.l3[k := t.l3[k]]
            && t.slots == s.slots[k := t.slots[k]] && t.counters == s.counters[c := t.counters[c]]
            && t.counters[c] == s.counters[c].(invalidations :=
                 Wrap(s.counters[c].invalidations + |Content(s.l2[c])| - |Content(t.l2[c])|))
  {
    RemovedCounts(s.l2[c], mm);
  }

  lemma InvalidationHas(g: Config, s: Sys, c: nat, mm: u64)
    requires Inv(g, s) && c < |s.l2|
    ensures var t := AfterInvalidate(g, s, c, mm);
            var k := SocketOf(g, c);
            && (forall e :: Has(t.l2[c], e) <==> Has(s.l2[c], e) && e.mm != mm)
            && (forall e :: Has(t.l3[k], e) <==> Has(s.l3[k], e) && e.mm != mm)
  {
    var k := SocketOf(g, c);
    assert L2OK(g, s, c) && L3OK(g, s, k);
    PurgePlaced(s.l2[c], mm);
    PurgePlaced(s.l3[k], mm);
  }

  // Nothing of the mm is within CPU c's reach.
  ghost predicate Clean(g: Config, s: Sys, c: nat, mm: u64)
    requires Shape(g, s) && c < |s.l2|
  {
    && (forall e :: Has(s.l2[c], e) ==> e.mm != mm)
    && (forall e :: Has(s.l3[SocketOf(g, c)], e) ==> e.mm != mm)
  }

  lemma CleanMisses(g: Config, s: Sys, c: nat, fingerprint: u64, mm: u64)
    requires Shape(g, s) && c < |s.l2| && Clean(g, s, c, mm)
    ensures Answer(g, s, c, fingerprint, mm) == None
  {
    FindLiveIn(ChainFor(s.l2[c], fingerprint), fingerprint, mm, Jiffies(g, s));
    FindLiveIn(ChainFor(s.l3[SocketOf(g, c)], fingerprint), fingerprint, mm, Jiffies(g, s));
  }

  // A CPU of c's socket stores something for the mm.
  ghost predicate Refills(g: Config, s: Sys, call: Call, c: nat, mm: u64)
    requires Shape(g, s) && ValidCall(g, call) && c < |s.l2|
  {
    match call
    case StoreResult(d, fingerprint, data, m, a) =>
      SocketOf(g, d) == SocketOf(g, c) && m == mm && Prepare(g, s, d, fingerprint, data, m, a).Accepted?
    case _ => false
  }

  ghost predicate NotRefilled(g: Config, s: Sys, calls: seq<Call>, c: nat, mm: u64)
    requires Shape(g, s) && ValidCalls(g, calls) && c < |s.l2|
    decreases |calls|
  {
    calls == [] || (assert ValidCall(g, calls[0]);
                    !Refills(g, s, calls[0], c, mm) && NotRefilled(g, Step(g, s, calls[0]), calls[1..], c, mm))
  }

  lemma CleanStep(g: Config, s: Sys, call: Call, c: nat, mm: u64)
    requires Inv(g, s) && ValidCall(g, call) && c < |s.l2|
    requires Clean(g, s, c, mm) && !Refills(g, s, call, c, mm)
    ensures Clean(g, Step(g, s, call), c, mm)
  {
    var k := SocketOf(g, c);
    assert L2OK(g, s, c) && L3OK(g, s, k);
    match call
    case Ticks(_) =>
    case Lookup(d, fingerprint, m) =>
      if InL2(g, s, d, fingerprint, m).None? && InL3(g, s, d, fingerprint, m).Some? {
        L3Hit(g, s, d, fingerprint, m);
        var e := InL3(g, s, d, fingerprint, m).value;
        assert L3OK(g, s, SocketOf(g, d));
        DetachFacts(s.l3[SocketOf(g, d)], e);
        if d == c { AttachFacts(s.l2[c], e); }
      }
    case StoreResult(d, fingerprint, data, m, a) =>
      if Prepare(g, s, d, fingerprint, data, m, a).Accepted? {
        var e := Prepare(g, s, d, fingerprint, data, m, a).e;
        if d == c { StoreTableKeeps(s.l2[c], e); }
        if SocketOf(g, d) == k { StoreTableKeeps(s.l3[k], e); }
      }
    case InvalidateRange(d, m) =>
      PurgePlaced(s.l2[c], m);
      PurgePlaced(s.l3[k], m);
  }

  lemma {:induction false} CleanRun(g: Config, s: Sys, calls: seq<Call>, c: nat, mm: u64)
    requires Inv(g, s) && ValidCalls(g, calls) && c < |s.l2|
    requires Clean(g, s, c, mm) && NotRefilled(g, s, calls, c, mm)
    ensures Clean(g, Run(g, s, calls), c, mm)
    decreases |calls|
  {
    if calls != [] {
      assert ValidCall(g, calls[0]);
      CleanStep(g, s, calls[0], c, mm);
      StepInv(g, s, calls[0]);
      CleanRun(g, Step(g, s, calls[0]), calls[1..], c, mm);
    }
  }

  /** After c invalidates an mm, all of c's lookups for it miss until some CPU of c's
      socket stores for that mm again. */
  lemma MissesUntilRefilled(g: Config, s: Sys, c: nat, mm: u64, calls: seq<Call>, fingerprint: u64)
    requires Inv(g, s) && c < |s.l2| && ValidCalls(g, calls)
    requires NotRefilled(g, AfterInvalidate(g, s, c, mm), calls, c, mm)
    ensures Answer(g, Run(g, AfterInvalidate(g, s, c, mm), calls), c, fingerprint, mm) == None
  {
    var t := AfterInvalidate(g, s, c, mm);
    InvalidationIsExact(g, s, c, mm);
    InvalidateInv(g, s, c, mm);
    CleanRun(g, t, calls, c, mm);
    CleanMisses(g, Run(g, t, calls), c, fingerprint, mm);
  }
}
