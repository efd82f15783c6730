/** How far the calls of the two-tier cache reach: every CPU's answer for every key after a
    store or a lookup, by node numbers; and what the rest of a call leaves alone. */
module Reach {
  import opened Words
  import opened Entries
  import opened Chains
  import opened Tables
  import opened System
  import opened SystemInvariant
  import opened SystemTheorems

  // --- stores ---

  lemma StoreFind(t: Table, e: Entry, fingerprint: u64, mm: u64, jiffies: u64)
    requires 0 < |t| && TimeBefore(jiffies, e.expiry)
    ensures Find(Store(t, e), fingerprint, mm, jiffies) ==
            if Matches(e, fingerprint, mm) then Some(e) else Find(t, fingerprint, mm, jiffies)
  {
    var ch := ChainFor(t, e.fingerprint);
    var r := RemoveFirst(ch, e.fingerprint, e.mm);
    assert StoreChain(ch, e)[0] == e && StoreChain(ch, e)[1..] == r;
    if !Matches(e, fingerprint, mm) {
      RemoveFirstOtherKey(ch, e.fingerprint, e.mm, fingerprint, mm, jiffies);
    }
  }

  /** The reach of store_result: every CPU's answer for every key after an accepted store
      by c. Other keys keep their answers. For its key, c finds the new entry; another CPU
      finds what its own L2 holds, then, on the same socket, the new entry, and elsewhere
      what it found before. */
  lemma StoreReach(g: Config, s: Sys, c: nat, fingerprint: u64, data: Option<seq<u8>>, mm: u64, a: Allocator,
                   d: nat, f: u64, m: u64)
    requires Shape(g, s) && c < |s.l2| && d < |s.l2| && (data.Some? ==> |data.value| < 0x1_0000_0000)
    requires Prepare(g, s, c, fingerprint, data, mm, a).Accepted?
    ensures Answer(g, AfterStore(g, s, c, fingerprint, data, mm, a), d, f, m) ==
            if f != fingerprint || m != mm then Answer(g, s, d, f, m)
            else if d == c then Some(Prepare(g, s, c, fingerprint, data, mm, a).e)
            else if InL2(g, s, d, f, m).Some? then InL2(g, s, d, f, m)
            else if SocketOf(g, d) == SocketOf(g, c) then Some(Prepare(g, s, c, fingerprint, data, mm, a).e)
            else Answer(g, s, d, f, m)
  {
    var e := Prepare(g, s, c, fingerprint, data, mm, a).e;
    AcceptsIffFresh(g.boot, g.ttl, e.born, s.now);
    StoreFind(s.l2[c], e, f, m, Jiffies(g, s));
    StoreFind(s.l3[SocketOf(g, c)], e, f, m, Jiffies(g, s));
  }

  // --- which CPUs share an L3 table, from their node numbers ---

  // No table exists for the node of CPU c.
  predicate Stray(g: Config, c: nat)
    requires c < |g.nodeOf|
  {
    g.nodeOf[c] >= g.sockets
  }

  // The nodes of c and d are the same, where a node without a table counts as node 0.
  predicate Neighbours(g: Config, c: nat, d: nat)
    requires c < |g.nodeOf| && d < |g.nodeOf|
  {
    || g.nodeOf[c] == g.nodeOf[d]
    || (Stray(g, c) && (Stray(g, d) || g.nodeOf[d] == 0))
    || (Stray(g, d) && g.nodeOf[c] == 0)
  }

  /** Two CPUs share an L3 table and external slots if and only if they are neighbours. */
  lemma NeighboursShare(g: Config, c: nat, d: nat)
    requires ValidConfig(g) && c < |g.nodeOf| && d < |g.nodeOf|
    ensures SocketOf(g, c) == SocketOf(g, d) <==> Neighbours(g, c, d)
  {
  }

  /** In every run what a CPU is given was stored by a CPU of its own node; node 0 also
      takes the CPUs of nodes without a table. */
  lemma HitStaysOnNode(g: Config, calls: seq<Call>, d: nat, fingerprint: u64, mm: u64)
    requires ValidConfig(g) && ValidCalls(g, calls) && d < |g.nodeOf|
    requires Answer(g, Run(g, Init(g), calls), d, fingerprint, mm).Some?
    ensures var e := Answer(g, Run(g, Init(g), calls), d, fingerprint, mm).value;
            && e.owner < |g.nodeOf|
            && Neighbours(g, e.owner, d)
            && (!Stray(g, d) && g.nodeOf[d] != 0 ==> g.nodeOf[e.owner] == g.nodeOf[d])
  {
    var s := Run(g, Init(g), calls);
    InitInv(g);
    RunInv(g, Init(g), calls);
    AnswerHas(g, s, d, fingerprint, mm);
    assert L2OK(g, s, d) && L3OK(g, s, SocketOf(g, d));
    NeighboursShare(g, Answer(g, s, d, fingerprint, mm).value.owner, d);
  }

  /** Conversely, what one CPU has just stored its neighbours find, unless they have the
      key in their own L2; no other CPU's answer changes. */
  lemma NeighboursFind(g: Config, s: Sys, c: nat, fingerprint: u64, data: Option<seq<u8>>, mm: u64, a: Allocator,
                       d: nat)
    requires Shape(g, s) && c < |s.l2| && d < |s.l2| && d != c && (data.Some? ==> |data.value| < 0x1_0000_0000)
    requires Prepare(g, s, c, fingerprint, data, mm, a).Accepted? && InL2(g, s, d, fingerprint, mm).None?
    ensures Answer(g, AfterStore(g, s, c, fingerprint, data, mm, a), d, fingerprint, mm) ==
            if Neighbours(g, c, d) then Some(Prepare(g, s, c, fingerprint, data, mm, a).e)
            else Answer(g, s, d, fingerprint, mm)
  {
    StoreReach(g, s, c, fingerprint, data, mm, a, d, fingerprint, mm);
    NeighboursShare(g, c, d);
  }

  lemma NothingAtFirst(g: Config, d: nat, fingerprint: u64, mm: u64)
    requires ValidConfig(g) && d < |g.nodeOf|
    ensures InL2(g, Init(g), d, fingerprint, mm) == None && Answer(g, Init(g), d, fingerprint, mm) == None
  {
  }

  /** Runs of one store by CPU 0: CPU 1 finds it on the same node, on a node without a table
      as long as CPU 0 is on node 0, and not on another node. */
  lemma FirstStoreSeen(g: Config, fingerprint: u64)
    requires g.sockets == 2 && ValidConfig(g) && |g.nodeOf| == 2 && g.nodeOf[0] == 0
    ensures var run := [StoreResult(0, fingerprint, Some([1]), 1, Allocator(true, 0))];
            && ValidCalls(g, run)
            && (g.nodeOf[1] == 0 ==> Answer(g, Run(g, Init(g), run), 1, fingerprint, 1).Some?)
            && (g.nodeOf[1] == 1 ==> Answer(g, Run(g, Init(g), run), 1, fingerprint, 1).None?)
            && (g.nodeOf[1] == 2 ==> Answer(g, Run(g, Init(g), run), 1, fingerprint, 1).Some?)
  {
    var store := StoreResult(0, fingerprint, Some([1]), 1, Allocator(true, 0));
    assert ValidCall(g, [store][0]) && [store][1..] == [];
    assert Run(g, Init(g), [store]) == Run(g, Step(g, Init(g), store), []);
    NothingAtFirst(g, 1, fingerprint, 1);
    NeighboursFind(g, Init(g), 0, fingerprint, Some([1]), 1, Allocator(true, 0), 1);
  }

  // --- lookups ---

  /** The reach of lookup_unified: only an L3 hit changes any answer, and only another CPU's
      of the same socket, for that key, that had it not in its own L2: it misses now. */
  lemma LookupReach(g: Config, s: Sys, c: nat, fingerprint: u64, mm: u64, d: nat, f: u64, m: u64)
    requires Inv(g, s) && c < |s.l2| && d < |s.l2|
    ensures Answer(g, AfterLookup(g, s, c, fingerprint, mm), d, f, m) ==
            if InL2(g, s, c, fingerprint, mm).None? && d != c && SocketOf(g, d) == SocketOf(g, c)
               && f == fingerprint && m == mm && InL2(g, s, d, f, m).None?
            then None
            else Answer(g, s, d, f, m)
  {
    if InL2(g, s, c, fingerprint, mm).None? && InL3(g, s, c, fingerprint, mm).Some? {
      PromotionIsInvisible(g, s, c, fingerprint, mm, d, f, m);
    }
  }

  // --- buckets and the clock, over runs ---

  /** In every run each entry is in the bucket of its fingerprint modulo the number of
      buckets, in both tiers. */
  lemma BucketsByFingerprint(g: Config, calls: seq<Call>, c: nat, k: nat)
    requires ValidConfig(g) && ValidCalls(g, calls) && c < |g.nodeOf| && k < g.sockets
    ensures var s := Run(g, Init(g), calls);
            && (forall b, e :: 0 <= b < L2_ENTRIES && e in s.l2[c][b] ==> e.fingerprint % L2_ENTRIES == b)
            && (forall b, e :: 0 <= b < L3_ENTRIES && e in s.l3[k][b] ==> e.fingerprint % L3_ENTRIES == b)
  {
    InitInv(g);
    RunInv(g, Init(g), calls);
    assert L2OK(g, Run(g, Init(g), calls), c) && L3OK(g, Run(g, Init(g), calls), k);
  }

  function TicksOf(calls: seq<Call>): nat {
    if calls == [] then 0 else (if calls[0].Ticks? then calls[0].n else 0) + TicksOf(calls[1..])
  }

  /** From boot on the code reads the boot value plus the timer ticks, as a 64-bit word. */
  lemma JiffiesOfRun(g: Config, calls: seq<Call>)
    requires ValidConfig(g) && ValidCalls(g, calls)
    ensures Jiffies(g, Run(g, Init(g), calls)) == Wrap(g.boot + TicksOf(calls))
  {
    ClockOfRun(g, Init(g), calls);
  }

  /** No call but the timer moves the clock. */
  lemma {:induction false} ClockOfRun(g: Config, s: Sys, calls: seq<Call>)
    requires Shape(g, s) && ValidCalls(g, calls)
    ensures Run(g, s, calls).now == s.now + TicksOf(calls)
    decreases |calls|
  {
    if calls != [] {
      assert ValidCall(g, calls[0]);
      ClockOfRun(g, Step(g, s, calls[0]), calls[1..]);
    }
  }
}
