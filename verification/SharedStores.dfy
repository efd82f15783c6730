/** Several L3 buckets, and several CPUs, over shared nodes. Eight L3 buckets fall into one
    L2 bucket, so stores to one of them cut the others off from it: a CPU then finds its own
    entries in L3, or somebody else's in their place. */
module SharedStores {
  import opened Words
  import opened Entries
  import opened Chains
  import opened RcuTier
  import opened SharedNode
  import opened SharedLists

  // --- one CPU stores pairwise different keys of one L2 bucket ---

  const L2_HEAD: nat := 0

  // One L2 bucket, and the L3 buckets behind it.
  function L3Head(e: Entry): nat {
    1 + e.fingerprint % L3_ENTRIES
  }

  function NoStores(): Shared {
    Shared([], seq(1 + L3_ENTRIES, _ => NIL), false)
  }

  function StoreAll(es: seq<Entry>): (s: Shared)
    ensures |s.heads| == 1 + L3_ENTRIES
  {
    if es == [] then NoStores()
    else
      var e := es[|es| - 1];
      StoreOn(StoreAll(es[..|es| - 1]), e, L2_HEAD, L3Head(e))
  }

  // The entries stored into L3 bucket h, newest first.
  function Newest(es: seq<Entry>, h: nat): Chain {
    if es == [] then []
    else
      var e, before := es[|es| - 1], Newest(es[..|es| - 1], h);
      if L3Head(e) == h then [e] + before else before
  }

  lemma {:induction false} NewestIn(es: seq<Entry>, h: nat)
    ensures forall x :: x in Newest(es, h) <==> x in es && L3Head(x) == h
  {
    if es != [] {
      var front := es[..|es| - 1];
      NewestIn(front, h);
      assert es == front + [es[|es| - 1]];
    }
  }

  lemma {:induction false} NewestUnique(es: seq<Entry>, h: nat)
    requires UniqueKeys(es)
    ensures UniqueKeys(Newest(es, h))
  {
    if es != [] {
      var front, e := es[..|es| - 1], es[|es| - 1];
      NewestUnique(front, h);
      NewestIn(front, h);
      forall x | x in front ensures !SameKey(e, x) && !SameKey(x, e) {
        var i :| 0 <= i < |front| && front[i] == x;
        assert es[i] == x;
      }
      NewFirst(e, Newest(front, h));
    }
  }

  lemma NewFirst(e: Entry, ch: Chain)
    requires UniqueKeys(ch) && forall x :: x in ch ==> !SameKey(e, x)
    ensures UniqueKeys([e] + ch)
  {
    var r := [e] + ch;
    forall i, j | 0 <= i < j < |r| ensures !SameKey(r[i], r[j]) {
      assert r[j] == ch[j - 1] && ch[j - 1] in ch;
      assert i > 0 ==> r[i] == ch[i - 1];
    }
  }

  // What the buckets hold after the stores es.
  ghost predicate Stored(s: Shared, es: seq<Entry>) {
    && Downward(s) && |s.heads| == 1 + L3_ENTRIES && !s.fault
    && (forall h :: 0 < h < |s.heads| ==> BucketOn(s, h) == Newest(es, h))
    && BucketOn(s, L2_HEAD) == if es == [] then [] else Newest(es, L3Head(es[|es| - 1]))
  }

  lemma KeyIsNew(s: Shared, es: seq<Entry>)
    requires es != [] && UniqueKeys(es) && Stored(s, es[..|es| - 1])
    ensures var e := es[|es| - 1];
            forall x :: x in BucketOn(s, L2_HEAD) || x in BucketOn(s, L3Head(e)) ==> !SameKey(x, e)
  {
    var front, e := es[..|es| - 1], es[|es| - 1];
    if front != [] { NewestIn(front, L3Head(front[|front| - 1])); }
    NewestIn(front, L3Head(e));
    forall x | x in front ensures !SameKey(x, e) {
      var i :| 0 <= i < |front| && front[i] == x;
      assert es[i] == x;
    }
  }

  lemma {:induction false} StoresLink(es: seq<Entry>)
    requires UniqueKeys(es)
    ensures Stored(StoreAll(es), es)
  {
    if es != [] {
      var front, e := es[..|es| - 1], es[|es| - 1];
      var s := StoreAll(front);
      StoresLink(front);
      KeyIsNew(s, es);
      StoreIsLink(s, e, L2_HEAD, L3Head(e));
      LinkBothTiers(s, e, L2_HEAD, L3Head(e));
      LinkNexts(s, e, L2_HEAD, L3Head(e));
    }
  }

  /** A CPU that has stored any number of different keys of one L2 bucket, and nothing else
      done, finds each unexpired one: in L2 if and only if its L3 bucket is the one of the
      last store, and otherwise by an L3 hit on its own entry. */
  lemma OwnEntryHitsL3(es: seq<Entry>, e: Entry, jiffies: u64)
    requires UniqueKeys(es) && e in es && TimeBefore(jiffies, e.expiry)
    requires forall x :: x in es ==> x.fingerprint % L2_ENTRIES == e.fingerprint % L2_ENTRIES
    ensures var s, last := StoreAll(es), es[|es| - 1];
            && FindLive(BucketOn(s, L3Head(e)), e.fingerprint, e.mm, jiffies) == Some(e)
            && FindLive(BucketOn(s, L2_HEAD), e.fingerprint, e.mm, jiffies)
               == if e.fingerprint % L3_ENTRIES == last.fingerprint % L3_ENTRIES then Some(e) else None
  {
    var last := es[|es| - 1];
    StoresLink(es);
    NewestIn(es, L3Head(e));
    NewestUnique(es, L3Head(e));
    FindLiveUnique(Newest(es, L3Head(e)), e, jiffies);
    if L3Head(e) != L3Head(last) {
      NewestIn(es, L3Head(last));
      FindLiveFirst(Newest(es, L3Head(last)), e.fingerprint, e.mm, jiffies);
    }
  }

  /** Such a run: two stores, and the first entry is an L3 hit for the CPU that stored it,
      alone on its socket or not. */
  lemma SecondStoreDropsFirst(a: Entry, b: Entry, jiffies: u64)
    requires a.fingerprint == 0 && b.fingerprint == L2_ENTRIES && TimeBefore(jiffies, a.expiry)
    ensures a.fingerprint % L2_ENTRIES == b.fingerprint % L2_ENTRIES
    ensures FindLive(BucketOn(StoreAll([a, b]), L2_HEAD), a.fingerprint, a.mm, jiffies) == None
    ensures FindLive(BucketOn(StoreAll([a, b]), L3Head(a)), a.fingerprint, a.mm, jiffies) == Some(a)
  {
    var es := [a, b];
    assert UniqueKeys(es) && es[0] == a && es[|es| - 1] == b;
    assert a.fingerprint % L3_ENTRIES == 0 && b.fingerprint % L3_ENTRIES == L2_ENTRIES;
    OwnEntryHitsL3(es, a, jiffies);
  }

  // --- two CPUs of one socket: heads 0 and 1 are their L2 buckets, 2 and 3 two L3 buckets ---

  const TWO_CPUS := Shared([], [NIL, NIL, NIL, NIL], false)

  lemma AfterTwo(a: Entry, b: Entry)
    requires a.fingerprint == 0 && b.fingerprint == L2_ENTRIES
    ensures StoreOn(StoreOn(TWO_CPUS, a, 0, 2), b, 0, 3)
            == Shared([Node(a, 0, NIL, NextOf(1)), Node(b, 0, NIL, HeadOf(3))], [1, NIL, 0, 1], false)
  {
    var s1 := StoreOn(TWO_CPUS, a, 0, 2);
    StoreIsLink(TWO_CPUS, a, 0, 2);
    assert s1 == Shared([Node(a, 0, NIL, HeadOf(2))], [0, NIL, 0, NIL], false);
    OneNode(s1, 0, 0);
    StoreIsLink(s1, b, 0, 3);
  }

  /** A CPU need not read what it wrote. CPU 0 stores a and then b of another L3 bucket;
      CPU 1 stores a2 for a's key. CPU 0's lookup of that key misses L2 and gets a2.
      And a, which CPU 1 meant to replace in L3, stands behind a2 in CPU 1's L2 bucket. */
  lemma ReadsAnother(a: Entry, b: Entry, a2: Entry, jiffies: u64)
    requires a.fingerprint == 0 && b.fingerprint == L2_ENTRIES && SameKey(a, a2) && TimeBefore(jiffies, a2.expiry)
    ensures var s := StoreOn(StoreOn(StoreOn(TWO_CPUS, a, 0, 2), b, 0, 3), a2, 1, 2);
            && FindLive(BucketOn(s, 0), a.fingerprint, a.mm, jiffies) == None
            && FindLive(BucketOn(s, 2), a.fingerprint, a.mm, jiffies) == Some(a2)
            && BucketOn(s, 1) == [a2, a]
  {
    var s2 := StoreOn(StoreOn(TWO_CPUS, a, 0, 2), b, 0, 3);
    AfterTwo(a, b);
    var m := AddHead(Made(s2, a2), 2, 1);
    assert m == Shared([Node(a, 0, NIL, NextOf(1)), Node(b, 0, NIL, HeadOf(3)), Node(a2, 0, NIL, HeadOf(1))],
                       [1, 2, 0, 1], false);
    var u := Replace(m, 2, a2);
    assert u == m.(mem := m.mem[0 := Node(a, 0, NIL, Poison)]);
    var s3 := AddHead(u, 2, 2);
    OneNode(s3, 0, 1);
    assert Walk(s3.mem, 2) == [2] + Walk(s3.mem, 0) == [2, 0];
    EntriesIs(s3.mem, [2, 0]);
    assert BucketOn(s3, 1) == [a2, a] && BucketOn(s3, 2) == [a2, a];
  }

  /** CPU 1 stores a, CPU 0 invalidates its mm: the L3 bucket is emptied, so CPU 0 misses,
      and CPU 1 still finds a in its own L2 bucket. */
  lemma OtherCpuInvalidates(a: Entry)
    ensures var s := StoreOn(TWO_CPUS, a, 1, 2);
            var t := InvalidateOn(s, a.mm, 0, 2);
            && BucketOn(s, 2) == [a] && BucketOn(t, 2) == [] && BucketOn(t, 0) == [] && BucketOn(t, 1) == [a]
  {
    var s := StoreOn(TWO_CPUS, a, 1, 2);
    StoreIsLink(TWO_CPUS, a, 1, 2);
    assert s == Shared([Node(a, 0, NIL, HeadOf(2))], [NIL, 0, 0, NIL], false);
    OneNode(s, 1, 0);
    OneNode(s, 2, 0);
    assert Nodes(s, 2)[0] == 0;
    InvalidatePurgesL3(s, a.mm, 0, 2);
    assert Purge([a], a.mm) == [];
    var t := InvalidateOn(s, a.mm, 0, 2);
    assert t == PurgeFrom(s, 0, a.mm) == Del(s, 0);
    OneNode(t, 1, 0);
  }

  /** Promotion moves the one node out of the L2 bucket of the CPU that stored it as well:
      that bucket afterwards goes on where the promoting CPU's does. The L3 bucket loses it. */
  lemma PromotionJoinsBuckets(s: Shared, x: nat, owner: nat, h2: nat, h3: nat)
    requires Downward(s) && x < |s.mem| && owner < |s.heads| && h2 < |s.heads| && h3 < |s.heads|
    requires owner != h2 && owner != h3 && h2 != h3
    requires s.heads[owner] == x == s.heads[h3] && s.mem[x].pprev == HeadOf(h3) && s.heads[h2] < x
    ensures var t := PromoteOn(s, x, h2);
            && BucketOn(t, h2) == [s.mem[x].e] + BucketOn(s, h2)
            && BucketOn(t, owner) == BucketOn(t, h2)
            && BucketOn(s, h3) == [s.mem[x].e] + BucketOn(t, h3)
  {
    var t, p := PromoteOn(s, x, h2), s.heads[h2];
    DelAtHead(s, x, h3);
    WalkFalls(s.mem, p);
    SameBucketOn(s.mem, t.mem, p);
    assert Walk(t.mem, x) == [x] + Walk(t.mem, p);
    assert Walk(t.mem, x)[1..] == Walk(t.mem, p);
    LosesFirst(s, x, h2, h3);
  }

  lemma LosesFirst(s: Shared, x: nat, h2: nat, h3: nat)
    requires Downward(s) && x < |s.mem| && h2 < |s.heads| && h3 < |s.heads| && h2 != h3
    requires s.heads[h3] == x && s.mem[x].pprev == HeadOf(h3) && s.heads[h2] < x
    ensures BucketOn(s, h3) == [s.mem[x].e] + BucketOn(PromoteOn(s, x, h2), h3)
  {
    var q := s.mem[x].next;
    DelAtHead(s, x, h3);
    WalkFalls(s.mem, q);
    SameBucketOn(s.mem, PromoteOn(s, x, h2).mem, q);
    assert Walk(s.mem, x)[1..] == Walk(s.mem, q);
  }

  /** Such a run: CPU 0 stores y, CPU 1 stores a, CPU 0 looks a up. The promotion leaves CPU 1
      with y in its L2 bucket, which it never stored or looked up. */
  lemma PromotionLendsAnEntry(y: Entry, a: Entry)
    requires y.fingerprint == L2_ENTRIES && a.fingerprint == 0
    ensures var s := StoreOn(StoreOn(TWO_CPUS, y, 0, 3), a, 1, 2);
            && BucketOn(s, 0) == [y] && BucketOn(s, 1) == [a] && BucketOn(s, 2) == [a]
            && BucketOn(PromoteOn(s, 1, 0), 0) == [a, y] && BucketOn(PromoteOn(s, 1, 0), 1) == [a, y]
            && BucketOn(PromoteOn(s, 1, 0), 2) == []
  {
    var s1 := StoreOn(TWO_CPUS, y, 0, 3);
    StoreIsLink(TWO_CPUS, y, 0, 3);
    assert s1 == Shared([Node(y, 0, NIL, HeadOf(3))], [0, NIL, NIL, 0], false);
    var s := StoreOn(s1, a, 1, 2);
    StoreIsLink(s1, a, 1, 2);
    assert s == Shared([Node(y, 0, NIL, HeadOf(3)), Node(a, 0, NIL, HeadOf(2))], [0, 1, 1, 0], false);
    OneNode(s, 0, 0);
    OneNode(s, 1, 1);
    OneNode(s, 2, 1);
    PromotionJoinsBuckets(s, 1, 1, 0, 2);
  }
}
