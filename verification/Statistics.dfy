/** The counters: what show_stats prints, and what the printed numbers mean. All
    sums are 64-bit words. */
module Statistics {
  import opened Words
  import opened Tables
  import opened System

  // The five counters of a CPU.
  datatype Kind = L2Hits | L3Hits | Misses | Invalidations | CyclesSaved

  function Value(n: Counters, k: Kind): u64 {
    match k
    case L2Hits => n.l2Hits
    case L3Hits => n.l3Hits
    case Misses => n.misses
    case Invalidations => n.invalidations
    case CyclesSaved => n.cyclesSaved
  }

  // --- the aggregation loop ---

  // A counter summed over CPUs, without wrapping.
  function Sum(cs: seq<Counters>, k: Kind): nat {
    if cs == [] then 0 else Sum(cs[..|cs| - 1], k) + Value(cs[|cs| - 1], k)
  }

  lemma AddNext(cs: seq<Counters>, i: nat, k: Kind, total: u64)
    requires i < |cs| && total == Wrap(Sum(cs[..i], k))
    ensures Wrap(total + Value(cs[i], k)) == Wrap(Sum(cs[..i + 1], k))
  {
    assert cs[..i + 1][..i] == cs[..i];
    WrapAdd(Sum(cs[..i], k), Value(cs[i], k));
  }

  function Totals(cs: seq<Counters>): Counters {
    Counters(Wrap(Sum(cs, L2Hits)), Wrap(Sum(cs, L3Hits)), Wrap(Sum(cs, Misses)),
             Wrap(Sum(cs, Invalidations)), Wrap(Sum(cs, CyclesSaved)))
  }

  lemma TotalsNext(cs: seq<Counters>, i: nat)
    requires i < |cs|
    ensures var t, n := Totals(cs[..i]), cs[i];
            Totals(cs[..i + 1]) == Counters(Wrap(t.l2Hits + n.l2Hits), Wrap(t.l3Hits + n.l3Hits),
              Wrap(t.misses + n.misses), Wrap(t.invalidations + n.invalidations), Wrap(t.cyclesSaved + n.cyclesSaved))
  {
    var t := Totals(cs[..i]);
    AddNext(cs, i, L2Hits, t.l2Hits);
    AddNext(cs, i, L3Hits, t.l3Hits);
    AddNext(cs, i, Misses, t.misses);
    AddNext(cs, i, Invalidations, t.invalidations);
    AddNext(cs, i, CyclesSaved, t.cyclesSaved);
  }

  lemma WrapAdd(x: int, y: int)
    ensures Wrap(Wrap(x) + y) == Wrap(x + y)
  {
    ModCongruent(x);
    ModShift(Wrap(x) + y, x / WORD);
  }

  /** The totals are the sums over all CPUs modulo 2^64; the hit rate is printed when
      the total number of lookups, as a word, is not zero. */
  method ShowStats(caches: array<Counters>) returns (totals: Counters, hitRate: Option<u32>)
    ensures totals == Totals(caches[..])
    ensures hitRate == PrintedRate(totals.l2Hits, totals.l3Hits, totals.misses)
  {
    var l2: u64, l3: u64, misses: u64, invalidations: u64, saved: u64 := 0, 0, 0, 0, 0;
    for cpu := 0 to caches.Length
      invariant Counters(l2, l3, misses, invalidations, saved) == Totals(caches[..][..cpu])
    {
      var cache := caches[cpu];
      TotalsNext(caches[..], cpu);
      l2 := Wrap(l2 + cache.l2Hits);
      l3 := Wrap(l3 + cache.l3Hits);
      misses := Wrap(misses + cache.misses);
      invalidations := Wrap(invalidations + cache.invalidations);
      saved := Wrap(saved + cache.cyclesSaved);
    }
    assert caches[..][..caches.Length] == caches[..];
    totals := Counters(l2, l3, misses, invalidations, saved);
    hitRate := None;
    if Wrap(l2 + l3 + misses) > 0 {
      var total := Wrap(l2 + l3 + misses);
      hitRate := Some((Wrap(Wrap(l2 + l3) * 100) / total) % 0x1_0000_0000);
    }
  }

  // --- the hit rate ---

  function PrintedRate(l2: u64, l3: u64, misses: u64): Option<u32> {
    var total := Wrap(l2 + l3 + misses);
    if total > 0 then Some((Wrap(Wrap(l2 + l3) * 100) / total) % 0x1_0000_0000) else None
  }

  lemma MulMono(p: nat, q: nat, d: nat)
    requires p <= q
    ensures p * d <= q * d
  {
  }

  lemma Divide(a: nat, d: nat) returns (q: nat)
    requires 0 < d
    ensures q == a / d && q * d <= a < (q + 1) * d
  {
    q := a / d;
    assert a == q * d + a % d;
  }

  // p and x are the quotients of w and scaled by total.
  lemma ComparePercentages(p: nat, x: nat, w: nat, scaled: nat, total: nat)
    requires 0 < total < WORD && scaled <= 100 * total
    requires p * total <= w < (p + 1) * total && x * total <= scaled < (x + 1) * total
    requires scaled < WORD ==> w == scaled
    requires scaled >= WORD ==> w + WORD <= scaled
    ensures x <= 100
    ensures scaled < WORD ==> p == x
    ensures scaled >= WORD ==> p < x
  {
    if x > 100 { MulMono(101, x, total); }
    if x + 1 <= p { MulMono(x + 1, p, total); }
    if p + 1 <= x { MulMono(p + 1, x, total); }
  }

  lemma WrapLoses(x: nat)
    ensures x < WORD ==> Wrap(x) == x
    ensures x >= WORD ==> Wrap(x) + WORD <= x
  {
    ModCongruent(x);
  }

  /** When the three totals add up without wrapping, the printed rate is the exact floor
      percentage, and at most 100, if and only if hits * 100 fits in 64 bits. */
  lemma RateIsExact(l2: u64, l3: u64, misses: u64)
    requires 0 < l2 + l3 + misses < WORD
    ensures PrintedRate(l2, l3, misses).Some?
    ensures PrintedRate(l2, l3, misses).value == (l2 + l3) * 100 / (l2 + l3 + misses)
            <==> (l2 + l3) * 100 < WORD
    ensures (l2 + l3) * 100 / (l2 + l3 + misses) <= 100
  {
    var hits, total := l2 + l3, l2 + l3 + misses;
    WrapLoses(hits);
    WrapLoses(total);
    RateCore(hits * 100, total);
  }

  /** With 2^63 hits and no miss the printed rate is 0 instead of 100. */
  lemma RateOverflows()
    ensures PrintedRate(HALF, 0, 0) == Some(0)
    ensures (HALF + 0) * 100 / (HALF + 0 + 0) == 100
  {
  }

  lemma RateCore(scaled: nat, total: nat)
    requires 0 < total < WORD && scaled <= 100 * total
    ensures (Wrap(scaled) / total) % 0x1_0000_0000 == scaled / total <==> scaled < WORD
    ensures scaled / total <= 100
  {
    WrapLoses(scaled);
    var printed := Divide(Wrap(scaled), total);
    var exact := Divide(scaled, total);
    ComparePercentages(printed, exact, Wrap(scaled), scaled, total);
    PrintedIs(printed, exact, scaled);
  }

  // The u32 the percentage is kept in never makes up for the lost high bits.
  lemma PrintedIs(printed: nat, exact: nat, scaled: nat)
    requires exact <= 100 && (scaled < WORD ==> printed == exact) && (scaled >= WORD ==> printed < exact)
    ensures printed % 0x1_0000_0000 == exact <==> scaled < WORD
  {
  }

  // --- what each counter counts ---

  // How much a call adds to a counter of its CPU.
  function Amount(g: Config, s: Sys, call: Call, k: Kind): nat
    requires Shape(g, s) && ValidCall(g, call)
  {
    match call
    case Lookup(c, fingerprint, mm) => if Outcome(g, s, c, fingerprint, mm) == k then 1 else 0
    case InvalidateRange(c, mm) => if k == Invalidations then Removed(s.l2[c], mm) else 0
    case _ => 0
  }

  function Outcome(g: Config, s: Sys, c: nat, fingerprint: u64, mm: u64): Kind
    requires Shape(g, s) && c < |s.l2|
  {
    match Answer(g, s, c, fingerprint, mm)
    case None => Misses
    case Some(_) => if InL2(g, s, c, fingerprint, mm).Some? then L2Hits else L3Hits
  }

  predicate By(call: Call, c: nat) {
    !call.Ticks? && call.cpu == c
  }

  // The same over a run, for all CPUs or for one.
  function Count(g: Config, s: Sys, calls: seq<Call>, k: Kind): nat
    requires Shape(g, s) && ValidCalls(g, calls)
    decreases |calls|
  {
    if calls == [] then 0
    else
      assert ValidCall(g, calls[0]);
      Amount(g, s, calls[0], k) + Count(g, Step(g, s, calls[0]), calls[1..], k)
  }

  function CountBy(g: Config, s: Sys, calls: seq<Call>, k: Kind, c: nat): nat
    requires Shape(g, s) && ValidCalls(g, calls)
    decreases |calls|
  {
    if calls == [] then 0
    else
      assert ValidCall(g, calls[0]);
      (if By(calls[0], c) then Amount(g, s, calls[0], k) else 0) + CountBy(g, Step(g, s, calls[0]), calls[1..], k, c)
  }

  function Lookups(calls: seq<Call>): nat {
    if calls == [] then 0 else (if calls[0].Lookup? then 1 else 0) + Lookups(calls[1..])
  }

  // `lost` counts the wrap-arounds.
  lemma CounterStep(g: Config, s: Sys, call: Call, k: Kind, c: nat) returns (lost: int)
    requires Shape(g, s) && ValidCall(g, call) && c < |s.counters|
    ensures Value(Step(g, s, call).counters[c], k)
            == Value(s.counters[c], k) + (if By(call, c) then Amount(g, s, call, k) else 0) - WORD * lost
  {
    lost := 0;
    if By(call, c) {
      var x := Value(s.counters[c], k) + Amount(g, s, call, k);
      CounterWraps(g, s, call, k);
      lost := x / WORD;
      ModCongruent(x);
    }
  }

  lemma CounterWraps(g: Config, s: Sys, call: Call, k: Kind)
    requires Shape(g, s) && ValidCall(g, call) && !call.Ticks?
    ensures Value(Step(g, s, call).counters[call.cpu], k)
            == Wrap(Value(s.counters[call.cpu], k) + Amount(g, s, call, k))
  {
    WrapLoses(Value(s.counters[call.cpu], k));
  }

  lemma {:induction false} CounterLost(g: Config, s: Sys, calls: seq<Call>, k: Kind, c: nat) returns (lost: int)
    requires Shape(g, s) && ValidCalls(g, calls) && c < |s.counters|
    ensures Value(Run(g, s, calls).counters[c], k)
            == Value(s.counters[c], k) + CountBy(g, s, calls, k, c) - WORD * lost
    decreases |calls|
  {
    lost := 0;
    if calls != [] {
      assert ValidCall(g, calls[0]);
      var once := CounterStep(g, s, calls[0], k, c);
      lost := CounterLost(g, Step(g, s, calls[0]), calls[1..], k, c);
      lost := once + lost;
    }
  }

  /** Over any run each counter of each CPU grows by exactly what it is named for: that
      CPU's lookups answered from its L2, from its socket's L3, or not at all, and the
      entries its invalidations removed from its L2; cycles_saved stays put. */
  lemma CounterRun(g: Config, s: Sys, calls: seq<Call>, k: Kind, c: nat)
    requires Shape(g, s) && ValidCalls(g, calls) && c < |s.counters|
    ensures Value(Run(g, s, calls).counters[c], k) == Wrap(Value(s.counters[c], k) + CountBy(g, s, calls, k, c))
  {
    var lost := CounterLost(g, s, calls, k, c);
    ModShift(Value(s.counters[c], k) + CountBy(g, s, calls, k, c), -lost);
    WrapLoses(Value(Run(g, s, calls).counters[c], k));
  }

  lemma {:induction false} SumUpdate(cs: seq<Counters>, c: nat, n: Counters, k: Kind)
    requires c < |cs|
    ensures Sum(cs[c := n], k) == Sum(cs, k) - Value(cs[c], k) + Value(n, k)
  {
    var last := |cs| - 1;
    if c == last {
      assert cs[c := n][..last] == cs[..last];
    } else {
      SumUpdate(cs[..last], c, n, k);
      assert cs[c := n][..last] == cs[..last][c := n];
    }
  }

  lemma SumStep(g: Config, s: Sys, call: Call, k: Kind) returns (lost: int)
    requires Shape(g, s) && ValidCall(g, call)
    ensures Sum(Step(g, s, call).counters, k) == Sum(s.counters, k) + Amount(g, s, call, k) - WORD * lost
  {
    lost := 0;
    if !call.Ticks? {
      lost := CounterStep(g, s, call, k, call.cpu);
      OneCpu(g, s, call);
      SumUpdate(s.counters, call.cpu, Step(g, s, call).counters[call.cpu], k);
    }
  }

  lemma OneCpu(g: Config, s: Sys, call: Call)
    requires Shape(g, s) && ValidCall(g, call) && !call.Ticks?
    ensures var cs := Step(g, s, call).counters; cs == s.counters[call.cpu := cs[call.cpu]]
  {
  }

  lemma {:induction false} SumRun(g: Config, s: Sys, calls: seq<Call>, k: Kind) returns (lost: int)
    requires Shape(g, s) && ValidCalls(g, calls)
    ensures Sum(Run(g, s, calls).counters, k) == Sum(s.counters, k) + Count(g, s, calls, k) - WORD * lost
    decreases |calls|
  {
    lost := 0;
    if calls != [] {
      assert ValidCall(g, calls[0]);
      var once := SumStep(g, s, calls[0], k);
      lost := SumRun(g, Step(g, s, calls[0]), calls[1..], k);
      lost := once + lost;
    }
  }

  lemma {:induction false} ZeroSum(n: nat, k: Kind)
    ensures Sum(seq(n, _ => ZERO_COUNTERS), k) == 0
  {
    if n > 0 {
      ZeroSum(n - 1, k);
      assert seq(n, _ => ZERO_COUNTERS)[..n - 1] == seq(n - 1, _ => ZERO_COUNTERS);
    }
  }

  /** Every lookup ends in exactly one of the three outcomes. */
  lemma {:induction false} EveryLookupCounted(g: Config, s: Sys, calls: seq<Call>)
    requires Shape(g, s) && ValidCalls(g, calls)
    ensures Count(g, s, calls, L2Hits) + Count(g, s, calls, L3Hits) + Count(g, s, calls, Misses) == Lookups(calls)
    decreases |calls|
  {
    if calls != [] {
      assert ValidCall(g, calls[0]);
      EveryLookupCounted(g, Step(g, s, calls[0]), calls[1..]);
    }
  }

  /** The totals show_stats computes count, modulo 2^64, the outcomes of all lookups made
      since the start and the entries invalidations have removed. */
  lemma TotalsOfRun(g: Config, calls: seq<Call>)
    requires ValidConfig(g) && ValidCalls(g, calls)
    ensures forall k :: Value(Totals(Run(g, Init(g), calls).counters), k) == Wrap(Count(g, Init(g), calls, k))
  {
    forall k ensures Value(Totals(Run(g, Init(g), calls).counters), k) == Wrap(Count(g, Init(g), calls, k)) {
      TotalOfRun(g, calls, k);
    }
  }

  lemma TotalOfRun(g: Config, calls: seq<Call>, k: Kind)
    requires ValidConfig(g) && ValidCalls(g, calls)
    ensures Wrap(Sum(Run(g, Init(g), calls).counters, k)) == Wrap(Count(g, Init(g), calls, k))
  {
    var lost := SumRun(g, Init(g), calls, k);
    ZeroSum(|g.nodeOf|, k);
    ModShift(Count(g, Init(g), calls, k), -lost);
  }

  /** In every run of fewer than 2^64 lookups a rate is printed as soon as there was one,
      and it is the exact floor percentage of lookups answered from L2 or L3, if and only
      if their number times 100 fits in 64 bits. */
  lemma RateOfRun(g: Config, calls: seq<Call>)
    requires ValidConfig(g) && ValidCalls(g, calls) && Lookups(calls) < WORD
    ensures var t := Totals(Run(g, Init(g), calls).counters);
            var hits := Count(g, Init(g), calls, L2Hits) + Count(g, Init(g), calls, L3Hits);
            var rate := PrintedRate(t.l2Hits, t.l3Hits, t.misses);
            && (rate.Some? <==> Lookups(calls) > 0)
            && (rate.Some? ==> (rate.value == hits * 100 / Lookups(calls) <==> hits * 100 < WORD))
  {
    TotalsOfRun(g, calls);
    EveryLookupCounted(g, Init(g), calls);
    var t := Totals(Run(g, Init(g), calls).counters);
    assert t.l2Hits == Value(t, L2Hits) && t.l3Hits == Value(t, L3Hits) && t.misses == Value(t, Misses);
    WrapLoses(Count(g, Init(g), calls, L2Hits));
    WrapLoses(Count(g, Init(g), calls, L3Hits));
    WrapLoses(Count(g, Init(g), calls, Misses));
    if Lookups(calls) > 0 {
      RateIsExact(t.l2Hits, t.l3Hits, t.misses);
    } else {
      WrapLoses(0);
    }
  }
}
