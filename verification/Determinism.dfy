/** The learning automaton that decides which code may be cached. */
module Determinism {
  import opened Words

  const SAMPLES: nat := 100

  datatype VmaState = Unverified | Verified | Rejected

  // The fields of struct vma_metadata that the automaton uses.
  datatype Record = Record(state: VmaState, executionCount: u32, history: seq<u64>, firstResult: u64)

  // A zero-filled record.
  const FRESH := Record(Unverified, 0, [0, 0, 0, 0], 0)

  // The record after one more result.
  function Learn(m: Record, result: u64): Record
    requires |m.history| == 4
  {
    if m.state != Unverified then m
    else if m.executionCount > 0 && m.firstResult != result then m.(state := Rejected)
    else
      var n := (m.executionCount + 1) % 0x1_0000_0000;
      Record(if n >= SAMPLES then Verified else Unverified, n,
             m.history[m.executionCount % 4 := result],
             if m.executionCount == 0 then result else m.firstResult)
  }

  predicate Trusts(m: Record, result: u64) {
    match m.state
    case Unverified => m.executionCount == 0 || m.firstResult == result
    case Verified => true
    case Rejected => false
  }

  class VmaMetadata {
    var state: VmaState
    var executionCount: u32
    var resultHistory: array<u64>
    var firstResult: u64

    constructor ()
      ensures fresh(resultHistory) && resultHistory.Length == 4
      ensures View() == FRESH
    {
      state, executionCount, firstResult := Unverified, 0, 0;
      resultHistory := new u64[4](_ => 0);
      new;
      assert resultHistory[..] == [0, 0, 0, 0];
    }

    function View(): Record
      reads this, resultHistory
    {
      Record(state, executionCount, resultHistory[..], firstResult)
    }
  }

  method VerifyDeterministic(meta: VmaMetadata?, currentResult: u64) returns (ok: bool)
    requires meta != null ==> meta.resultHistory.Length == 4
    modifies meta, if meta == null then {} else {meta.resultHistory}
    ensures meta == null ==> !ok
    ensures meta != null ==> ok == Trusts(old(meta.View()), currentResult)
    ensures meta != null ==> meta.resultHistory == old(meta.resultHistory)
    ensures meta != null ==> meta.View() == Learn(old(meta.View()), currentResult)
  {
    if meta == null {
      return false;
    }
    match meta.state {
      case Unverified =>
        if meta.executionCount == 0 {
          meta.firstResult := currentResult;
        } else if meta.firstResult != currentResult {
          meta.state := Rejected;
          return false;
        }
        meta.resultHistory[meta.executionCount % 4] := currentResult;
        meta.executionCount := (meta.executionCount + 1) % 0x1_0000_0000;
        if meta.executionCount >= SAMPLES {
          meta.state := Verified;
        }
        return true;
      case Verified =>
        return true;
      case Rejected =>
        return false;
    }
  }

  // --- whole learning runs ---

  function LearnAll(results: seq<u64>): (m: Record)
    ensures |m.history| == 4 && m.executionCount <= SAMPLES
  {
    if results == [] then FRESH
    else Learn(LearnAll(results[..|results| - 1]), results[|results| - 1])
  }

  // The first n results exist and are all equal.
  predicate Constant(results: seq<u64>, n: nat) {
    n <= |results| && forall i :: 0 <= i < n ==> results[i] == results[0]
  }

  // Some result among the first 100 differs from the first.
  predicate Mismatch(results: seq<u64>) {
    exists i :: 0 <= i < |results| && i < SAMPLES && results[i] != results[0]
  }

  // How many results the automaton has accepted.
  function Accepted(results: seq<u64>): nat {
    if results == [] then 0
    else
      var n := Accepted(results[..|results| - 1]);
      if n == |results| - 1 && n < SAMPLES && results[n] == results[0] then n + 1 else n
  }

  lemma {:induction false} AcceptedPrefix(results: seq<u64>)
    ensures Accepted(results) <= |results| && Accepted(results) <= SAMPLES
    ensures Constant(results, Accepted(results))
    ensures Accepted(results) < |results| && Accepted(results) < SAMPLES ==>
              results[Accepted(results)] != results[0]
  {
    if results != [] { AcceptedPrefix(results[..|results| - 1]); }
  }

  // The latest of the first n acceptances whose number is k modulo 4.
  function Latest(n: nat, k: nat): (i: nat)
    requires k < 4 && k < n
    ensures i < n && i % 4 == k && forall j :: i < j < n ==> j % 4 != k
  {
    if (n - 1) % 4 == k then n - 1 else Latest(n - 1, k)
  }

  lemma {:induction false} LearnedCount(results: seq<u64>)
    ensures var m := LearnAll(results);
            var n := Accepted(results);
            && m.executionCount == n
            && (n > 0 ==> m.firstResult == results[0])
            && m.state == (if n == SAMPLES then Verified else if n == |results| then Unverified else Rejected)
            && n <= |results|
            && (forall k :: 0 <= k < 4 && k < n ==> m.history[k] == results[Latest(n, k)])
  {
    if results != [] {
      var before := results[..|results| - 1];
      LearnedCount(before);
      AcceptedPrefix(before);
      AcceptedPrefix(results);
    }
  }

  /** From a fresh record, after any results: VERIFIED exactly when the first 100 exist
      and agree, REJECTED exactly when one of the first 100 differs from the first. */
  lemma VerdictExactly(results: seq<u64>)
    ensures LearnAll(results).state == Verified <==> Constant(results, SAMPLES)
    ensures LearnAll(results).state == Rejected <==> Mismatch(results)
  {
    LearnedCount(results);
    AcceptedPrefix(results);
    var n := Accepted(results);
    if n < |results| && n < SAMPLES {
      assert results[n] != results[0];
    }
    if Mismatch(results) {
      var i :| 0 <= i < |results| && i < SAMPLES && results[i] != results[0];
      assert n <= i;
    }
  }

  /** What is returned for the next result, from the results alone: it is trusted if and
      only if with it there is still no mismatch among the first 100. */
  lemma TrustExactly(results: seq<u64>, r: u64)
    ensures Trusts(LearnAll(results), r) <==> !Mismatch(results + [r])
  {
    var all := results + [r];
    assert forall i :: 0 <= i < |results| ==> all[i] == results[i];
    assert all[|results|] == r;
    LearnedCount(results);
    AcceptedPrefix(results);
    VerdictExactly(results);
    var n := Accepted(results);
    if n < |results| && n < SAMPLES { assert all[n] != all[0]; }
    if Mismatch(results) {
      var i :| 0 <= i < |results| && i < SAMPLES && results[i] != results[0];
      assert all[i] != all[0];
    }
  }

  /** Both verdicts are final and freeze the record. */
  lemma {:induction false} VerdictIsFinal(results: seq<u64>, more: seq<u64>)
    requires LearnAll(results).state != Unverified
    ensures LearnAll(results + more) == LearnAll(results)
  {
    if more == [] {
      assert results + more == results;
    } else {
      var front := more[..|more| - 1];
      assert (results + more)[..|results + more| - 1] == results + front;
      VerdictIsFinal(results, front);
    }
  }

  /** The count is the number of leading results equal to the first, at most 100, and
      every ring slot holds the latest accepted result whose number is congruent to the
      slot modulo 4. */
  lemma RingHoldsTheLatest(results: seq<u64>, k: nat)
    requires k < 4
    ensures var m := LearnAll(results);
            && m.executionCount <= |results| && m.executionCount <= SAMPLES
            && Constant(results, m.executionCount)
            && (k < m.executionCount ==>
                  exists i :: 0 <= i < m.executionCount && i % 4 == k && m.history[k] == results[i]
                    && forall j :: i < j < m.executionCount ==> j % 4 != k)
  {
    LearnedCount(results);
    AcceptedPrefix(results);
    var n := LearnAll(results).executionCount;
    if k < n {
      var i := Latest(n, k);
    }
  }
}
