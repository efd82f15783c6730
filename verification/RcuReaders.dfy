/** What a lock-free reader finds, and how long it takes, whatever the writers do
    meanwhile. */
module RcuReaders {
  import opened Words
  import opened Entries
  import opened Chains
  import opened RcuTier
  import opened RcuInvariant
  import opened RcuSteps
  import opened RcuRelink
  import opened RcuSafety

  // --- nodes stay in the bucket of their fingerprint ---

  ghost predicate HomesOK(s: Tier) {
    && 0 < |s.heads|
    && (forall x :: 0 <= x < |s.mem| ==> s.mem[x].home == s.mem[x].e.fingerprint % |s.heads|)
    && (forall b :: 0 <= b < |s.writers| && s.writers[b].Locked? && s.writers[b].op.StoreOp? ==>
          s.writers[b].op.e.fingerprint % |s.heads| == b)
  }

  // A step keeps the entries and buckets of the nodes it finds and adds at most one.
  lemma StepKeepsEntries(s: Tier, st: Step)
    requires Enabled(s, st)
    ensures var t := Next(s, st);
            && |t.heads| == |s.heads| && |t.writers| == |s.writers|
            && |s.mem| <= |t.mem| <= |s.mem| + 1
            && (forall x :: 0 <= x < |s.mem| ==> t.mem[x].e == s.mem[x].e && t.mem[x].home == s.mem[x].home)
            && (|t.mem| > |s.mem| ==>
                  && st.Write? && s.writers[st.bucket].op.StoreOp?
                  && t.mem[|s.mem|].e == s.writers[st.bucket].op.e && t.mem[|s.mem|].home == st.bucket)
  {
    if st.Write? {
      match s.writers[st.bucket].pc
      case CutPrev(x, _) =>
      case FixNext(_, _, next, pprev) =>
      case PoisonPrev(x, _) =>
      case FixFirst(n, first) =>
      case _ =>
    }
  }

  lemma WriteKeepsOps(s: Tier, c: nat)
    requires Enabled(s, Write(c))
    ensures var ws := Next(s, Write(c)).writers;
            && |ws| == |s.writers|
            && ws == s.writers[c := ws[c]]
            && (ws[c].Locked? ==> ws[c].op == s.writers[c].op)
  {
    match s.writers[c].pc
    case CutPrev(x, _) =>
    case FixNext(_, _, next, pprev) =>
    case PoisonPrev(x, _) =>
    case FixFirst(n, first) =>
    case _ =>
  }

  lemma StepKeepsOps(s: Tier, st: Step)
    requires Enabled(s, st)
    ensures |Next(s, st).writers| == |s.writers|
    ensures forall b :: 0 <= b < |s.writers| && Next(s, st).writers[b].Locked? ==>
              if s.writers[b].Locked? then Next(s, st).writers[b].op == s.writers[b].op
              else st.WriteLock? && st.bucket == b && st.op == Next(s, st).writers[b].op
  {
    if st.Write? { WriteKeepsOps(s, st.bucket); }
  }

  lemma HomesStep(s: Tier, st: Step, t: Tier)
    requires HomesOK(s) && IsStep(s, st, t)
    ensures HomesOK(t)
  {
    WritersHome(s, st);
    NodesHome(s, st);
  }

  lemma NodesHome(s: Tier, st: Step)
    requires HomesOK(s) && Enabled(s, st)
    ensures var t := Next(s, st);
            |t.heads| == |s.heads|
            && forall x :: 0 <= x < |t.mem| ==> t.mem[x].home == t.mem[x].e.fingerprint % |s.heads|
  {
    StepKeepsEntries(s, st);
  }

  lemma WritersHome(s: Tier, st: Step)
    requires HomesOK(s) && Enabled(s, st)
    ensures var ws := Next(s, st).writers;
            forall b :: 0 <= b < |ws| && ws[b].Locked? && ws[b].op.StoreOp? ==> ws[b].op.e.fingerprint % |s.heads| == b
  {
    StepKeepsOps(s, st);
  }

  lemma {:induction false} RunHomes(run: seq<Tier>, steps: seq<Step>, i: nat)
    requires IsRun(run, steps) && Initial(run[0]) && i < |run|
    ensures HomesOK(run[i])
  {
    if i > 0 {
      RunHomes(run, steps, i - 1);
      assert StepAt(run, steps, i - 1);
      HomesStep(run[i - 1], steps[i - 1], run[i]);
    }
  }

  // --- no step shortens a walk by more than the node it cuts ---

  lemma ReachKept(s: Tier, st: Step, p: int, z: nat)
    requires Inv(s) && Enabled(s, st) && NIL <= p < |s.mem|
    requires z in Walk(s.mem, p) && Linked(Next(s, st), z)
    ensures z in Walk(Next(s, st).mem, p)
  {
    var t := Next(s, st);
    if st.Write? && s.writers[st.bucket].pc.CutPrev? {
      var b, x := st.bucket, s.writers[st.bucket].pc.x;
      assert WriterOK(s, b);
      assert PprevAt(s, x);
      CutLinked(s, t, b, x);
      if s.mem[x].pprev.NextOf? {
        WalkBypass(s, s.mem[x].pprev.node, x, p);
      }
    } else {
      StepSameMem(s, st);
      SameWalk(s, t.(heads := s.heads), p);
    }
  }

  // Every other step leaves the `next` fields as they are.
  lemma StepSameMem(s: Tier, st: Step)
    requires Inv(s) && Enabled(s, st) && !(st.Write? && s.writers[st.bucket].pc.CutPrev?)
    ensures SameLinks(s, Next(s, st).(heads := s.heads))
  {
    if st.Write? {
      match s.writers[st.bucket].pc
      case FixNext(_, _, next, pprev) =>
      case PoisonPrev(x, _) =>
      case FixFirst(n, first) =>
      case _ =>
    }
  }

  // From p's successor: the pointer the reader will load next.
  lemma NextReachKept(s: Tier, st: Step, c: nat, z: nat)
    requires Inv(s) && Enabled(s, st) && c < |s.mem|
    requires z in Walk(s.mem, s.mem[c].next) && Linked(Next(s, st), z)
    ensures c < |Next(s, st).mem| && z in Walk(Next(s, st).mem, Next(s, st).mem[c].next)
  {
    var t := Next(s, st);
    ReachKept(s, st, s.mem[c].next, z);
    if st.Write? && s.writers[st.bucket].pc.CutPrev? {
      var b, x := st.bucket, s.writers[st.bucket].pc.x;
      assert WriterOK(s, b);
      assert PprevAt(s, x);
      CutLinked(s, t, b, x);
      if s.mem[x].pprev == NextOf(c) {
        assert Walk(s.mem, x) == [x] + Walk(s.mem, s.mem[x].next);
        ReachKept(s, st, s.mem[x].next, z);
      }
    } else {
      StepSameMem(s, st);
    }
  }

  // --- a reader never misses ---

  // The reader is inside its section and z is linked and live for its key.
  ghost predicate Stays(s: Tier, r: nat, z: nat, fingerprint: u64, mm: u64) {
    && r < |s.readers| && !s.readers[r].Outside?
    && Linked(s, z) && Live(s.mem[z].e, fingerprint, mm, s.jiffies)
  }

  // z is still in front of the reader, or the reader has already hit.
  predicate Ahead(s: Tier, rd: Reader, fingerprint: u64, mm: u64, z: nat) {
    match rd
    case Outside => false
    case Entered(f, m) => f == fingerprint && m == mm
    case Looking(f, m, cur) => f == fingerprint && m == mm && NIL <= cur < |s.mem| && z in Walk(s.mem, cur)
    case Moving(f, m, cur) =>
      f == fingerprint && m == mm && 0 <= cur < |s.mem| && z in Walk(s.mem, s.mem[cur].next)
    case Returning(f, m, result) =>
      f == fingerprint && m == mm && 0 <= result < |s.mem| && Matches(s.mem[result].e, fingerprint, mm)
  }

  lemma StepOfOther(s: Tier, st: Step, r: nat)
    requires Enabled(s, st) && r < |s.readers|
    ensures |Next(s, st).readers| == |s.readers|
    ensures st != Read(r) && !s.readers[r].Outside? ==> Next(s, st).readers[r] == s.readers[r]
  {
  }

  lemma AheadStep(s: Tier, st: Step, t: Tier, r: nat, fingerprint: u64, mm: u64, z: nat)
    requires Inv(s) && HomesOK(s) && IsStep(s, st, t) && r < |s.readers|
    requires Ahead(s, s.readers[r], fingerprint, mm, z)
    requires Stays(s, r, z, fingerprint, mm) && Stays(t, r, z, fingerprint, mm)
    ensures Ahead(t, t.readers[r], fingerprint, mm, z)
  {
    StepOfOther(s, st, r);
    StepKeepsEntries(s, st);
    assert ReaderOK(s, r);
    if st == Read(r) {
      OwnStep(s, r, fingerprint, mm, z);
    } else {
      match s.readers[r]
      case Looking(_, _, cur) => ReachKept(s, st, cur, z);
      case Moving(_, _, cur) => NextReachKept(s, st, cur, z);
      case _ =>
    }
  }

  lemma OwnStep(s: Tier, r: nat, fingerprint: u64, mm: u64, z: nat)
    requires Inv(s) && HomesOK(s) && r < |s.readers|
    requires Ahead(s, s.readers[r], fingerprint, mm, z) && !s.readers[r].Returning?
    requires Linked(s, z) && Live(s.mem[z].e, fingerprint, mm, s.jiffies)
    ensures Ahead(ReadNext(s, r), ReadNext(s, r).readers[r], fingerprint, mm, z)
  {
    assert ReaderOK(s, r);
    match s.readers[r]
    case Entered(_, _) => HeadsLinked(s);
    case Looking(_, _, cur) =>
      assert cur != NIL && Allocated(s, cur);
      assert Walk(s.mem, cur) == [cur] + Walk(s.mem, s.mem[cur].next);
    case Moving(_, _, cur) => MayMove(s, r);
  }

  lemma AheadAt(run: seq<Tier>, steps: seq<Step>, k: nat, r: nat, z: nat, fingerprint: u64, mm: u64)
    requires IsRun(run, steps) && Initial(run[0]) && k < |steps|
    requires Stays(run[k], r, z, fingerprint, mm) && Stays(run[k + 1], r, z, fingerprint, mm)
    requires Ahead(run[k], run[k].readers[r], fingerprint, mm, z)
    ensures Ahead(run[k + 1], run[k + 1].readers[r], fingerprint, mm, z)
  {
    RunInv(run, steps, k);
    RunHomes(run, steps, k);
    assert StepAt(run, steps, k);
    AheadStep(run[k], steps[k], run[k + 1], r, fingerprint, mm, z);
  }

  /** A reader that entered for a key cannot come back empty-handed while some live
      entry of that key stays linked from its rcu_read_lock on, even if it walks over
      nodes that have been unlinked under it. What it brings back has the key. */
  lemma {:induction false} NeverMisses(
    run: seq<Tier>, steps: seq<Step>, i: nat, j: nat, r: nat, z: nat, fingerprint: u64, mm: u64)
    requires IsRun(run, steps) && Initial(run[0]) && i <= j < |run|
    requires forall k :: i <= k <= j ==> Stays(run[k], r, z, fingerprint, mm)
    requires Stays(run[i], r, z, fingerprint, mm) && run[i].readers[r] == Entered(fingerprint, mm)
    ensures r < |run[j].readers| && Ahead(run[j], run[j].readers[r], fingerprint, mm, z)
    ensures run[j].readers[r].Returning? ==>
              && run[j].readers[r].result != NIL
              && Matches(run[j].mem[run[j].readers[r].result].e, fingerprint, mm)
  {
    if i < j {
      NeverMisses(run, steps, i, j - 1, r, z, fingerprint, mm);
      AheadAt(run, steps, j - 1, r, z, fingerprint, mm);
    }
  }

  // --- a reader sees only what was in the bucket during its section ---

  ghost predicate WasLinked(run: seq<Tier>, i: nat, j: nat, x: int) {
    exists k :: i <= k <= j < |run| && Linked(run[k], x)
  }

  ghost predicate WasLive(run: seq<Tier>, i: nat, j: nat, x: nat, fingerprint: u64, mm: u64) {
    exists k :: i <= k <= j < |run| && x < |run[k].mem|
                && Live(run[k].mem[x].e, fingerprint, mm, run[k].jiffies)
  }

  predicate InSection(s: Tier, r: nat) {
    r < |s.readers| && !s.readers[r].Outside?
  }

  // Only a linked node's `next` is ever written.
  lemma FrozenNext(s: Tier, st: Step, t: Tier, x: nat)
    requires Inv(s) && IsStep(s, st, t) && x < |s.mem| && !Linked(t, x)
    ensures x < |t.mem| && t.mem[x].next == s.mem[x].next
  {
    if st.Write? && s.writers[st.bucket].pc.CutPrev? {
      var b, y := st.bucket, s.writers[st.bucket].pc.x;
      assert WriterOK(s, b);
      assert PprevAt(s, y);
      CutLinked(s, t, b, y);
    } else {
      StepSameMem(s, st);
    }
  }

  lemma LinkedAt(run: seq<Tier>, steps: seq<Step>, j: nat, x: nat)
    requires IsRun(run, steps) && Initial(run[0]) && j < |run| && Linked(run[j], x)
    ensures run[j].mem[x].next == NIL || Linked(run[j], run[j].mem[x].next)
  {
    RunInv(run, steps, j);
    SuccessorLinked(run[j], x);
  }

  lemma FrozenAt(run: seq<Tier>, steps: seq<Step>, j: nat, x: nat)
    requires IsRun(run, steps) && Initial(run[0]) && j < |steps| && x < |run[j].mem| && !Linked(run[j + 1], x)
    ensures x < |run[j + 1].mem| && run[j + 1].mem[x].next == run[j].mem[x].next
  {
    RunInv(run, steps, j);
    assert StepAt(run, steps, j);
    FrozenNext(run[j], steps[j], run[j + 1], x);
  }

  lemma {:induction false} SuccessorWasLinked(run: seq<Tier>, steps: seq<Step>, i: nat, j: nat, x: nat)
    requires IsRun(run, steps) && Initial(run[0]) && i <= j < |run| && WasLinked(run, i, j, x)
    ensures x < |run[j].mem|
    ensures run[j].mem[x].next == NIL || WasLinked(run, i, j, run[j].mem[x].next)
  {
    if Linked(run[j], x) {
      LinkedAt(run, steps, j, x);
    } else {
      assert WasLinked(run, i, j - 1, x);
      SuccessorWasLinked(run, steps, i, j - 1, x);
      FrozenAt(run, steps, j - 1, x);
      var y := run[j].mem[x].next;
      if y != NIL {
        var k :| i <= k <= j - 1 && Linked(run[k], y);
      }
    }
  }

  // Where a reader stands after one more step, from where it stood.
  lemma CursorStep(s: Tier, st: Step, t: Tier, r: nat)
    requires Inv(s) && IsStep(s, st, t) && InSection(s, r) && InSection(t, r)
    ensures var c, d := Cursor(s.readers[r]), Cursor(t.readers[r]);
            d == NIL || d == c || Linked(t, d) || (0 <= c < |s.mem| && d == s.mem[c].next && s.mem == t.mem)
  {
    StepOfOther(s, st, r);
    assert ReaderOK(s, r);
    if st == Read(r) {
      if s.readers[r].Entered? { HeadsLinked(s); }
      if s.readers[r].Moving? { MayMove(s, r); }
      if s.readers[r].Looking? && s.readers[r].cur != NIL { assert Allocated(s, s.readers[r].cur); }
    }
  }

  lemma CursorAt(run: seq<Tier>, steps: seq<Step>, j: nat, r: nat)
    requires IsRun(run, steps) && Initial(run[0]) && j < |steps|
    requires InSection(run[j], r) && InSection(run[j + 1], r)
    ensures var c, d := Cursor(run[j].readers[r]), Cursor(run[j + 1].readers[r]);
            || d == NIL || d == c || Linked(run[j + 1], d)
            || (0 <= c < |run[j].mem| && d == run[j].mem[c].next)
  {
    RunInv(run, steps, j);
    assert StepAt(run, steps, j);
    CursorStep(run[j], steps[j], run[j + 1], r);
  }

  /** Every node a reader stands on, and so the entry it returns, was linked in the
      bucket at some moment of its own read-side section. */
  lemma {:induction false} SeesOnlyLinked(run: seq<Tier>, steps: seq<Step>, i: nat, j: nat, r: nat)
    requires IsRun(run, steps) && Initial(run[0]) && i <= j < |run|
    requires forall k :: i <= k <= j ==> InSection(run[k], r)
    requires InSection(run[i], r) && InSection(run[j], r) && run[i].readers[r].Entered?
    ensures var c := Cursor(run[j].readers[r]); c == NIL || WasLinked(run, i, j, c)
  {
    var c := Cursor(run[j].readers[r]);
    if i < j && c != NIL {
      SeesOnlyLinked(run, steps, i, j - 1, r);
      var d := Cursor(run[j - 1].readers[r]);
      CursorAt(run, steps, j - 1, r);
      if c == d {
        var k :| i <= k <= j - 1 && Linked(run[k], c);
      } else if !Linked(run[j], c) {
        SuccessorWasLinked(run, steps, i, j - 1, d);
        var k :| i <= k <= j - 1 && Linked(run[k], c);
      }
    }
  }

  lemma HitStep(s: Tier, st: Step, t: Tier, r: nat)
    requires Inv(s) && IsStep(s, st, t) && InSection(s, r) && InSection(t, r)
    requires t.readers[r].Returning? && t.readers[r].result != NIL
    ensures s.readers[r] == t.readers[r] ||
            var rd := t.readers[r];
            && s.readers[r] == Looking(rd.fingerprint, rd.mm, rd.result) && 0 <= rd.result < |s.mem|
            && Live(s.mem[rd.result].e, rd.fingerprint, rd.mm, s.jiffies)
  {
    StepOfOther(s, st, r);
    assert ReaderOK(s, r);
  }

  lemma HitAt(run: seq<Tier>, steps: seq<Step>, j: nat, r: nat, fingerprint: u64, mm: u64, x: nat)
    requires IsRun(run, steps) && Initial(run[0]) && j < |steps|
    requires InSection(run[j], r) && InSection(run[j + 1], r)
    requires run[j + 1].readers[r] == Returning(fingerprint, mm, x)
    ensures run[j].readers[r] == run[j + 1].readers[r] ||
            (run[j].readers[r] == Looking(fingerprint, mm, x) && x < |run[j].mem|
             && Live(run[j].mem[x].e, fingerprint, mm, run[j].jiffies))
  {
    RunInv(run, steps, j);
    assert StepAt(run, steps, j);
    HitStep(run[j], steps[j], run[j + 1], r);
  }

  // The moment of the comparison that succeeded.
  lemma {:induction false} HitMoment(
    run: seq<Tier>, steps: seq<Step>, i: nat, j: nat, r: nat, fingerprint: u64, mm: u64, x: nat)
    returns (k: nat)
    requires IsRun(run, steps) && Initial(run[0]) && i <= j < |run|
    requires forall k :: i <= k <= j ==> InSection(run[k], r)
    requires InSection(run[i], r) && run[i].readers[r].Entered?
    requires InSection(run[j], r) && run[j].readers[r] == Returning(fingerprint, mm, x)
    ensures i <= k < j && InSection(run[k], r) && run[k].readers[r] == Looking(fingerprint, mm, x)
    ensures x < |run[k].mem| && Live(run[k].mem[x].e, fingerprint, mm, run[k].jiffies)
  {
    HitAt(run, steps, j - 1, r, fingerprint, mm, x);
    if run[j - 1].readers[r] == run[j].readers[r] {
      k := HitMoment(run, steps, i, j - 1, r, fingerprint, mm, x);
    } else {
      k := j - 1;
    }
  }

  /** A returned entry has the key asked for and was unexpired when it was compared. */
  lemma HitWasLive(run: seq<Tier>, steps: seq<Step>, i: nat, j: nat, r: nat)
    requires IsRun(run, steps) && Initial(run[0]) && i <= j < |run|
    requires forall k :: i <= k <= j ==> InSection(run[k], r)
    requires InSection(run[i], r) && InSection(run[j], r) && run[i].readers[r].Entered?
    requires run[j].readers[r].Returning? && run[j].readers[r].result != NIL
    ensures 0 <= run[j].readers[r].result
    ensures WasLive(run, i, j, run[j].readers[r].result, run[j].readers[r].fingerprint, run[j].readers[r].mm)
  {
    RunInv(run, steps, j);
    assert ReaderOK(run[j], r);
    var rd := run[j].readers[r];
    var k := HitMoment(run, steps, i, j, r, rd.fingerprint, rd.mm, rd.result);
  }

  // --- a walk ends ---

  /** Every `next` leads to a node inserted strictly earlier. */
  lemma NextIsOlder(run: seq<Tier>, steps: seq<Step>, i: nat, x: nat)
    requires IsRun(run, steps) && Initial(run[0]) && i < |run| && x < |run[i].mem|
    ensures NIL <= run[i].mem[x].next < x
  {
    RunInv(run, steps, i);
  }

  function Remaining(rd: Reader): int {
    match rd
    case Looking(_, _, cur) => 2 * cur + 3
    case Moving(_, _, cur) => 2 * cur + 2
    case _ => 0
  }

  function Reads(steps: seq<Step>, r: nat): nat {
    if steps == [] then 0
    else Reads(steps[..|steps| - 1], r) + (if steps[|steps| - 1] == Read(r) then 1 else 0)
  }

  predicate Walking(rd: Reader) {
    rd.Looking? || rd.Moving?
  }

  lemma WalkStep(s: Tier, st: Step, t: Tier, r: nat)
    requires Inv(s) && IsStep(s, st, t) && r < |s.readers| && Walking(s.readers[r])
    requires r < |t.readers| && Walking(t.readers[r])
    ensures Remaining(t.readers[r]) + (if st == Read(r) then 1 else 0) <= Remaining(s.readers[r])
  {
    StepOfOther(s, st, r);
    assert ReaderOK(s, r);
    if st == Read(r) && s.readers[r].Moving? {
      MayMove(s, r);
    }
  }

  lemma WalkStepAt(run: seq<Tier>, steps: seq<Step>, k: nat, r: nat)
    requires IsRun(run, steps) && Initial(run[0]) && k < |steps|
    requires r < |run[k].readers| && Walking(run[k].readers[r])
    requires r < |run[k + 1].readers| && Walking(run[k + 1].readers[r])
    ensures Remaining(run[k + 1].readers[r]) + (if steps[k] == Read(r) then 1 else 0)
            <= Remaining(run[k].readers[r])
  {
    RunInv(run, steps, k);
    assert StepAt(run, steps, k);
    WalkStep(run[k], steps[k], run[k + 1], r);
  }

  lemma RemainingPositive(run: seq<Tier>, steps: seq<Step>, k: nat, r: nat)
    requires IsRun(run, steps) && Initial(run[0]) && k < |run|
    requires r < |run[k].readers| && Walking(run[k].readers[r])
    ensures 0 < Remaining(run[k].readers[r])
  {
    RunInv(run, steps, k);
    assert ReaderOK(run[k], r);
  }

  /** A walk that started at node `cur` takes at most 2 * cur + 3 steps of its own
      reader, however many insertions and removals happen in between. */
  lemma {:induction false} WalkBounded(run: seq<Tier>, steps: seq<Step>, i: nat, j: nat, r: nat)
    requires IsRun(run, steps) && Initial(run[0]) && i <= j < |run|
    requires forall k :: i <= k <= j ==> r < |run[k].readers| && Walking(run[k].readers[r])
    ensures Reads(steps[i..j], r) + Remaining(run[j].readers[r]) <= Remaining(run[i].readers[r])
    ensures Reads(steps[i..j], r) < Remaining(run[i].readers[r])
  {
    RemainingPositive(run, steps, j, r);
    if i < j {
      WalkBounded(run, steps, i, j - 1, r);
      WalkStepAt(run, steps, j - 1, r);
      assert steps[i..j][..j - i - 1] == steps[i..j - 1];
    }
  }
}
