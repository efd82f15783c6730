/** What the concurrent tier gets done: retired nodes are freed once their readers have
    left, and a critical section ends. */
module RcuProgress {
  import opened RcuTier
  import opened RcuInvariant
  import opened RcuSteps
  import opened RcuSafety
  import opened RcuReaders
  import opened RcuWriters

  // --- freeing ---

  lemma FreedGrows(s: Tier, st: Step, t: Tier)
    requires IsStep(s, st, t)
    ensures s.freed <= t.freed
  {
    if st.Write? {
      match s.writers[st.bucket].pc
      case CutPrev(x, _) =>
      case FixNext(_, _, next, pprev) =>
      case PoisonPrev(x, _) =>
      case FixFirst(n, first) =>
      case _ =>
    }
  }

  lemma {:induction false} FreedStays(run: seq<Tier>, steps: seq<Step>, i: nat, j: nat)
    requires IsRun(run, steps) && i <= j < |run|
    ensures run[i].freed <= run[j].freed
  {
    if i < j {
      FreedStays(run, steps, i, j - 1);
      assert StepAt(run, steps, j - 1);
      FreedGrows(run[j - 1], steps[j - 1], run[j]);
    }
  }

  /** A callback frees its node, once and for all: from then on the node is freed and in
      nobody's hands, neither linked nor waiting for another callback. */
  lemma CallbackFrees(run: seq<Tier>, steps: seq<Step>, i: nat, j: nat, x: nat)
    requires IsRun(run, steps) && Initial(run[0]) && i < j < |run| && steps[i] == Callback(x)
    ensures x in run[j].freed && x !in run[j].pending && !Linked(run[j], x)
  {
    RunInv(run, steps, i);
    assert StepAt(run, steps, i);
    FreedStays(run, steps, i + 1, j);
    RunInv(run, steps, j);
  }

  // A node that waits goes on waiting, for no more readers than before, or is freed.
  lemma WaitStep(s: Tier, st: Step, t: Tier, x: nat)
    requires Inv(s) && IsStep(s, st, t) && x in s.pending
    ensures x in t.freed || (x in t.pending && t.pending[x] <= s.pending[x])
  {
    if st.Write? {
      match s.writers[st.bucket].pc
      case CutPrev(y, _) =>
      case FixNext(_, _, next, pprev) =>
      case PoisonPrev(y, _) =>
      case Retire(y, _) => assert WriterOK(s, st.bucket) && Cut(s, y);
      case FixFirst(n, first) =>
      case _ =>
    }
  }

  lemma {:induction false} WaitShrinks(run: seq<Tier>, steps: seq<Step>, i: nat, j: nat, x: nat)
    requires IsRun(run, steps) && Initial(run[0]) && i <= j < |run| && x in run[i].pending
    ensures x in run[j].freed || (x in run[j].pending && run[j].pending[x] <= run[i].pending[x])
  {
    if i < j {
      WaitShrinks(run, steps, i, j - 1, x);
      assert StepAt(run, steps, j - 1);
      if x in run[j - 1].freed {
        FreedStays(run, steps, j - 1, j);
      } else {
        RunInv(run, steps, j - 1);
        WaitStep(run[j - 1], steps[j - 1], run[j], x);
      }
    }
  }

  // Reader r has been outside its section at some state of i..j.
  ghost predicate HasLeft(run: seq<Tier>, i: nat, j: nat, r: nat) {
    exists k :: i <= k <= j < |run| && r < |run[k].readers| && run[k].readers[r].Outside?
  }

  /** A retired node is freed, or its callback may run, as soon as every reader that was
      inside a section has been outside one since: a grace period is enough. */
  lemma GracePeriodEnds(run: seq<Tier>, steps: seq<Step>, i: nat, j: nat, x: nat)
    requires IsRun(run, steps) && Initial(run[0]) && i <= j < |run| && x in run[i].pending
    requires forall r :: r in Inside(run[i]) ==> HasLeft(run, i, j, r)
    ensures x in run[j].freed || Enabled(run[j], Callback(x))
  {
    WaitShrinks(run, steps, i, j, x);
    RunInv(run, steps, i);
    if x !in run[j].freed && run[j].pending[x] != {} {
      var r :| r in run[j].pending[x];
      assert r in Inside(run[i]);
      var k :| i <= k <= j && r < |run[k].readers| && run[k].readers[r].Outside?;
      NotAwaited(run, steps, i, k, j, x, r);
      assert false;
    }
  }

  // Nobody waits any more for a reader that has been outside.
  lemma NotAwaited(run: seq<Tier>, steps: seq<Step>, i: nat, k: nat, j: nat, x: nat, r: nat)
    requires IsRun(run, steps) && Initial(run[0]) && i <= k <= j < |run| && x in run[i].pending
    requires r < |run[k].readers| && run[k].readers[r].Outside? && x in run[j].pending
    ensures r !in run[j].pending[x]
  {
    WaitShrinks(run, steps, i, k, x);
    RunInv(run, steps, j);
    FreedStays(run, steps, k, j);
    RunInv(run, steps, k);
    WaitShrinks(run, steps, k, j, x);
  }

  // --- hlist_del_rcu has poisoned what is retired ---

  ghost predicate PoisonOK(s: Tier) {
    && (forall x :: x in s.pending && x < |s.mem| ==> s.mem[x].pprev == Poison)
    && (forall b :: 0 <= b < |s.writers| && s.writers[b].Locked? && s.writers[b].pc.Retire? ==>
          s.writers[b].pc.x < |s.mem| && s.mem[s.writers[b].pc.x].pprev == Poison)
  }

  // A step writes the pprev of linked nodes only, or poisons.
  lemma PprevWrites(s: Tier, st: Step, t: Tier)
    requires Inv(s) && IsStep(s, st, t)
    ensures |s.mem| <= |t.mem|
    ensures forall x :: 0 <= x < |s.mem| ==>
              t.mem[x].pprev == s.mem[x].pprev || t.mem[x].pprev == Poison || Linked(s, x)
  {
    if st.Write? {
      assert WriterOK(s, st.bucket);
      match s.writers[st.bucket].pc
      case CutPrev(x, _) => assert PprevAt(s, x);
      case FixNext(_, _, next, pprev) =>
      case PoisonPrev(x, _) => assert Cut(s, x);
      case FixFirst(n, first) => SuccessorLinked(s, n);
      case _ =>
    }
  }

  lemma PoisonedPending(s: Tier, st: Step, t: Tier)
    requires Inv(s) && IsStep(s, st, t) && PoisonOK(s)
    ensures forall x :: x in t.pending && x < |t.mem| ==> t.mem[x].pprev == Poison
  {
    PprevWrites(s, st, t);
    forall x | x in t.pending && x < |t.mem| ensures t.mem[x].pprev == Poison {
      if st.Write? { PendingFrom(s, st.bucket, x); }
    }
  }

  lemma PendingFrom(s: Tier, b: nat, x: nat)
    requires Inv(s) && Enabled(s, Write(b)) && x in Next(s, Write(b)).pending
    ensures x in s.pending || (s.writers[b].pc.Retire? && s.writers[b].pc.x == x && Next(s, Write(b)).mem == s.mem)
  {
    match s.writers[b].pc
    case CutPrev(y, _) =>
    case FixNext(_, _, next, pprev) =>
    case PoisonPrev(y, _) =>
    case FixFirst(n, first) =>
    case _ =>
  }

  lemma PoisonedCuts(s: Tier, st: Step, t: Tier)
    requires Inv(s) && IsStep(s, st, t) && PoisonOK(s)
    ensures forall b :: 0 <= b < |t.writers| && t.writers[b].Locked? && t.writers[b].pc.Retire? ==>
              t.writers[b].pc.x < |t.mem| && t.mem[t.writers[b].pc.x].pprev == Poison
  {
    PprevWrites(s, st, t);
    forall b | 0 <= b < |t.writers| && t.writers[b].Locked? && t.writers[b].pc.Retire?
      ensures t.writers[b].pc.x < |t.mem| && t.mem[t.writers[b].pc.x].pprev == Poison
    {
      if st == Write(b) { JustPoisoned(s, b); } else { StillCut(s, st, t, b); }
    }
  }

  lemma StillCut(s: Tier, st: Step, t: Tier, b: nat)
    requires Inv(s) && IsStep(s, st, t) && st != Write(b)
    requires b < |t.writers| && t.writers[b].Locked? && t.writers[b].pc.Retire?
    ensures b < |s.writers| && s.writers[b] == t.writers[b] && Cut(s, t.writers[b].pc.x)
  {
    if st.Write? { WriteKeepsOps(s, st.bucket); }
    assert WriterOK(s, b);
  }

  lemma JustPoisoned(s: Tier, b: nat)
    requires Inv(s) && Enabled(s, Write(b))
    requires var w := Next(s, Write(b)).writers; b < |w| && w[b].Locked? && w[b].pc.Retire?
    ensures var t := Next(s, Write(b));
            t.writers[b].pc.x < |t.mem| && t.mem[t.writers[b].pc.x].pprev == Poison
  {
    assert WriterOK(s, b);
    match s.writers[b].pc
    case PoisonPrev(x, _) => assert Cut(s, x);
    case Retire(x, _) => assert Cut(s, x);
    case CutPrev(x, _) =>
    case FixNext(_, _, next, pprev) =>
    case FixFirst(n, first) =>
    case _ =>
  }

  /** In every run a node handed to call_rcu has a poisoned pprev. */
  lemma {:induction false} RetiredIsPoisoned(run: seq<Tier>, steps: seq<Step>, i: nat)
    requires IsRun(run, steps) && Initial(run[0]) && i < |run|
    ensures PoisonOK(run[i])
  {
    if i > 0 {
      RetiredIsPoisoned(run, steps, i - 1);
      RunInv(run, steps, i - 1);
      assert StepAt(run, steps, i - 1);
      PoisonedPending(run[i - 1], steps[i - 1], run[i]);
      PoisonedCuts(run[i - 1], steps[i - 1], run[i]);
    }
  }

  // --- a read-side section ends ---

  // An upper bound on the reads to come before rcu_read_unlock has taken effect.
  function ReadsLeft(rd: Reader): int {
    match rd
    case Looking(_, _, cur) => 2 * cur + 4
    case Moving(_, _, cur) => 2 * cur + 3
    case Returning(_, _, _) => 1
    case _ => 0
  }

  lemma ReadsStep(s: Tier, st: Step, t: Tier, r: nat)
    requires Inv(s) && IsStep(s, st, t) && InSection(s, r) && !s.readers[r].Entered?
    ensures r < |t.readers| && !t.readers[r].Entered? && 0 < ReadsLeft(s.readers[r])
    ensures if st == Read(r) then ReadsLeft(t.readers[r]) < ReadsLeft(s.readers[r])
            else t.readers[r] == s.readers[r]
  {
    StepOfOther(s, st, r);
    assert ReaderOK(s, r);
    if st == Read(r) && s.readers[r].Moving? { MayMove(s, r); }
  }

  lemma ReadsAt(run: seq<Tier>, steps: seq<Step>, k: nat, r: nat)
    requires IsRun(run, steps) && Initial(run[0]) && k < |steps| && InSection(run[k], r) && !run[k].readers[r].Entered?
    ensures r < |run[k + 1].readers| && !run[k + 1].readers[r].Entered? && 0 < ReadsLeft(run[k].readers[r])
    ensures ReadsLeft(run[k + 1].readers[r]) + (if steps[k] == Read(r) then 1 else 0) <= ReadsLeft(run[k].readers[r])
  {
    RunInv(run, steps, k);
    assert StepAt(run, steps, k);
    ReadsStep(run[k], steps[k], run[k + 1], r);
  }

  lemma {:induction false} ReadsShrink(run: seq<Tier>, steps: seq<Step>, i: nat, j: nat, r: nat)
    requires IsRun(run, steps) && Initial(run[0]) && i <= j < |run|
    requires InSection(run[i], r) && !run[i].readers[r].Entered?
    requires forall k :: i <= k < j ==> InSection(run[k], r)
    ensures r < |run[j].readers| && !run[j].readers[r].Entered?
    ensures Reads(steps[i..j], r) + ReadsLeft(run[j].readers[r]) <= ReadsLeft(run[i].readers[r])
  {
    if i < j {
      ReadsShrink(run, steps, i, j - 1, r);
      ReadsAt(run, steps, j - 1, r);
      assert steps[i..j][..j - i - 1] == steps[i..j - 1];
    } else {
      assert steps[i..j] == [];
    }
  }

  /** A read-side section ends: once a reader has loaded the bucket's head, its own reads
      until it is outside again are bounded by the node it stands on, whatever anybody else
      does; and one is always enabled. */
  lemma ReadSectionEnds(run: seq<Tier>, steps: seq<Step>, i: nat, j: nat, r: nat)
    requires IsRun(run, steps) && Initial(run[0]) && i <= j < |run|
    requires InSection(run[i], r) && !run[i].readers[r].Entered?
    requires forall k :: i <= k <= j ==> InSection(run[k], r)
    ensures Reads(steps[i..j], r) < ReadsLeft(run[i].readers[r])
    ensures Enabled(run[j], Read(r))
  {
    ReadsShrink(run, steps, i, j, r);
    RunInv(run, steps, j);
    assert InSection(run[j], r) && ReaderOK(run[j], r);
  }

  // --- a critical section ends ---

  function ToGo(s: Tier, p: int): nat {
    |Walk(s.mem, p)|
  }

  // An upper bound on the writes to come before the unlock.
  function Work(s: Tier, b: nat): nat
    requires b < |s.writers|
  {
    match s.writers[b]
    case Unlocked => 0
    case Locked(_, pc) =>
      match pc
      case Scan(cur) => 5 * ToGo(s, cur) + 5
      case CutPrev(_, tmp) => 5 * ToGo(s, tmp) + 9
      case FixNext(_, tmp, _, _) => 5 * ToGo(s, tmp) + 8
      case PoisonPrev(_, tmp) => 5 * ToGo(s, tmp) + 7
      case Retire(_, tmp) => 5 * ToGo(s, tmp) + 6
      case Fill => 4
      case Publish(_, _) => 3
      case FixFirst(_, _) => 2
      case Finish => 1
  }

  // Where the section's scan goes on.
  function Position(w: Writer): int {
    if w.Unlocked? then NIL
    else
      match w.pc
      case Scan(cur) => cur
      case CutPrev(_, tmp) => tmp
      case FixNext(_, tmp, _, _) => tmp
      case PoisonPrev(_, tmp) => tmp
      case Retire(_, tmp) => tmp
      case _ => NIL
  }

  lemma PositionLinked(s: Tier, b: nat)
    requires Inv(s) && b < |s.writers|
    ensures var p := Position(s.writers[b]); p == NIL || LinkedIn(s, b, p)
  {
    assert WriterOK(s, b);
    if s.writers[b].Locked? && s.writers[b].pc.CutPrev? { SuccessorLinked(s, s.writers[b].pc.x); }
  }

  // No step of anyone changes the list behind the position.
  lemma AheadKept(s: Tier, st: Step, t: Tier, b: nat)
    requires Inv(s) && IsStep(s, st, t) && b < |s.writers|
    ensures Walk(t.mem, Position(s.writers[b])) == Walk(s.mem, Position(s.writers[b]))
  {
    var p := Position(s.writers[b]);
    PositionLinked(s, b);
    if p != NIL {
      if st.Write? && s.writers[st.bucket].pc.CutPrev? {
        var c, x := st.bucket, s.writers[st.bucket].pc.x;
        assert WriterOK(s, c);
        assert PprevAt(s, x);
        WalkMembers(s, p);
        if s.mem[x].pprev.NextOf? { UntouchedWalk(s, t.mem, s.mem[x].pprev.node, p); }
      } else {
        StepSameMem(s, st);
        SameWalk(s, t.(heads := s.heads), p);
      }
    }
  }

  lemma OwnWork(s: Tier, b: nat)
    requires Inv(s) && Enabled(s, Write(b))
    ensures var t := Next(s, Write(b)); b < |t.writers| && Work(t, b) < Work(s, b)
  {
    var t := Next(s, Write(b));
    AheadKept(s, Write(b), t, b);
    match s.writers[b].pc
    case Scan(cur) => ScanWork(s, b);
    case CutPrev(_, _) => NextPc(s, b);
    case FixNext(_, _, _, _) => NextPc(s, b);
    case PoisonPrev(_, _) => NextPc(s, b);
    case Retire(_, _) => NextPc(s, b);
    case FixFirst(n, first) =>
      assert WriterOK(s, b);
      SuccessorLinked(s, n);
    case Publish(_, _) => assert WriterOK(s, b);
    case Fill => assert WriterOK(s, b);
    case Finish =>
  }

  lemma ScanWork(s: Tier, b: nat)
    requires Inv(s) && Enabled(s, Write(b)) && s.writers[b].pc.Scan?
    ensures var t := Next(s, Write(b)); b < |t.writers| && Work(t, b) < Work(s, b)
  {
    assert WriterOK(s, b);
    var cur := s.writers[b].pc.cur;
    if cur != NIL { assert Walk(s.mem, cur) == [cur] + Walk(s.mem, s.mem[cur].next); }
  }

  // What follows an unlinking, write by write.
  lemma NextPc(s: Tier, b: nat)
    requires Inv(s) && Enabled(s, Write(b))
    requires var pc := s.writers[b].pc; pc.CutPrev? || pc.FixNext? || pc.PoisonPrev? || pc.Retire?
    ensures var op, pc, w := s.writers[b].op, s.writers[b].pc, Next(s, Write(b)).writers;
            && b < |w| && w[b].Locked?
            && match pc
               case CutPrev(_, tmp) => w[b].pc.FixNext? && w[b].pc.tmp == tmp
               case FixNext(x, tmp, _, _) => w[b].pc == PoisonPrev(x, tmp)
               case PoisonPrev(x, tmp) => w[b].pc == Retire(x, tmp)
               case _ => w[b].pc == if op.StoreOp? then Fill else Scan(pc.tmp)
  {
    assert WriterOK(s, b);
    match s.writers[b].pc
    case CutPrev(x, _) => assert PprevAt(s, x);
    case FixNext(x, _, _, _) => assert Cut(s, x);
    case PoisonPrev(x, _) => assert Cut(s, x);
    case Retire(x, _) => assert Cut(s, x);
  }

  lemma OtherWork(s: Tier, st: Step, t: Tier, b: nat)
    requires Inv(s) && IsStep(s, st, t) && st != Write(b) && b < |s.writers| && s.writers[b].Locked?
    ensures b < |t.writers| && t.writers[b] == s.writers[b] && Work(t, b) == Work(s, b)
  {
    AheadKept(s, st, t, b);
    OtherWriter(s, st, t, b);
  }

  function Writes(steps: seq<Step>, b: nat): nat {
    if steps == [] then 0
    else Writes(steps[..|steps| - 1], b) + (if steps[|steps| - 1] == Write(b) then 1 else 0)
  }

  lemma WorkAt(run: seq<Tier>, steps: seq<Step>, k: nat, b: nat)
    requires IsRun(run, steps) && Initial(run[0]) && k < |steps|
    requires b < |run[k].writers| && run[k].writers[b].Locked? && b < |run[k + 1].writers|
    ensures Work(run[k + 1], b) + (if steps[k] == Write(b) then 1 else 0) <= Work(run[k], b)
  {
    RunInv(run, steps, k);
    assert StepAt(run, steps, k);
    if steps[k] == Write(b) { OwnWork(run[k], b); } else { OtherWork(run[k], steps[k], run[k + 1], b); }
  }

  lemma {:induction false} SectionShrinks(run: seq<Tier>, steps: seq<Step>, i: nat, j: nat, b: nat)
    requires IsRun(run, steps) && Initial(run[0]) && i <= j < |run|
    requires forall k :: i <= k <= j ==> b < |run[k].writers| && run[k].writers[b].Locked?
    ensures Writes(steps[i..j], b) + Work(run[j], b) <= Work(run[i], b)
  {
    if i < j {
      SectionShrinks(run, steps, i, j - 1, b);
      WorkAt(run, steps, j - 1, b);
      assert steps[i..j][..j - i - 1] == steps[i..j - 1];
    } else {
      assert steps[i..j] == [];
    }
  }

  /** A critical section makes fewer than 5 writes for each node its bucket held when it
      was locked, and 5 more; one is always enabled until it unlocks. So it ends, whatever
      readers, callbacks and other sections do meanwhile. */
  lemma SectionEnds(run: seq<Tier>, steps: seq<Step>, i: nat, j: nat, b: nat)
    requires IsRun(run, steps) && Initial(run[0]) && 0 < i <= j < |run|
    requires steps[i - 1].WriteLock? && steps[i - 1].bucket == b
    requires forall k :: i <= k <= j ==> b < |run[k].writers| && run[k].writers[b].Locked?
    ensures Writes(steps[i..j], b) < 5 * |Bucket(run[i], b)| + 5
    ensures Enabled(run[j], Write(b))
  {
    SectionShrinks(run, steps, i, j, b);
    assert StepAt(run, steps, i - 1);
    RunInv(run, steps, i);
    WalkMembers(run[i], HeadAt(run[i], b));
    BucketLength(run[i].mem, Walk(run[i].mem, HeadAt(run[i], b)));
  }

  lemma {:induction false} BucketLength(mem: seq<Node>, ids: seq<nat>)
    requires forall x :: x in ids ==> x < |mem|
    ensures |EntriesAt(mem, ids)| == |ids|
  {
    if ids != [] {
      assert ids[0] in ids && forall x :: x in ids[1..] ==> x in ids;
      BucketLength(mem, ids[1..]);
    }
  }
}
