/** Safety of reclamation in one tier, over every interleaving. */
module RcuSafety {
  import opened RcuTier
  import opened RcuInvariant
  import opened RcuSteps
  import opened RcuRelink

  lemma WriteStep(s: Tier, b: nat)
    requires Inv(s) && Enabled(s, Write(b))
    ensures Inv(Next(s, Write(b)))
  {
    match s.writers[b].pc
    case Scan(_) => ScanStep(s, b);
    case CutPrev(_, _) => CutStep(s, b);
    case FixNext(_, _, _, _) => FixNextStep(s, b);
    case PoisonPrev(_, _) => PoisonStep(s, b);
    case Retire(_, _) => RetireStep(s, b);
    case Fill => FillStep(s, b);
    case Publish(_, _) => PublishStep(s, b);
    case FixFirst(_, _) => FixFirstStep(s, b);
    case Finish => FinishStep(s, b);
  }

  lemma StepInv(s: Tier, st: Step)
    requires Inv(s) && Enabled(s, st)
    ensures Inv(Next(s, st))
  {
    match st
    case Tick => TickStep(s);
    case ReadLock(r, fingerprint, mm) => ReadLockStep(s, r, fingerprint, mm);
    case Read(r) => if s.readers[r].Returning? { LeaveStep(s, r); } else { ReaderStep(s, r); }
    case WriteLock(b, op) => WriteLockStep(s, b, op);
    case Write(b) => WriteStep(s, b);
    case Callback(x) => CallbackStep(s, x);
  }

  lemma {:induction false} RunInv(run: seq<Tier>, steps: seq<Step>, i: nat)
    requires IsRun(run, steps) && Initial(run[0]) && i < |run|
    ensures Inv(run[i])
  {
    if i == 0 {
      InitialInv(run[0]);
    } else {
      RunInv(run, steps, i - 1);
      assert StepAt(run, steps, i - 1);
      StepInv(run[i - 1], steps[i - 1]);
    }
  }

  /** No interleaving of readers, writers and callbacks touches a freed node, by
      a reader or by a writer, queues a node for freeing twice, or frees it twice. */
  lemma {:induction false} NoFault(run: seq<Tier>, steps: seq<Step>)
    requires IsRun(run, steps) && Initial(run[0])
    ensures forall i :: 0 <= i < |run| ==> !run[i].fault
  {
    forall i | 0 <= i < |run| ensures !run[i].fault {
      RunInv(run, steps, i);
    }
  }

  /** From the moment it stands on a node until rcu_read_unlock, a reader keeps
      that node from being freed; the returned entry is covered too. */
  lemma ReaderKeepsItsNode(run: seq<Tier>, steps: seq<Step>, i: nat, r: nat)
    requires IsRun(run, steps) && Initial(run[0]) && i < |run|
    requires r < |run[i].readers| && Cursor(run[i].readers[r]) != NIL
    ensures Allocated(run[i], Cursor(run[i].readers[r]))
  {
    RunInv(run, steps, i);
    assert ReaderOK(run[i], r);
  }

  /** Nothing leaks: a node that has left the list is in its writer's hands,
      queued for freeing, or freed, and exactly one of these. */
  lemma EveryNodeAccounted(run: seq<Tier>, steps: seq<Step>, i: nat, x: nat)
    requires IsRun(run, steps) && Initial(run[0]) && i < |run| && x < |run[i].mem|
    ensures var s := run[i];
            multiset{Linked(s, x), Cut(s, x) || Private(s, x), x in s.pending, x in s.freed}[true] == 1
  {
    RunInv(run, steps, i);
  }
}
