/** Every step of the concurrent tier preserves the invariant. */
module RcuSteps {
  import opened Words
  import opened RcuTier
  import opened RcuInvariant

  // --- what a step of bucket b leaves alone ---

  // t differs from s in bucket b's critical section and its nodes' pprev only.
  predicate OnlyBucket(s: Tier, t: Tier, b: nat) {
    && SameLinks(s, t)
    && |t.writers| == |s.writers|
    && (forall c {:trigger t.writers[c]} :: 0 <= c < |s.writers| && c != b ==> t.writers[c] == s.writers[c])
    && (forall x {:trigger t.mem[x]} :: 0 <= x < |s.mem| && Home(s, x) != b ==> t.mem[x] == s.mem[x])
  }

  // Outside bucket b nothing has changed, neither the nodes nor the list.
  ghost predicate Elsewhere(s: Tier, t: Tier, b: nat) {
    && |t.writers| == |s.writers| && |t.heads| == |s.heads| && |s.mem| <= |t.mem|
    && (forall c {:trigger t.writers[c]} :: 0 <= c < |s.writers| && c != b ==> t.writers[c] == s.writers[c])
    && (forall c {:trigger t.heads[c]} :: 0 <= c < |s.heads| && c != b ==> t.heads[c] == s.heads[c])
    && (forall x {:trigger t.mem[x]} :: 0 <= x < |s.mem| ==>
          t.mem[x].home == s.mem[x].home && (t.mem[x].home != b ==> t.mem[x] == s.mem[x]))
    && (forall x {:trigger Linked(t, x)} :: Home(t, x) != b ==> Linked(t, x) == Linked(s, x))
    && (forall x {:trigger t.mem[x]} :: |s.mem| <= x < |t.mem| ==> t.mem[x].home == b)
  }

  lemma OnlyBucketElsewhere(s: Tier, t: Tier, b: nat)
    requires LinksOK(s) && OnlyBucket(s, t, b)
    requires forall x {:trigger t.mem[x]} :: |s.mem| <= x < |t.mem| ==> t.mem[x].home == b
    ensures Elsewhere(s, t, b)
  {
    SameLinked(s, t);
  }

  lemma OtherWriters(s: Tier, t: Tier, b: nat)
    requires WritersOK(s) && Elsewhere(s, t, b)
    ensures forall c :: 0 <= c < |t.writers| && c != b ==> WriterOK(t, c)
  {
    forall c | 0 <= c < |t.writers| && c != b ensures WriterOK(t, c) {
      assert WriterOK(s, c);
    }
  }

  // The pprev fields of the whole tier, from those of bucket b.
  lemma AllPprevs(s: Tier, t: Tier, b: nat)
    requires PprevOK(s) && Elsewhere(s, t, b)
    requires forall z {:trigger PprevAt(t, z)} :: PprevAt(s, z) && Home(t, z) == b ==> PprevAt(t, z)
    ensures PprevOK(t)
  {
    forall z {:trigger PprevAt(t, z)} ensures PprevAt(t, z) {
      assert PprevAt(s, z);
    }
  }

  // Readers keep what they hold when only cuts become retirements.
  lemma SameReaders(s: Tier, t: Tier)
    requires ReadersOK(s) && t.readers == s.readers && |s.mem| <= |t.mem|
    requires forall r, x :: 0 <= r < |s.readers| && !s.readers[r].Outside? && Holds(s, r, x) ==> Holds(t, r, x)
    ensures ReadersOK(t)
  {
    forall r | 0 <= r < |t.readers| ensures ReaderOK(t, r) {
      assert ReaderOK(s, r);
    }
  }

  // Every node keeps its role from s to t.
  ghost predicate SameStatus(s: Tier, t: Tier) {
    && |t.mem| == |s.mem|
    && t.pending == s.pending && t.freed == s.freed
    && (forall x {:trigger Linked(t, x)} :: Linked(t, x) == Linked(s, x))
    && (forall x {:trigger Cut(t, x)} :: Cut(t, x) == Cut(s, x))
    && (forall x {:trigger Private(t, x)} :: Private(t, x) == Private(s, x))
  }

  lemma RolesKept(s: Tier, t: Tier)
    requires RolesOK(s) && SameStatus(s, t)
    ensures RolesOK(t)
  {
  }

  lemma SuccessorsKept(s: Tier, t: Tier)
    requires RolesOK(s) && SuccessorsOK(s) && SameStatus(s, t) && SameLinks(s, t)
    ensures SuccessorsOK(t)
  {
    forall x {:trigger SuccessorOK(t, x)} ensures SuccessorOK(t, x) {
      assert SuccessorOK(s, x);
    }
  }

  lemma AllSuccessors(s: Tier, t: Tier)
    requires SuccessorsOK(s)
    requires forall x {:trigger SuccessorOK(t, x)} :: SuccessorOK(s, x) ==> SuccessorOK(t, x)
    ensures SuccessorsOK(t)
  {
    forall x {:trigger SuccessorOK(t, x)} ensures SuccessorOK(t, x) {
      assert SuccessorOK(s, x);
    }
  }

  lemma StatusOfBucket(s: Tier, t: Tier, b: nat)
    requires LinksOK(s) && OnlyBucket(s, t, b) && |t.mem| == |s.mem| && b < |s.writers|
    requires t.pending == s.pending && t.freed == s.freed
    requires CutNode(t.writers[b]) == CutNode(s.writers[b]) && NewNode(t.writers[b]) == NewNode(s.writers[b])
    ensures SameStatus(s, t)
  {
    SameLinked(s, t);
  }

  // No node changes its role, no reader moves.
  lemma SameRoles(s: Tier, t: Tier, b: nat)
    requires Inv(s) && OnlyBucket(s, t, b) && |t.mem| == |s.mem| && b < |s.writers|
    requires t.pending == s.pending && t.freed == s.freed && t.readers == s.readers && !t.fault
    requires CutNode(t.writers[b]) == CutNode(s.writers[b]) && NewNode(t.writers[b]) == NewNode(s.writers[b])
    requires WriterOK(t, b)
    requires forall z {:trigger PprevAt(t, z)} :: PprevAt(s, z) && Home(t, z) == b ==> PprevAt(t, z)
    ensures Inv(t)
  {
    StatusOfBucket(s, t, b);
    RolesKept(s, t);
    SuccessorsKept(s, t);
    OnlyBucketElsewhere(s, t, b);
    OtherWriters(s, t, b);
    AllPprevs(s, t, b);
    SameReaders(s, t);
    assert Inside(t) == Inside(s);
    LinksKept(s, t);
  }

  lemma LinksKept(s: Tier, t: Tier)
    requires LinksOK(s) && SameLinks(s, t) && |t.mem| == |s.mem| && |t.writers| == |s.writers|
    ensures LinksOK(t)
  {
    forall x | 0 <= x < |t.mem| && t.mem[x].next != NIL ensures Home(t, t.mem[x].next) == Home(t, x) {
      assert Home(s, s.mem[x].next) == Home(s, x);
    }
  }

  // --- the writer steps that move no node to another role ---

  lemma WriteLockStep(s: Tier, b: nat, op: Op)
    requires Inv(s) && Enabled(s, WriteLock(b, op))
    ensures Inv(Next(s, WriteLock(b, op)))
  {
    var t := Next(s, WriteLock(b, op));
    HeadsLinked(s);
    SameLinked(s, t);
    SameRoles(s, t, b);
  }

  lemma ScanStep(s: Tier, b: nat)
    requires Inv(s) && b < |s.writers| && s.writers[b].Locked? && s.writers[b].pc.Scan?
    ensures Inv(WriteNext(s, b, s.writers[b].op, s.writers[b].pc))
  {
    var t := WriteNext(s, b, s.writers[b].op, s.writers[b].pc);
    assert WriterOK(s, b);
    if s.writers[b].pc.cur != NIL { SuccessorLinked(s, s.writers[b].pc.cur); }
    SameLinked(s, t);
    SameRoles(s, t, b);
  }

  lemma FixNextStep(s: Tier, b: nat)
    requires Inv(s) && b < |s.writers| && s.writers[b].Locked? && s.writers[b].pc.FixNext?
    ensures Inv(WriteNext(s, b, s.writers[b].op, s.writers[b].pc))
  {
    var t := WriteNext(s, b, s.writers[b].op, s.writers[b].pc);
    assert WriterOK(s, b);
    SameLinked(s, t);
    SameRoles(s, t, b);
  }

  lemma PoisonStep(s: Tier, b: nat)
    requires Inv(s) && b < |s.writers| && s.writers[b].Locked? && s.writers[b].pc.PoisonPrev?
    ensures Inv(WriteNext(s, b, s.writers[b].op, s.writers[b].pc))
  {
    var t := WriteNext(s, b, s.writers[b].op, s.writers[b].pc);
    assert WriterOK(s, b);
    assert Cut(s, s.writers[b].pc.x);
    SameLinked(s, t);
    SameRoles(s, t, b);
  }

  lemma FixFirstStep(s: Tier, b: nat)
    requires Inv(s) && b < |s.writers| && s.writers[b].Locked? && s.writers[b].pc.FixFirst?
    ensures Inv(WriteNext(s, b, s.writers[b].op, s.writers[b].pc))
  {
    var t := WriteNext(s, b, s.writers[b].op, s.writers[b].pc);
    assert WriterOK(s, b);
    SuccessorLinked(s, s.writers[b].pc.n);
    SameLinked(s, t);
    SameRoles(s, t, b);
  }

  lemma FinishStep(s: Tier, b: nat)
    requires Inv(s) && b < |s.writers| && s.writers[b].Locked? && s.writers[b].pc.Finish?
    ensures Inv(WriteNext(s, b, s.writers[b].op, s.writers[b].pc))
  {
    var t := WriteNext(s, b, s.writers[b].op, s.writers[b].pc);
    SameLinked(s, t);
    SameRoles(s, t, b);
  }

  // --- a cut node is retired, a new node is filled in ---

  // One cut node becomes pending on every reader inside.
  lemma RetireRoles(s: Tier, t: Tier, x: nat)
    requires RolesOK(s) && WaitsOK(s) && SuccessorsOK(s) && Cut(s, x)
    requires t.mem == s.mem && t.freed == s.freed && Inside(t) == Inside(s)
    requires t.pending == s.pending[x := Inside(s)]
    requires forall y {:trigger Linked(t, y)} :: Linked(t, y) == Linked(s, y)
    requires forall y {:trigger Cut(t, y)} :: Cut(t, y) == (Cut(s, y) && y != x)
    requires forall y {:trigger Private(t, y)} :: Private(t, y) == Private(s, y)
    requires s.mem[x].next == NIL || Linked(s, s.mem[x].next)
    ensures RolesOK(t) && WaitsOK(t) && SuccessorsOK(t)
  {
    forall y {:trigger SuccessorOK(t, y)} ensures SuccessorOK(t, y) {
      assert SuccessorOK(s, y);
    }
  }

  lemma RetireCuts(s: Tier, t: Tier, b: nat, x: nat)
    requires t.mem == s.mem && b < |s.writers| && CutNode(s.writers[b]) == x && Cut(s, x) && Home(s, x) == b
    requires |t.writers| == |s.writers| && t.writers == s.writers[b := t.writers[b]]
    requires CutNode(t.writers[b]) == NIL && NewNode(t.writers[b]) == NewNode(s.writers[b])
    ensures forall y {:trigger Cut(t, y)} :: Cut(t, y) == (Cut(s, y) && y != x)
    ensures forall y {:trigger Private(t, y)} :: Private(t, y) == Private(s, y)
  {
  }

  lemma RetireFrame(s: Tier, t: Tier, b: nat, x: nat)
    requires Inv(s) && OnlyBucket(s, t, b) && t.mem == s.mem && t.readers == s.readers
    requires b < |s.writers| && WriterOK(t, b) && Unrepaired(s.writers[b]) == NIL
    requires t.pending == s.pending[x := Inside(s)]
    requires forall y {:trigger Cut(t, y)} :: Cut(t, y) == (Cut(s, y) && y != x)
    ensures WritersOK(t) && PprevOK(t) && ReadersOK(t)
  {
    SameLinked(s, t);
    OnlyBucketElsewhere(s, t, b);
    OtherWriters(s, t, b);
    AllPprevs(s, t, b);
    SameReaders(s, t);
  }

  lemma RetireStep(s: Tier, b: nat)
    requires Inv(s) && b < |s.writers| && s.writers[b].Locked? && s.writers[b].pc.Retire?
    ensures Inv(WriteNext(s, b, s.writers[b].op, s.writers[b].pc))
  {
    var t := WriteNext(s, b, s.writers[b].op, s.writers[b].pc);
    var x := s.writers[b].pc.x;
    assert WriterOK(s, b);
    assert Cut(s, x);
    SameLinked(s, t);
    assert Inside(t) == Inside(s);
    RetireCuts(s, t, b, x);
    RetireRoles(s, t, x);
    RetireFrame(s, t, b, x);
  }

  // One new node appears, private to its writer.
  lemma FillRoles(s: Tier, t: Tier, n: nat)
    requires LinksOK(s) && RolesOK(s) && SuccessorsOK(s) && SameLinks(s, t)
    requires n == |s.mem| && |t.mem| == n + 1 && t.freed == s.freed && t.pending == s.pending
    requires forall y {:trigger Linked(t, y)} :: 0 <= y < n ==> Linked(t, y) == Linked(s, y)
    requires forall y {:trigger Cut(t, y)} :: 0 <= y < n ==> Cut(t, y) == Cut(s, y)
    requires forall y {:trigger Private(t, y)} :: 0 <= y < n ==> Private(t, y) == Private(s, y)
    requires !Linked(t, n) && !Cut(t, n) && Private(t, n)
    ensures RolesOK(t) && SuccessorsOK(t)
  {
    FillSuccessors(s, t, n);
  }

  lemma FillSuccessors(s: Tier, t: Tier, n: nat)
    requires RolesOK(s) && SuccessorsOK(s) && SameLinks(s, t)
    requires n == |s.mem| && |t.mem| == n + 1 && t.freed == s.freed && t.pending == s.pending
    requires forall y {:trigger Linked(t, y)} :: 0 <= y < n ==> Linked(t, y) == Linked(s, y)
    requires forall y {:trigger Cut(t, y)} :: 0 <= y < n ==> Cut(t, y) == Cut(s, y)
    requires !Linked(t, n) && !Cut(t, n)
    ensures SuccessorsOK(t)
  {
    forall y {:trigger SuccessorOK(t, y)} ensures SuccessorOK(t, y) {
      assert SuccessorOK(s, y);
    }
  }

  lemma FillLinks(s: Tier, t: Tier, b: nat)
    requires LinksOK(s) && b < |s.heads| && t.heads == s.heads && |t.writers| == |s.writers|
    requires |t.mem| == |s.mem| + 1 && t.mem[..|s.mem|] == s.mem
    requires t.mem[|s.mem|].home == b && t.mem[|s.mem|].next == HeadAt(s, b)
    ensures LinksOK(t) && SameLinks(s, t)
  {
    assert forall x :: 0 <= x < |s.mem| ==> t.mem[x] == s.mem[x];
    forall x | 0 <= x < |t.mem| && t.mem[x].next != NIL ensures Home(t, t.mem[x].next) == Home(t, x) {
      if x < |s.mem| { assert Home(s, s.mem[x].next) == Home(s, x); }
    }
  }

  lemma FillStep(s: Tier, b: nat)
    requires Inv(s) && b < |s.writers| && s.writers[b].Locked? && s.writers[b].pc.Fill?
    ensures Inv(WriteNext(s, b, s.writers[b].op, s.writers[b].pc))
  {
    var t := WriteNext(s, b, s.writers[b].op, s.writers[b].pc);
    assert WriterOK(s, b);
    FillLinks(s, t, b);
    SameLinked(s, t);
    assert Inside(t) == Inside(s);
    FillRoles(s, t, |s.mem|);
    OnlyBucketElsewhere(s, t, b);
    OtherWriters(s, t, b);
    AllPprevs(s, t, b);
    SameReaders(s, t);
  }

  // --- readers, the clock and callbacks: no pointer is written ---

  lemma SameList(s: Tier, t: Tier)
    requires Inv(s) && t.mem == s.mem && t.heads == s.heads && t.writers == s.writers
    ensures LinksOK(t) && WritersOK(t) && PprevOK(t)
    ensures forall x :: Linked(t, x) == Linked(s, x) && Cut(t, x) == Cut(s, x) && Private(t, x) == Private(s, x)
  {
    SameLinked(s, t);
    OnlyBucketElsewhere(s, t, |s.writers|);
    OtherWriters(s, t, |s.writers|);
    AllPprevs(s, t, |s.writers|);
  }

  lemma TickStep(s: Tier)
    requires Inv(s)
    ensures Inv(Next(s, Tick))
  {
    var t := Next(s, Tick);
    SameList(s, t);
    AllSuccessors(s, t);
    SameReaders(s, t);
    assert Inside(t) == Inside(s);
  }

  lemma ReadLockStep(s: Tier, r: nat, fingerprint: u64, mm: u64)
    requires Inv(s) && Enabled(s, ReadLock(r, fingerprint, mm))
    ensures Inv(Next(s, ReadLock(r, fingerprint, mm)))
  {
    var t := Next(s, ReadLock(r, fingerprint, mm));
    SameList(s, t);
    AllSuccessors(s, t);
    assert Inside(t) == Inside(s) + {r};
    forall q | 0 <= q < |t.readers| ensures ReaderOK(t, q) {
      assert ReaderOK(s, q);
    }
  }

  // What a reader may stand on next: the head, or the successor of where it is.
  lemma MayMove(s: Tier, r: nat)
    requires Inv(s) && r < |s.readers| && s.readers[r].Moving?
    ensures Allocated(s, s.readers[r].cur)
    ensures var y := s.mem[s.readers[r].cur].next; y == NIL || Holds(s, r, y)
  {
    var x := s.readers[r].cur;
    assert ReaderOK(s, r);
    if Linked(s, x) {
      SuccessorLinked(s, x);
    } else if Cut(s, x) {
      assert WriterOK(s, Home(s, x));
    } else {
      assert SuccessorOK(s, x);
    }
  }

  // A reader inside takes a new position it may hold.
  lemma ReaderMoves(s: Tier, r: nat, rd: Reader)
    requires Inv(s) && r < |s.readers| && !s.readers[r].Outside? && !rd.Outside?
    requires if Cursor(rd) == NIL then !rd.Moving? else 0 <= Cursor(rd) < |s.mem| && Holds(s, r, Cursor(rd))
    ensures Inv(SetReader(s, r, rd))
  {
    var t := SetReader(s, r, rd);
    SameList(s, t);
    AllSuccessors(s, t);
    assert Inside(t) == Inside(s);
    forall q | 0 <= q < |t.readers| ensures ReaderOK(t, q) {
      assert ReaderOK(s, q);
    }
  }

  lemma ReaderStep(s: Tier, r: nat)
    requires Inv(s) && r < |s.readers| && !s.readers[r].Outside? && !s.readers[r].Returning?
    ensures Inv(ReadNext(s, r))
  {
    assert ReaderOK(s, r);
    match s.readers[r]
    case Entered(fingerprint, mm) =>
      HeadsLinked(s);
      ReaderMoves(s, r, Looking(fingerprint, mm, HeadAt(s, fingerprint % |s.heads|)));
    case Looking(fingerprint, mm, cur) =>
      ReaderMoves(s, r, Returning(fingerprint, mm, cur));
      if cur != NIL { ReaderMoves(s, r, Moving(fingerprint, mm, cur)); }
      assert cur == NIL || Allocated(s, cur);
    case Moving(fingerprint, mm, cur) =>
      MayMove(s, r);
      ReaderMoves(s, r, Looking(fingerprint, mm, s.mem[cur].next));
  }

  lemma LeaveStep(s: Tier, r: nat)
    requires Inv(s) && r < |s.readers| && s.readers[r].Returning?
    ensures Inv(ReadNext(s, r))
  {
    var t := ReadNext(s, r);
    SameList(s, t);
    AllSuccessors(s, t);
    assert Inside(t) == Inside(s) - {r};
    forall q | 0 <= q < |t.readers| ensures ReaderOK(t, q) {
      assert ReaderOK(s, q);
    }
  }

  lemma CallbackStep(s: Tier, x: nat)
    requires Inv(s) && Enabled(s, Callback(x))
    ensures Inv(Next(s, Callback(x)))
  {
    var t := Next(s, Callback(x));
    SameList(s, t);
    CallbackSuccessors(s, t, x);
    SameReaders(s, t);
    assert Inside(t) == Inside(s);
  }

  // Nobody waits behind a node whose callback may run.
  lemma CallbackSuccessors(s: Tier, t: Tier, x: nat)
    requires SuccessorsOK(s) && x in s.pending && s.pending[x] == {}
    requires t.mem == s.mem && t.heads == s.heads && t.writers == s.writers && t.pending == s.pending - {x}
    ensures SuccessorsOK(t)
  {
    forall y {:trigger SuccessorOK(t, y)} ensures SuccessorOK(t, y) {
      assert SuccessorOK(s, y);
    }
  }
}
