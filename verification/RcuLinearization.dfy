/** Lookups that overlap stores, purges and callbacks: what a reader returns is what the
    linked list of its bucket would have answered at one moment of its read-side section.
    Against stores that take effect whole that is less than linearizability, and the one
    exception is named: a reader can miss a key that is only being stored again. */
module RcuLinearization {
  import opened Words
  import opened Entries
  import opened Chains
  import opened RcuTier
  import opened RcuInvariant
  import opened RcuRelink
  import opened RcuSafety
  import opened RcuReaders
  import opened RcuWriters

  // --- linked nodes have distinct keys, inside critical sections too ---

  ghost predicate KeysOK(s: Tier, b: nat) {
    forall x, y :: LinkedIn(s, b, x) && LinkedIn(s, b, y) && x != y ==> !SameKey(s.mem[x].e, s.mem[y].e)
  }

  lemma {:induction false} SerialUnique(steps: seq<Step>, b: nat)
    ensures UniqueKeys(Serial(steps, b))
  {
    if steps != [] {
      var st := steps[|steps| - 1];
      var before := Serial(steps[..|steps| - 1], b);
      SerialUnique(steps[..|steps| - 1], b);
      if st.WriteLock? && st.bucket == b {
        match st.op
        case StoreOp(e) => StoreChainUnique(before, e);
        case PurgeOp(mm) => PurgeUnique(before, mm);
      }
    }
  }

  // A bucket holds the entries of its linked nodes and no others.
  lemma {:induction false} EntriesOfNodes(mem: seq<Node>, ids: seq<nat>)
    requires forall x :: x in ids ==> x < |mem|
    ensures forall x :: x in ids ==> mem[x].e in EntriesAt(mem, ids)
    ensures forall e :: e in EntriesAt(mem, ids) ==> exists x :: x in ids && mem[x].e == e
  {
    if ids != [] {
      assert ids[0] in ids && forall x :: x in ids[1..] ==> x in ids;
      EntriesOfNodes(mem, ids[1..]);
      var rest := EntriesAt(mem, ids[1..]);
      assert forall x :: x in ids ==> x == ids[0] || x in ids[1..];
      forall e | e in EntriesAt(mem, ids) ensures exists x :: x in ids && mem[x].e == e {
        if e != mem[ids[0]].e {
          var x :| x in ids[1..] && mem[x].e == e;
          assert x in ids;
        }
      }
    }
  }

  lemma BucketNodes(s: Tier, b: nat)
    requires LinksOK(s) && b < |s.heads|
    ensures forall x :: LinkedIn(s, b, x) ==> s.mem[x].e in Bucket(s, b)
    ensures forall e :: e in Bucket(s, b) ==> exists x :: LinkedIn(s, b, x) && s.mem[x].e == e
  {
    var ids := Walk(s.mem, HeadAt(s, b));
    WalkMembers(s, HeadAt(s, b));
    EntriesOfNodes(s.mem, ids);
    forall e | e in Bucket(s, b) ensures exists x :: LinkedIn(s, b, x) && s.mem[x].e == e {
      var x :| x in ids && s.mem[x].e == e;
      assert LinkedIn(s, b, x);
    }
  }

  lemma KeysKept(s: Tier, t: Tier, b: nat)
    requires KeysOK(s, b) && |s.mem| <= |t.mem|
    requires forall y :: 0 <= y < |s.mem| ==> t.mem[y].e == s.mem[y].e
    requires forall y {:trigger LinkedIn(t, b, y)} :: LinkedIn(t, b, y) ==> LinkedIn(s, b, y)
    ensures KeysOK(t, b)
  {
  }

  // Publishing is the only step that adds a node to a bucket; no other takes part in it.
  predicate Publishes(s: Tier, st: Step, b: nat)
    requires Enabled(s, st)
  {
    st == Write(b) && s.writers[b].pc.Publish?
  }

  lemma OnlyShrinks(s: Tier, st: Step, t: Tier, b: nat)
    requires Good(s, b) && IsStep(s, st, t) && !Publishes(s, st, b)
    ensures |s.mem| <= |t.mem| && forall y :: 0 <= y < |s.mem| ==> t.mem[y].e == s.mem[y].e
    ensures forall y {:trigger LinkedIn(t, b, y)} :: LinkedIn(t, b, y) ==> LinkedIn(s, b, y)
  {
    StepKeepsEntries(s, st);
    if st != Write(b) {
      OtherKept(s, st, t, b);
    } else if s.writers[b].pc.CutPrev? {
      var x := s.writers[b].pc.x;
      CutFacts(s, t, b, x);
      CutLinked(s, t, b, x);
    } else {
      StepLinks(s, st);
      SameLinked(s, t);
    }
  }

  lemma PublishGrows(s: Tier, t: Tier, b: nat)
    requires Good(s, b) && IsStep(s, Write(b), t) && Publishes(s, Write(b), b)
    ensures t.mem == s.mem
    ensures var n := s.writers[b].pc.n;
            && n < |s.mem| && s.writers[b].op.StoreOp? && s.mem[n].e == s.writers[b].op.e
            && forall y {:trigger LinkedIn(t, b, y)} :: LinkedIn(t, b, y) <==> LinkedIn(s, b, y) || y == n
  {
    var n := s.writers[b].pc.n;
    assert WriterOK(s, b);
    assert Private(s, n);
    PublishLinked(s, t, b, n);
  }

  lemma KeysStep(s: Tier, st: Step, t: Tier, b: nat)
    requires Good(s, b) && KeysOK(s, b) && IsStep(s, st, t) && UniqueKeys(Outcome(s, b))
    ensures KeysOK(t, b)
  {
    if Publishes(s, st, b) {
      PublishGrows(s, t, b);
      var e := s.writers[b].op.e;
      BucketNodes(s, b);
      forall y | LinkedIn(s, b, y) ensures !SameKey(s.mem[y].e, e) && !SameKey(e, s.mem[y].e) {
        HeadKeyIsNew(e, Bucket(s, b), s.mem[y].e);
      }
    } else {
      OnlyShrinks(s, st, t, b);
      KeysKept(s, t, b);
    }
  }

  lemma HeadKeyIsNew(e: Entry, ch: Chain, f: Entry)
    requires UniqueKeys([e] + ch) && f in ch
    ensures !SameKey(e, f)
  {
    var i :| 0 <= i < |ch| && ch[i] == f;
    assert ([e] + ch)[0] == e && ([e] + ch)[i + 1] == f;
  }

  lemma {:induction false} RunKeys(run: seq<Tier>, steps: seq<Step>, i: nat, b: nat)
    requires IsRun(run, steps) && Initial(run[0]) && i < |run| && b < |run[0].writers|
    ensures Good(run[i], b) && KeysOK(run[i], b)
  {
    RunSerial(run, steps, i, b);
    if i > 0 {
      RunKeys(run, steps, i - 1, b);
      RunSerial(run, steps, i - 1, b);
      SerialUnique(steps[..i - 1], b);
      assert StepAt(run, steps, i - 1);
      KeysStep(run[i - 1], steps[i - 1], run[i], b);
    }
  }

  lemma {:induction false} RunShape(run: seq<Tier>, steps: seq<Step>, i: nat)
    requires IsRun(run, steps) && Initial(run[0]) && i < |run|
    ensures |run[i].heads| == |run[0].heads| == |run[0].writers|
  {
    if i > 0 {
      RunShape(run, steps, i - 1);
      assert StepAt(run, steps, i - 1);
      StepKeepsEntries(run[i - 1], steps[i - 1]);
    }
  }

  // --- what a bucket answers, by its nodes ---

  function AnswerOf(s: Tier, fingerprint: u64, mm: u64): Option<Entry>
    requires 0 < |s.heads|
  {
    FindLive(Bucket(s, fingerprint % |s.heads|), fingerprint, mm, s.jiffies)
  }

  // z is linked in b and live for the key.
  predicate Offers(s: Tier, b: nat, fingerprint: u64, mm: u64, z: int) {
    LinkedIn(s, b, z) && Live(s.mem[z].e, fingerprint, mm, s.jiffies)
  }

  lemma SomeoneOffers(s: Tier, fingerprint: u64, mm: u64) returns (z: nat)
    requires LinksOK(s) && AnswerOf(s, fingerprint, mm).Some?
    ensures Offers(s, fingerprint % |s.heads|, fingerprint, mm, z)
    ensures AnswerOf(s, fingerprint, mm) == Some(s.mem[z].e)
  {
    var b := fingerprint % |s.heads|;
    FindLiveIn(Bucket(s, b), fingerprint, mm, s.jiffies);
    BucketNodes(s, b);
    z :| LinkedIn(s, b, z) && s.mem[z].e == AnswerOf(s, fingerprint, mm).value;
  }

  lemma OfferIsAnswer(s: Tier, fingerprint: u64, mm: u64, z: nat)
    requires LinksOK(s) && KeysOK(s, fingerprint % |s.heads|)
    requires Offers(s, fingerprint % |s.heads|, fingerprint, mm, z)
    ensures AnswerOf(s, fingerprint, mm) == Some(s.mem[z].e)
  {
    var b := fingerprint % |s.heads|;
    BucketNodes(s, b);
    FindLiveFirst(Bucket(s, b), fingerprint, mm, s.jiffies);
    var y := SomeoneOffers(s, fingerprint, mm);
  }

  // No step hands a live match over from one node to another.
  lemma NoHandover(s: Tier, st: Step, t: Tier, b: nat, fingerprint: u64, mm: u64, z: nat, w: nat)
    requires Good(s, b) && KeysOK(s, b) && KeysOK(t, b) && IsStep(s, st, t)
    requires Offers(s, b, fingerprint, mm, z) && Offers(t, b, fingerprint, mm, w)
    ensures w == z
  {
    StepKeepsEntries(s, st);
    if Publishes(s, st, b) {
      PublishGrows(s, t, b);
      assert LinkedIn(t, b, z);
    } else {
      OnlyShrinks(s, st, t, b);
      assert LinkedIn(s, b, w);
    }
  }

  ghost predicate Answers(run: seq<Tier>, k: nat, fingerprint: u64, mm: u64) {
    k < |run| && 0 < |run[k].heads| && AnswerOf(run[k], fingerprint, mm).Some?
  }

  // While the bucket always has an answer, it is always the same node.
  lemma {:induction false} SameNodeOffers(run: seq<Tier>, steps: seq<Step>, i: nat, j: nat, fingerprint: u64, mm: u64)
    returns (z: nat)
    requires IsRun(run, steps) && Initial(run[0]) && i <= j < |run|
    requires forall k :: i <= k <= j ==> Answers(run, k, fingerprint, mm)
    ensures forall k :: i <= k <= j ==> Offers(run[k], fingerprint % |run[0].heads|, fingerprint, mm, z)
  {
    var b := fingerprint % |run[0].heads|;
    assert Answers(run, j, fingerprint, mm);
    RunShape(run, steps, j);
    RunInv(run, steps, j);
    z := SomeoneOffers(run[j], fingerprint, mm);
    if i < j {
      var y := SameNodeOffers(run, steps, i, j - 1, fingerprint, mm);
      NoHandoverAt(run, steps, j - 1, b, fingerprint, mm, y, z);
    }
  }

  lemma NoHandoverAt(run: seq<Tier>, steps: seq<Step>, k: nat, b: nat, fingerprint: u64, mm: u64, z: nat, w: nat)
    requires IsRun(run, steps) && Initial(run[0]) && k < |steps| && b < |run[0].writers|
    requires Offers(run[k], b, fingerprint, mm, z) && Offers(run[k + 1], b, fingerprint, mm, w)
    ensures w == z
  {
    RunKeys(run, steps, k, b);
    RunKeys(run, steps, k + 1, b);
    assert StepAt(run, steps, k);
    NoHandover(run[k], steps[k], run[k + 1], b, fingerprint, mm, z, w);
  }

  /** A miss is linearizable against the linked list: a reader that comes back empty-handed did so for a moment
      of its own read-side section at which its bucket held no live entry of the key,
      however many stores and purges ran meanwhile. */
  lemma MissIsLinearizable(run: seq<Tier>, steps: seq<Step>, i: nat, j: nat, r: nat, fingerprint: u64, mm: u64)
    requires IsRun(run, steps) && Initial(run[0]) && i <= j < |run|
    requires forall k :: i <= k <= j ==> InSection(run[k], r)
    requires InSection(run[i], r) && run[i].readers[r] == Entered(fingerprint, mm)
    requires InSection(run[j], r) && run[j].readers[r] == Returning(fingerprint, mm, NIL)
    ensures exists k :: i <= k <= j && 0 < |run[k].heads| && AnswerOf(run[k], fingerprint, mm) == None
  {
    if forall k :: i <= k <= j ==> Answers(run, k, fingerprint, mm) {
      var z := SameNodeOffers(run, steps, i, j, fingerprint, mm);
      forall k | i <= k <= j ensures Stays(run[k], r, z, fingerprint, mm) {
        assert InSection(run[k], r) && Offers(run[k], fingerprint % |run[0].heads|, fingerprint, mm, z);
      }
      NeverMisses(run, steps, i, j, r, z, fingerprint, mm);
    } else {
      var k :| i <= k <= j && !Answers(run, k, fingerprint, mm);
      RunInv(run, steps, k);
    }
  }

  // --- a miss and the serial order ---

  // The serial chain before the operation that last locked bucket b.
  function Before(steps: seq<Step>, b: nat): Chain {
    if steps == [] then []
    else
      var st, front := steps[|steps| - 1], steps[..|steps| - 1];
      if st.WriteLock? && st.bucket == b then Serial(front, b) else Before(front, b)
  }

  // The bucket's writer has taken off the old entry of a key and not yet linked the new one.
  predicate BeingReplaced(s: Tier, b: nat, fingerprint: u64, mm: u64) {
    && b < |s.writers| && s.writers[b].Locked?
    && match s.writers[b].op
       case PurgeOp(_) => false
       case StoreOp(e) => Matches(e, fingerprint, mm) && Amidst(s.writers[b].pc)
  }

  predicate Amidst(pc: Pc) {
    pc.FixNext? || pc.PoisonPrev? || pc.Retire? || pc.Fill? || pc.Publish?
  }

  // A store that has not cut anything yet.
  predicate Untouched(s: Tier, b: nat)
    requires b < |s.writers|
  {
    s.writers[b].Locked? && s.writers[b].op.StoreOp? && (s.writers[b].pc.Scan? || s.writers[b].pc.CutPrev?)
  }

  lemma UntouchedStep(s: Tier, st: Step, t: Tier, b: nat)
    requires Good(s, b) && IsStep(s, st, t) && b < |t.writers| && Untouched(t, b)
    ensures Bucket(t, b) == Bucket(s, b)
    ensures st.WriteLock? && st.bucket == b ==> s.writers[b].Unlocked?
    ensures !(st.WriteLock? && st.bucket == b) ==> Untouched(s, b)
  {
    if st == Write(b) {
      UntouchedWrite(s, t, b);
    } else {
      OtherKept(s, st, t, b);
      if !(st.WriteLock? && st.bucket == b) { OtherWriter(s, st, t, b); }
    }
  }

  lemma UntouchedWrite(s: Tier, t: Tier, b: nat)
    requires Good(s, b) && IsStep(s, Write(b), t) && b < |t.writers| && Untouched(t, b)
    ensures Bucket(t, b) == Bucket(s, b) && Untouched(s, b)
  {
    assert WriterOK(s, b);
    WriteKeepsOps(s, b);
    match s.writers[b].pc
    case Scan(_) =>
      StepLinks(s, Write(b));
      SameBucket(s, t, b);
    case Retire(x, _) => RepairLinks(s, t, b);
    case PoisonPrev(x, _) => RepairLinks(s, t, b);
    case FixNext(_, _, _, _) => RepairLinks(s, t, b);
    case _ =>
  }

  lemma {:induction false} RunBefore(run: seq<Tier>, steps: seq<Step>, i: nat, b: nat)
    requires IsRun(run, steps) && Initial(run[0]) && i < |run| && b < |run[0].writers|
    requires b < |run[i].writers| && Untouched(run[i], b)
    ensures Bucket(run[i], b) == Before(steps[..i], b)
  {
    if i > 0 {
      RunSerial(run, steps, i - 1, b);
      assert StepAt(run, steps, i - 1);
      UntouchedStep(run[i - 1], steps[i - 1], run[i], b);
      assert steps[..i][..i - 1] == steps[..i - 1];
      if !(steps[i - 1].WriteLock? && steps[i - 1].bucket == b) {
        RunBefore(run, steps, i - 1, b);
      }
    }
  }

  lemma FewerFindLess(ch: Chain, less: Chain, fingerprint: u64, mm: u64, jiffies: u64)
    requires FindLive(ch, fingerprint, mm, jiffies) == None
    requires forall x :: x in less ==> x in ch || !Matches(x, fingerprint, mm)
    ensures FindLive(less, fingerprint, mm, jiffies) == None
  {
    FindLiveFirst(ch, fingerprint, mm, jiffies);
    FindLiveFirst(less, fingerprint, mm, jiffies);
  }

  // A bucket without a live entry of the key, against the chain it is on its way to.
  lemma OutcomeFindsNone(s: Tier, b: nat, fingerprint: u64, mm: u64)
    requires b < |s.writers| && FindLive(Bucket(s, b), fingerprint, mm, s.jiffies) == None
    requires s.writers[b].Locked? && s.writers[b].op.StoreOp? && Matches(s.writers[b].op.e, fingerprint, mm) ==>
               s.writers[b].pc.FixFirst? || s.writers[b].pc.Finish?
    ensures FindLive(Outcome(s, b), fingerprint, mm, s.jiffies) == None
  {
    var ch := Bucket(s, b);
    if s.writers[b].Locked? {
      match s.writers[b].op
      case PurgeOp(m) => PurgeExact(ch, m);
      case StoreOp(e) => RemoveFirstKeeps(ch, e.fingerprint, e.mm);
    }
    FewerFindLess(ch, Outcome(s, b), fingerprint, mm, s.jiffies);
  }

  /** Against operations that take effect whole, a miss is explained at some moment of the
      section by the serial chain, or by the one before the operation under way, or else
      the bucket's writer was just then replacing an entry of the very key asked for. */
  lemma MissIsExplained(run: seq<Tier>, steps: seq<Step>, i: nat, j: nat, r: nat, fingerprint: u64, mm: u64)
    requires IsRun(run, steps) && Initial(run[0]) && i <= j < |run|
    requires forall k :: i <= k <= j ==> InSection(run[k], r)
    requires InSection(run[i], r) && run[i].readers[r] == Entered(fingerprint, mm)
    requires InSection(run[j], r) && run[j].readers[r] == Returning(fingerprint, mm, NIL)
    ensures exists k :: i <= k <= j && 0 < |run[k].heads| && MissAt(run[k], steps[..k], fingerprint, mm)
  {
    MissIsLinearizable(run, steps, i, j, r, fingerprint, mm);
    var k :| i <= k <= j && 0 < |run[k].heads| && AnswerOf(run[k], fingerprint, mm) == None;
    var b := fingerprint % |run[k].heads|;
    RunShape(run, steps, k);
    RunSerial(run, steps, k, b);
    if Untouched(run[k], b) {
      RunBefore(run, steps, k, b);
    } else if !BeingReplaced(run[k], b, fingerprint, mm) {
      OutcomeFindsNone(run[k], b, fingerprint, mm);
    }
    assert MissAt(run[k], steps[..k], fingerprint, mm);
  }

  predicate MissAt(s: Tier, steps: seq<Step>, fingerprint: u64, mm: u64)
    requires 0 < |s.heads|
  {
    var b := fingerprint % |s.heads|;
    || FindLive(Serial(steps, b), fingerprint, mm, s.jiffies) == None
    || (b < |s.writers| && s.writers[b].Locked? && FindLive(Before(steps, b), fingerprint, mm, s.jiffies) == None)
    || BeingReplaced(s, b, fingerprint, mm)
  }

  // --- a miss while the key is only being stored again ---

  const ONE_BUCKET := Tier([], [NIL], [Unlocked], [Outside], map[], {}, 0, false)

  // One bucket, one reader: e is stored, f of the same key is about to replace it.
  function Schedule(e: Entry, f: Entry): seq<Step> {
    [WriteLock(0, StoreOp(e)), Write(0), Write(0), Write(0), Write(0), Write(0),
     WriteLock(0, StoreOp(f)), Write(0), ReadLock(0, f.fingerprint, f.mm), Write(0), Read(0), Read(0)]
  }

  function Missing(e: Entry, f: Entry): seq<Tier> {
    var s0 := ONE_BUCKET;
    var n, cut := Node(e, 0, NIL, HeadOf(0)), Locked(StoreOp(f), FixNext(0, NIL, NIL, HeadOf(0)));
    [s0,
     s0.(writers := [Locked(StoreOp(e), Scan(NIL))]),
     s0.(writers := [Locked(StoreOp(e), Fill)]),
     s0.(mem := [n], writers := [Locked(StoreOp(e), Publish(0, NIL))]),
     s0.(mem := [n], heads := [0], writers := [Locked(StoreOp(e), FixFirst(0, NIL))]),
     s0.(mem := [n], heads := [0], writers := [Locked(StoreOp(e), Finish)]),
     s0.(mem := [n], heads := [0]),
     s0.(mem := [n], heads := [0], writers := [Locked(StoreOp(f), Scan(0))]),
     s0.(mem := [n], heads := [0], writers := [Locked(StoreOp(f), CutPrev(0, NIL))]),
     s0.(mem := [n], heads := [0], writers := [Locked(StoreOp(f), CutPrev(0, NIL))],
         readers := [Entered(f.fingerprint, f.mm)]),
     s0.(mem := [n], writers := [cut], readers := [Entered(f.fingerprint, f.mm)]),
     s0.(mem := [n], writers := [cut], readers := [Looking(f.fingerprint, f.mm, NIL)]),
     s0.(mem := [n], writers := [cut], readers := [Returning(f.fingerprint, f.mm, NIL)])]
  }

  /** That last case happens: a run in which a reader misses a key of which both the entry
      before and the entry after the store under way are unexpired throughout. */
  lemma MissesWhileReplaced(e: Entry, f: Entry)
    requires SameKey(e, f) && TimeBefore(0, e.expiry) && TimeBefore(0, f.expiry)
    ensures var run, steps := Missing(e, f), Schedule(e, f);
            && IsRun(run, steps) && Initial(run[0])
            && run[9].readers[0] == Entered(f.fingerprint, f.mm)
            && run[12].readers[0] == Returning(f.fingerprint, f.mm, NIL)
            && (forall k :: 9 <= k <= 12 ==>
                  && run[k].jiffies == 0
                  && FindLive(Before(steps[..k], 0), f.fingerprint, f.mm, 0) == Some(e)
                  && FindLive(Serial(steps[..k], 0), f.fingerprint, f.mm, 0) == Some(f))
  {
    var run, steps := Missing(e, f), Schedule(e, f);
    forall i {:trigger StepAt(run, steps, i)} | 0 <= i < |steps| ensures StepAt(run, steps, i) {
      MissingSteps(e, f, i);
    }
    forall k | 9 <= k <= 12
      ensures FindLive(Before(steps[..k], 0), f.fingerprint, f.mm, 0) == Some(e)
      ensures FindLive(Serial(steps[..k], 0), f.fingerprint, f.mm, 0) == Some(f)
    {
      ScheduleChains(e, f, k);
    }
  }

  lemma MissingSteps(e: Entry, f: Entry, i: nat)
    requires SameKey(e, f) && i < 12
    ensures StepAt(Missing(e, f), Schedule(e, f), i)
  {
  }

  lemma {:induction false} ScheduleChains(e: Entry, f: Entry, k: nat)
    requires SameKey(e, f) && k <= 12
    ensures Serial(Schedule(e, f)[..k], 0) == if k == 0 then [] else if k < 7 then [e] else [f]
    ensures k >= 7 ==> Before(Schedule(e, f)[..k], 0) == [e]
  {
    if k > 0 {
      ScheduleChains(e, f, k - 1);
      assert Schedule(e, f)[..k][..k - 1] == Schedule(e, f)[..k - 1];
    }
  }

  // --- hits ---

  function TicksIn(steps: seq<Step>): nat {
    if steps == [] then 0
    else TicksIn(steps[..|steps| - 1]) + (if steps[|steps| - 1].Tick? then 1 else 0)
  }

  lemma JiffiesStep(s: Tier, st: Step, t: Tier)
    requires IsStep(s, st, t)
    ensures t.jiffies == if st.Tick? then Wrap(s.jiffies + 1) else s.jiffies
  {
  }

  lemma {:induction false} ClockAt(run: seq<Tier>, steps: seq<Step>, i: nat, k: nat)
    requires IsRun(run, steps) && i <= k < |run|
    ensures run[k].jiffies == Wrap(run[i].jiffies + TicksIn(steps[i..k]))
  {
    if i < k {
      ClockAt(run, steps, i, k - 1);
      assert StepAt(run, steps, k - 1);
      JiffiesStep(run[k - 1], steps[k - 1], run[k]);
      assert steps[i..k][..k - i - 1] == steps[i..k - 1];
      WrapSuccessor(run[i].jiffies + TicksIn(steps[i..k - 1]));
    } else {
      assert steps[i..k] == [];
    }
  }

  lemma WrapSuccessor(x: nat)
    ensures Wrap(Wrap(x) + 1) == Wrap(x + 1)
  {
    ModCongruent(x);
    ModShift(Wrap(x) + 1, x / WORD);
  }

  lemma {:induction false} TicksGrow(steps: seq<Step>, i: nat, k: nat, j: nat)
    requires i <= k <= j <= |steps|
    ensures TicksIn(steps[i..k]) <= TicksIn(steps[i..j])
  {
    if k < j {
      TicksGrow(steps, i, k, j - 1);
      assert steps[i..j][..j - i - 1] == steps[i..j - 1];
    }
  }

  // Not expired now and not expired n' < 2^63 ticks later: not expired in between.
  lemma LiveBetween(a: u64, n: nat, n': nat, x: u64)
    requires n <= n' < HALF && TimeBefore(a, x) && TimeBefore(Wrap(a + n'), x)
    ensures TimeBefore(Wrap(a + n), x)
  {
    AheadBy(a, n, x);
    AheadBy(a, n', x);
  }

  lemma AheadBy(a: u64, n: nat, x: u64)
    requires n < HALF && TimeBefore(a, x)
    ensures TimeBefore(Wrap(a + n), x) <==> Wrap(a - x) + n < WORD
  {
    Shifted(a, n, x);
    var w := Wrap(a - x) + n;
    ModCongruent(w);
    assert w % WORD == if w < WORD then w else w - WORD;
  }

  lemma Shifted(a: int, n: int, x: int)
    ensures Wrap(Wrap(a + n) - x) == Wrap(Wrap(a - x) + n)
  {
    var p, q := (a - x) / WORD, (a + n) / WORD;
    ModCongruent(a - x);
    ModCongruent(a + n);
    assert Wrap(a + n) - x == Wrap(a - x) + n + WORD * (p - q);
    ModShift(Wrap(a - x) + n, p - q);
  }

  lemma {:induction false} EntriesStay(run: seq<Tier>, steps: seq<Step>, i: nat, j: nat, x: nat)
    requires IsRun(run, steps) && i <= j < |run| && x < |run[i].mem|
    ensures x < |run[j].mem| && run[j].mem[x].e == run[i].mem[x].e
  {
    if i < j {
      EntriesStay(run, steps, i, j - 1, x);
      assert StepAt(run, steps, j - 1);
      StepKeepsEntries(run[j - 1], steps[j - 1]);
    }
  }

  /** A hit is linearizable too: the entry returned is what the bucket answered at one
      moment of the section, if it was unexpired when the section began as well and the
      section lasted less than 2^63 ticks. */
  lemma HitIsLinearizable(run: seq<Tier>, steps: seq<Step>, i: nat, j: nat, r: nat, fingerprint: u64, mm: u64, x: nat)
    requires IsRun(run, steps) && Initial(run[0]) && i <= j < |run| && TicksIn(steps[i..j]) < HALF
    requires forall k :: i <= k <= j ==> InSection(run[k], r)
    requires InSection(run[i], r) && run[i].readers[r] == Entered(fingerprint, mm)
    requires InSection(run[j], r) && run[j].readers[r] == Returning(fingerprint, mm, x)
    requires x < |run[j].mem| && TimeBefore(run[i].jiffies, run[j].mem[x].e.expiry)
    ensures exists k :: i <= k <= j && 0 < |run[k].heads| && x < |run[k].mem|
                        && AnswerOf(run[k], fingerprint, mm) == Some(run[k].mem[x].e)
  {
    var k' := HitMoment(run, steps, i, j, r, fingerprint, mm, x);
    SeesOnlyLinked(run, steps, i, k', r);
    var k :| i <= k <= k' && Linked(run[k], x);
    EntriesStay(run, steps, k, k', x);
    EntriesStay(run, steps, k', j, x);
    UnexpiredBetween(run, steps, i, k, k', j, run[j].mem[x].e.expiry);
    HitAnswered(run, steps, k, fingerprint, mm, x);
  }

  lemma UnexpiredBetween(run: seq<Tier>, steps: seq<Step>, i: nat, k: nat, k': nat, j: nat, expiry: u64)
    requires IsRun(run, steps) && i <= k <= k' <= j < |run| && TicksIn(steps[i..j]) < HALF
    requires TimeBefore(run[i].jiffies, expiry) && TimeBefore(run[k'].jiffies, expiry)
    ensures TimeBefore(run[k].jiffies, expiry)
  {
    TicksGrow(steps, i, k, k');
    TicksGrow(steps, i, k', j);
    ClockAt(run, steps, i, k);
    ClockAt(run, steps, i, k');
    LiveBetween(run[i].jiffies, TicksIn(steps[i..k]), TicksIn(steps[i..k']), expiry);
  }

  lemma HitAnswered(run: seq<Tier>, steps: seq<Step>, k: nat, fingerprint: u64, mm: u64, x: nat)
    requires IsRun(run, steps) && Initial(run[0]) && k < |run|
    requires Linked(run[k], x) && Live(run[k].mem[x].e, fingerprint, mm, run[k].jiffies)
    ensures 0 < |run[k].heads| && AnswerOf(run[k], fingerprint, mm) == Some(run[k].mem[x].e)
  {
    RunShape(run, steps, k);
    RunHomes(run, steps, k);
    RunKeys(run, steps, k, fingerprint % |run[0].heads|);
    OfferIsAnswer(run[k], fingerprint, mm, x);
  }
}
