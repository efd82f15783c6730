/** Each critical section, however its pointer writes interleave with readers,
    callbacks and the other buckets, has on its bucket the effect of one atomic
    store or purge of the chain. */
module RcuWriters {
  import opened Words
  import opened Entries
  import opened Chains
  import opened RcuTier
  import opened RcuInvariant
  import opened RcuRelink
  import opened RcuSafety
  import opened RcuReaders

  function Effect(op: Op, ch: Chain): Chain {
    match op
    case StoreOp(e) => StoreChain(ch, e)
    case PurgeOp(mm) => Purge(ch, mm)
  }

  // What bucket b will hold when the critical section now running is over.
  function Outcome(s: Tier, b: nat): Chain
    requires b < |s.writers|
  {
    match s.writers[b]
    case Unlocked => Bucket(s, b)
    case Locked(op, pc) =>
      match op
      case PurgeOp(mm) => Purge(Bucket(s, b), mm)
      case StoreOp(e) =>
        if pc.Scan? || pc.CutPrev? then StoreChain(Bucket(s, b), e)
        else if pc.FixFirst? || pc.Finish? then Bucket(s, b)
        else [e] + Bucket(s, b)
  }

  // --- the part of the bucket already scanned is clean ---

  // The walk has passed every linked node newer than `bound`.
  ghost predicate CleanAbove(s: Tier, b: nat, op: Op, bound: int) {
    forall y {:trigger Linked(s, y)} :: LinkedIn(s, b, y) && y > bound ==> !Doomed(op, s.mem[y].e)
  }

  ghost predicate ScanOK(s: Tier, b: nat)
    requires b < |s.writers|
  {
    match s.writers[b]
    case Unlocked => true
    case Locked(op, pc) =>
      match pc
      case Scan(cur) => CleanAbove(s, b, op, cur)
      case CutPrev(x, _) => CleanAbove(s, b, op, x) && x < |s.mem| && Doomed(op, s.mem[x].e)
      case FixNext(_, tmp, _, _) => op.PurgeOp? ==> CleanAbove(s, b, op, tmp)
      case PoisonPrev(_, tmp) => op.PurgeOp? ==> CleanAbove(s, b, op, tmp)
      case Retire(_, tmp) => op.PurgeOp? ==> CleanAbove(s, b, op, tmp)
      case Publish(n, _) => op.StoreOp? && n < |s.mem| && s.mem[n].e == op.e
      case Finish => op.PurgeOp? ==> CleanAbove(s, b, op, NIL)
      case _ => op.StoreOp?
  }

  ghost predicate Good(s: Tier, b: nat) {
    Inv(s) && b < |s.writers| && ScanOK(s, b)
  }

  // --- walks as lists of entries ---

  lemma {:induction false} SameEntries(m: seq<Node>, m': seq<Node>, ids: seq<nat>)
    requires |m| <= |m'| && forall x :: 0 <= x < |m| ==> m'[x].e == m[x].e
    requires forall x :: x in ids ==> x < |m|
    ensures EntriesAt(m', ids) == EntriesAt(m, ids)
  {
    if ids != [] {
      assert ids[0] in ids && forall x :: x in ids[1..] ==> x in ids;
      SameEntries(m, m', ids[1..]);
    }
  }

  function Drop(ids: seq<nat>, x: nat): seq<nat> {
    if ids == [] then []
    else if ids[0] == x then ids[1..]
    else [ids[0]] + Drop(ids[1..], x)
  }

  lemma {:induction false} BypassWalk(s: Tier, a: nat, x: nat, p: int)
    requires LinksOK(s) && a < |s.mem| && x < |s.mem| && s.mem[a].next == x && NIL <= p < |s.mem|
    requires a in Walk(s.mem, p)
    ensures Walk(Bypass(s.mem, a, x), p) == Drop(Walk(s.mem, p), x)
    decreases p
  {
    var mem' := Bypass(s.mem, a, x);
    WalkMembers(s, s.mem[p].next);
    assert Walk(s.mem, p)[1..] == Walk(s.mem, s.mem[p].next);
    if p == a {
      var q := s.mem[x].next;
      WalkMembers(s, q);
      WalkBypass(s, a, x, q);
      SameAbove(s, mem', a, q);
      assert Walk(s.mem, x) == [x] + Walk(s.mem, q);
      assert Walk(s.mem, x)[1..] == Walk(s.mem, q);
      assert Walk(mem', p) == [a] + Walk(mem', q);
    } else {
      BypassWalk(s, a, x, s.mem[p].next);
      WalkMembers(s, p);
      assert x != p by { XBelow(s, a, x, p); }
    }
  }

  // Nodes below `a` do not see the change at `a`.
  lemma {:induction false} SameAbove(s: Tier, mem': seq<Node>, a: nat, q: int)
    requires LinksOK(s) && |mem'| == |s.mem| && NIL <= q < a < |s.mem|
    requires forall x :: 0 <= x < |s.mem| && x != a ==> mem'[x] == s.mem[x]
    ensures Walk(mem', q) == Walk(s.mem, q)
    decreases q
  {
    if q != NIL { SameAbove(s, mem', a, s.mem[q].next); }
  }

  lemma XBelow(s: Tier, a: nat, x: nat, p: nat)
    requires LinksOK(s) && a < |s.mem| && p < |s.mem| && s.mem[a].next == x && a in Walk(s.mem, p)
    ensures x < a <= p
  {
    WalkMembers(s, p);
  }

  // In a walk, dropping the first doomed node is removing the first match.
  lemma {:induction false} DropIsRemove(s: Tier, p: int, x: nat, e: Entry)
    requires LinksOK(s) && NIL <= p < |s.mem| && x in Walk(s.mem, p) && x < |s.mem| && SameKey(s.mem[x].e, e)
    requires forall y :: y in Walk(s.mem, p) && y > x && y < |s.mem| ==> !SameKey(s.mem[y].e, e)
    ensures EntriesAt(s.mem, Drop(Walk(s.mem, p), x))
            == RemoveFirst(EntriesAt(s.mem, Walk(s.mem, p)), e.fingerprint, e.mm)
    decreases p
  {
    WalkMembers(s, p);
    var q := s.mem[p].next;
    assert Walk(s.mem, p)[1..] == Walk(s.mem, q);
    assert EntriesAt(s.mem, Walk(s.mem, p))[1..] == EntriesAt(s.mem, Walk(s.mem, q));
    if p != x {
      assert x in Walk(s.mem, q);
      DropIsRemove(s, q, x, e);
    }
  }

  lemma {:induction false} DropIsPurged(s: Tier, p: int, x: nat, mm: u64)
    requires LinksOK(s) && NIL <= p < |s.mem| && x in Walk(s.mem, p) && x < |s.mem| && s.mem[x].e.mm == mm
    ensures Purge(EntriesAt(s.mem, Drop(Walk(s.mem, p), x)), mm)
            == Purge(EntriesAt(s.mem, Walk(s.mem, p)), mm)
    decreases p
  {
    WalkMembers(s, p);
    var q := s.mem[p].next;
    assert Walk(s.mem, p)[1..] == Walk(s.mem, q);
    assert EntriesAt(s.mem, Walk(s.mem, p))[1..] == EntriesAt(s.mem, Walk(s.mem, q));
    if p != x {
      assert x in Walk(s.mem, q);
      DropIsPurged(s, q, x, mm);
      var d := EntriesAt(s.mem, Drop(Walk(s.mem, p), x));
      assert d[1..] == EntriesAt(s.mem, Drop(Walk(s.mem, q), x));
    }
  }

  // Nothing doomed is left: the removal loops have nothing to do.
  lemma {:induction false} CleanWalk(s: Tier, p: int, op: Op)
    requires LinksOK(s) && NIL <= p < |s.mem|
    requires forall y :: y in Walk(s.mem, p) && y < |s.mem| ==> !Doomed(op, s.mem[y].e)
    ensures var ch := EntriesAt(s.mem, Walk(s.mem, p));
            match op
            case StoreOp(e) => RemoveFirst(ch, e.fingerprint, e.mm) == ch
            case PurgeOp(mm) => Purge(ch, mm) == ch
    decreases p
  {
    if p != NIL {
      var q := s.mem[p].next;
      assert Walk(s.mem, p)[1..] == Walk(s.mem, q);
      assert forall y :: y in Walk(s.mem, q) ==> y in Walk(s.mem, p);
      assert EntriesAt(s.mem, Walk(s.mem, p))[1..] == EntriesAt(s.mem, Walk(s.mem, q));
      CleanWalk(s, q, op);
    }
  }

  lemma CleanBucket(s: Tier, b: nat, op: Op)
    requires LinksOK(s) && b < |s.heads| && CleanAbove(s, b, op, NIL)
    ensures Effect(op, Bucket(s, b)) == match op case StoreOp(e) => [e] + Bucket(s, b) case PurgeOp(_) => Bucket(s, b)
  {
    WalkMembers(s, HeadAt(s, b));
    forall y | y in Walk(s.mem, HeadAt(s, b)) && y < |s.mem| ensures !Doomed(op, s.mem[y].e) {
      assert LinkedIn(s, b, y);
    }
    CleanWalk(s, HeadAt(s, b), op);
  }

  // --- the steps ---

  lemma SameBucket(s: Tier, t: Tier, b: nat)
    requires LinksOK(s) && SameLinks(s, t) && b < |s.heads|
    ensures Bucket(t, b) == Bucket(s, b)
    ensures forall y :: LinkedIn(t, b, y) == LinkedIn(s, b, y)
  {
    SameLinked(s, t);
    SameWalk(s, t, HeadAt(s, b));
    WalkMembers(s, HeadAt(s, b));
    SameEntries(s.mem, t.mem, Walk(s.mem, HeadAt(s, b)));
  }

  // Neighbours in the list: nothing linked lies strictly between x and its next.
  lemma {:induction false} Adjacent(s: Tier, p: int, x: nat, y: nat)
    requires LinksOK(s) && NIL <= p < |s.mem| && x in Walk(s.mem, p) && y in Walk(s.mem, p) && x < |s.mem|
    ensures y < x ==> y <= s.mem[x].next
    decreases p
  {
    WalkMembers(s, p);
    var q := s.mem[p].next;
    WalkMembers(s, q);
    assert Walk(s.mem, p) == [p] + Walk(s.mem, q);
    if x != p && y != p { Adjacent(s, q, x, y); }
  }

  lemma CleanBelow(s: Tier, b: nat, op: Op, x: nat)
    requires LinksOK(s) && LinkedIn(s, b, x) && CleanAbove(s, b, op, x) && !Doomed(op, s.mem[x].e)
    ensures CleanAbove(s, b, op, s.mem[x].next)
  {
    forall y: int | LinkedIn(s, b, y) && y > s.mem[x].next ensures !Doomed(op, s.mem[y].e) {
      Adjacent(s, HeadAt(s, b), x, y);
    }
  }

  lemma CleanKept(s: Tier, t: Tier, b: nat, op: Op, bound: int)
    requires CleanAbove(s, b, op, bound) && |s.mem| <= |t.mem|
    requires forall y :: 0 <= y < |s.mem| ==> t.mem[y].e == s.mem[y].e
    requires forall y {:trigger LinkedIn(t, b, y)} :: LinkedIn(t, b, y) ==> LinkedIn(s, b, y)
    ensures CleanAbove(t, b, op, bound)
  {
    forall y | LinkedIn(t, b, y) && y > bound ensures !Doomed(op, t.mem[y].e) {
      assert LinkedIn(s, b, y);
    }
  }

  lemma ScanOutcome(s: Tier, t: Tier, b: nat)
    requires Good(s, b) && s.writers[b].Locked? && t == WriteNext(s, b, s.writers[b].op, s.writers[b].pc)
    requires s.writers[b].pc.Scan?
    ensures b < |t.writers| && ScanOK(t, b) && Outcome(t, b) == Outcome(s, b)
  {
    var op, cur := s.writers[b].op, s.writers[b].pc.cur;
    assert WriterOK(s, b);
    SameBucket(s, t, b);
    CleanKept(s, t, b, op, cur);
    if cur == NIL {
      CleanBucket(s, b, op);
    } else if !Doomed(op, s.mem[cur].e) {
      CleanBelow(s, b, op, cur);
      CleanKept(s, t, b, op, s.mem[cur].next);
    }
  }

  // The repairs after a cut: bucket and scan position stay.
  lemma RepairOutcome(s: Tier, t: Tier, b: nat)
    requires Good(s, b) && s.writers[b].Locked? && t == WriteNext(s, b, s.writers[b].op, s.writers[b].pc)
    requires s.writers[b].pc.FixNext? || s.writers[b].pc.PoisonPrev? || s.writers[b].pc.Retire?
    ensures b < |t.writers| && ScanOK(t, b) && Outcome(t, b) == Outcome(s, b)
  {
    var op := s.writers[b].op;
    RepairLinks(s, t, b);
    SameBucket(s, t, b);
    if op.PurgeOp? {
      CleanKept(s, t, b, op, s.writers[b].pc.tmp);
    }
  }

  lemma RepairLinks(s: Tier, t: Tier, b: nat)
    requires Good(s, b) && s.writers[b].Locked? && t == WriteNext(s, b, s.writers[b].op, s.writers[b].pc)
    requires s.writers[b].pc.FixNext? || s.writers[b].pc.PoisonPrev? || s.writers[b].pc.Retire?
    ensures SameLinks(s, t) && |t.writers| == |s.writers|
    ensures var op, pc := s.writers[b].op, s.writers[b].pc;
            t.writers[b] == Locked(op,
              match pc
              case FixNext(x, tmp, _, _) => PoisonPrev(x, tmp)
              case PoisonPrev(x, tmp) => Retire(x, tmp)
              case _ => if op.StoreOp? then Fill else Scan(pc.tmp))
  {
    assert WriterOK(s, b);
    if s.writers[b].pc.Retire? || s.writers[b].pc.PoisonPrev? { assert Cut(s, s.writers[b].pc.x); }
  }

  lemma FillOutcome(s: Tier, t: Tier, b: nat)
    requires Good(s, b) && s.writers[b].Locked? && t == WriteNext(s, b, s.writers[b].op, s.writers[b].pc)
    requires s.writers[b].pc.Fill?
    ensures b < |t.writers| && ScanOK(t, b) && Outcome(t, b) == Outcome(s, b)
  {
    SameBucket(s, t, b);
  }

  lemma EndOutcome(s: Tier, t: Tier, b: nat)
    requires Good(s, b) && s.writers[b].Locked? && t == WriteNext(s, b, s.writers[b].op, s.writers[b].pc)
    requires s.writers[b].pc.FixFirst? || s.writers[b].pc.Finish?
    ensures b < |t.writers| && ScanOK(t, b) && Outcome(t, b) == Outcome(s, b)
  {
    assert WriterOK(s, b);
    SameBucket(s, t, b);
    if s.writers[b].op.PurgeOp? { CleanBucket(s, b, s.writers[b].op); }
  }

  lemma CutBucket(s: Tier, t: Tier, b: nat, x: nat)
    requires LinksOK(s) && LinkedIn(s, b, x) && PointsAt(s, b, s.mem[x].pprev, x) && Relinked(s, t, b, x)
    ensures Bucket(t, b) == EntriesAt(s.mem, Drop(Walk(s.mem, HeadAt(s, b)), x))
  {
    var h := HeadAt(s, b);
    WalkMembers(s, h);
    match s.mem[x].pprev
    case HeadOf(_) =>
      assert Walk(s.mem, h) == [x] + Walk(s.mem, s.mem[x].next);
      assert Walk(s.mem, h)[1..] == Walk(s.mem, s.mem[x].next);
    case NextOf(a) =>
      BypassWalk(s, a, x, h);
      WalkBypass(s, a, x, h);
      SameEntries(s.mem, t.mem, Walk(t.mem, h));
  }

  lemma CutFacts(s: Tier, t: Tier, b: nat, x: nat)
    requires Good(s, b) && s.writers[b].Locked? && t == WriteNext(s, b, s.writers[b].op, s.writers[b].pc)
    requires s.writers[b].pc.CutPrev? && x == s.writers[b].pc.x
    ensures LinkedIn(s, b, x) && PointsAt(s, b, s.mem[x].pprev, x) && Relinked(s, t, b, x)
    ensures s.writers[b].pc.tmp == s.mem[x].next
    ensures var fix := FixNext(x, s.mem[x].next, s.mem[x].next, s.mem[x].pprev);
            t.writers == s.writers[b := Locked(s.writers[b].op, fix)]
  {
    assert WriterOK(s, b);
    assert PprevAt(s, x);
  }

  lemma CutEffect(s: Tier, t: Tier, b: nat, x: nat, op: Op)
    requires LinksOK(s) && LinkedIn(s, b, x) && PointsAt(s, b, s.mem[x].pprev, x) && Relinked(s, t, b, x)
    requires CleanAbove(s, b, op, x) && Doomed(op, s.mem[x].e)
    ensures match op
            case StoreOp(e) => Bucket(t, b) == RemoveFirst(Bucket(s, b), e.fingerprint, e.mm)
            case PurgeOp(mm) => Purge(Bucket(t, b), mm) == Purge(Bucket(s, b), mm)
  {
    CutBucket(s, t, b, x);
    var h := HeadAt(s, b);
    WalkMembers(s, h);
    match op
    case StoreOp(e) =>
      forall y | y in Walk(s.mem, h) && y > x && y < |s.mem| ensures !SameKey(s.mem[y].e, e) {
        assert LinkedIn(s, b, y);
      }
      DropIsRemove(s, h, x, e);
    case PurgeOp(mm) =>
      DropIsPurged(s, h, x, mm);
  }

  lemma CutClean(s: Tier, t: Tier, b: nat, x: nat, op: Op)
    requires LinksOK(s) && LinkedIn(s, b, x) && PointsAt(s, b, s.mem[x].pprev, x) && Relinked(s, t, b, x)
    requires CleanAbove(s, b, op, x)
    ensures CleanAbove(t, b, op, s.mem[x].next)
  {
    CutLinked(s, t, b, x);
    forall y: int | LinkedIn(t, b, y) && y > s.mem[x].next
      ensures !Doomed(op, t.mem[y].e)
    {
      assert LinkedIn(s, b, y);
      Adjacent(s, HeadAt(s, b), x, y);
    }
  }

  lemma CutOutcome(s: Tier, t: Tier, b: nat)
    requires Good(s, b) && s.writers[b].Locked? && t == WriteNext(s, b, s.writers[b].op, s.writers[b].pc)
    requires s.writers[b].pc.CutPrev?
    ensures b < |t.writers| && ScanOK(t, b) && Outcome(t, b) == Outcome(s, b)
  {
    var op, x := s.writers[b].op, s.writers[b].pc.x;
    CutFacts(s, t, b, x);
    CutEffect(s, t, b, x, op);
    CutClean(s, t, b, x, op);
  }

  lemma PublishOutcome(s: Tier, t: Tier, b: nat)
    requires Good(s, b) && s.writers[b].Locked? && t == WriteNext(s, b, s.writers[b].op, s.writers[b].pc)
    requires s.writers[b].pc.Publish?
    ensures b < |t.writers| && ScanOK(t, b) && Outcome(t, b) == Outcome(s, b)
  {
    var n := s.writers[b].pc.n;
    assert WriterOK(s, b);
    assert Walk(s.mem, n) == [n] + Walk(s.mem, HeadAt(s, b));
    assert Walk(s.mem, n)[1..] == Walk(s.mem, HeadAt(s, b));
  }

  // What a step of another critical section, a reader or a callback leaves alone.
  ghost predicate BucketKept(s: Tier, t: Tier, b: nat) {
    && |s.mem| <= |t.mem|
    && (forall y :: 0 <= y < |s.mem| ==> t.mem[y].e == s.mem[y].e)
    && (forall y {:trigger LinkedIn(t, b, y)} :: LinkedIn(t, b, y) ==> LinkedIn(s, b, y))
    && Bucket(t, b) == Bucket(s, b)
  }

  lemma KeptOutcome(s: Tier, t: Tier, b: nat)
    requires b < |s.writers| && ScanOK(s, b) && BucketKept(s, t, b)
    requires b < |t.writers| && t.writers[b] == s.writers[b]
    ensures ScanOK(t, b) && Outcome(t, b) == Outcome(s, b)
  {
    if s.writers[b].Locked? {
      var op := s.writers[b].op;
      match s.writers[b].pc
      case Scan(cur) => CleanKept(s, t, b, op, cur);
      case CutPrev(x, _) => CleanKept(s, t, b, op, x);
      case FixNext(_, tmp, _, _) => if op.PurgeOp? { CleanKept(s, t, b, op, tmp); }
      case PoisonPrev(_, tmp) => if op.PurgeOp? { CleanKept(s, t, b, op, tmp); }
      case Retire(_, tmp) => if op.PurgeOp? { CleanKept(s, t, b, op, tmp); }
      case Finish => if op.PurgeOp? { CleanKept(s, t, b, op, NIL); }
      case _ =>
    }
  }

  lemma OtherKept(s: Tier, st: Step, t: Tier, b: nat)
    requires Inv(s) && b < |s.writers| && IsStep(s, st, t)
    requires st != Write(b)
    ensures BucketKept(s, t, b)
  {
    if st.Write? && s.writers[st.bucket].pc.CutPrev? {
      var c, x := st.bucket, s.writers[st.bucket].pc.x;
      assert WriterOK(s, c);
      assert PprevAt(s, x);
      CutLinked(s, t, c, x);
      OtherBucketCut(s, t, b, c, x);
    } else if st.Write? && s.writers[st.bucket].pc.Publish? {
      PublishKept(s, t, b, st.bucket);
    } else {
      StepLinks(s, st);
      SameBucket(s, t, b);
    }
  }

  lemma PublishKept(s: Tier, t: Tier, b: nat, c: nat)
    requires Inv(s) && b < |s.writers| && c < |s.writers| && c != b && s.writers[c].Locked?
    requires s.writers[c].pc.Publish? && t == WriteNext(s, c, s.writers[c].op, s.writers[c].pc)
    ensures BucketKept(s, t, b)
  {
    assert forall y :: Home(s, y) == b ==> Linked(t, y) == Linked(s, y);
  }

  // A step that is not one of b's critical section leaves bucket b alone.
  lemma OtherOutcome(s: Tier, st: Step, t: Tier, b: nat)
    requires Good(s, b) && IsStep(s, st, t)
    requires st != Write(b) && !(st.WriteLock? && st.bucket == b)
    ensures b < |t.writers| && ScanOK(t, b) && Outcome(t, b) == Outcome(s, b)
  {
    OtherKept(s, st, t, b);
    OtherWriter(s, st, t, b);
    KeptOutcome(s, t, b);
  }

  lemma OtherWriter(s: Tier, st: Step, t: Tier, b: nat)
    requires IsStep(s, st, t) && b < |s.writers|
    requires st != Write(b) && !(st.WriteLock? && st.bucket == b)
    ensures b < |t.writers| && t.writers[b] == s.writers[b]
  {
    if st.Write? { WriteKeepsOps(s, st.bucket); }
  }

  lemma StepLinks(s: Tier, st: Step)
    requires Inv(s) && Enabled(s, st)
    requires !(st.Write? && (s.writers[st.bucket].pc.CutPrev? || s.writers[st.bucket].pc.Publish?))
    ensures SameLinks(s, Next(s, st))
  {
  }

  lemma OtherBucketCut(s: Tier, t: Tier, b: nat, c: nat, x: nat)
    requires LinksOK(s) && b < |s.heads| && c != b && LinkedIn(s, c, x)
    requires PointsAt(s, c, s.mem[x].pprev, x) && Relinked(s, t, c, x)
    ensures Bucket(t, b) == Bucket(s, b)
  {
    var h := HeadAt(s, b);
    WalkMembers(s, h);
    if s.mem[x].pprev.NextOf? {
      var a := s.mem[x].pprev.node;
      UntouchedWalk(s, t.mem, a, h);
      SameEntries(s.mem, t.mem, Walk(s.mem, h));
    }
  }

  lemma {:induction false} UntouchedWalk(s: Tier, mem': seq<Node>, a: nat, p: int)
    requires LinksOK(s) && |mem'| == |s.mem| && NIL <= p < |s.mem| && a !in Walk(s.mem, p)
    requires forall x :: 0 <= x < |s.mem| && x != a ==> mem'[x] == s.mem[x]
    ensures Walk(mem', p) == Walk(s.mem, p)
    decreases p
  {
    if p != NIL {
      assert Walk(s.mem, p) == [p] + Walk(s.mem, s.mem[p].next);
      UntouchedWalk(s, mem', a, s.mem[p].next);
    }
  }

  lemma LockOutcome(s: Tier, st: Step, t: Tier, b: nat)
    requires Good(s, b) && IsStep(s, st, t) && st.WriteLock? && st.bucket == b
    ensures b < |t.writers| && ScanOK(t, b) && Outcome(t, b) == Effect(st.op, Bucket(s, b))
  {
    SameBucket(s, t, b);
    WalkMembers(s, HeadAt(s, b));
  }

  /** Taking the lock is the moment the operation takes effect: the outcome changes
      by the whole operation there, and by no other step of anyone. */
  lemma OutcomeStep(s: Tier, st: Step, t: Tier, b: nat)
    requires Good(s, b) && IsStep(s, st, t)
    ensures Good(t, b)
    ensures Outcome(t, b) ==
            if st.WriteLock? && st.bucket == b then Effect(st.op, Bucket(s, b)) else Outcome(s, b)
  {
    StepInv(s, st);
    if st.WriteLock? && st.bucket == b {
      LockOutcome(s, st, t, b);
    } else if st == Write(b) {
      match s.writers[b].pc
      case Scan(_) => ScanOutcome(s, t, b);
      case CutPrev(_, _) => CutOutcome(s, t, b);
      case Publish(_, _) => PublishOutcome(s, t, b);
      case Fill => FillOutcome(s, t, b);
      case FixFirst(_, _) => EndOutcome(s, t, b);
      case Finish => EndOutcome(s, t, b);
      case _ => RepairOutcome(s, t, b);
    } else {
      OtherOutcome(s, st, t, b);
    }
  }

  // --- runs ---

  // The operations that have locked bucket b, applied in that order.
  function Serial(steps: seq<Step>, b: nat): Chain {
    if steps == [] then []
    else
      var st := steps[|steps| - 1];
      var before := Serial(steps[..|steps| - 1], b);
      if st.WriteLock? && st.bucket == b then Effect(st.op, before) else before
  }

  lemma {:induction false} RunSerial(run: seq<Tier>, steps: seq<Step>, i: nat, b: nat)
    requires IsRun(run, steps) && Initial(run[0]) && i < |run| && b < |run[0].writers|
    ensures Good(run[i], b) && Outcome(run[i], b) == Serial(steps[..i], b)
  {
    if i == 0 {
      InitialInv(run[0]);
    } else {
      RunSerial(run, steps, i - 1, b);
      assert StepAt(run, steps, i - 1);
      OutcomeStep(run[i - 1], steps[i - 1], run[i], b);
      assert steps[..i][..i - 1] == steps[..i - 1];
      assert Outcome(run[i - 1], b) == Serial(steps[..i - 1], b);
    }
  }

  /** Whenever a bucket is unlocked it holds exactly what its stores and purges give
      when executed one after the other in the order they took the lock. */
  lemma BucketIsSerial(run: seq<Tier>, steps: seq<Step>, i: nat, b: nat)
    requires IsRun(run, steps) && Initial(run[0]) && i < |run| && b < |run[0].writers|
    requires b < |run[i].writers| && run[i].writers[b].Unlocked?
    ensures Bucket(run[i], b) == Serial(steps[..i], b)
  {
    RunSerial(run, steps, i, b);
  }
}
