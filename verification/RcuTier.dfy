/** One cache tier shared by lock-free readers, locked writers and RCU callbacks,
    as a step machine: one step for every pointer written and for every node a
    reader visits. The list and RCU primitives are the kernel's standard ones:
    hlist_del_rcu leaves the removed node's `next` in place, hlist_add_head_rcu
    fills in the new node before publishing it, and a call_rcu callback may run
    once every reader that was inside its read-side section has left it. */
module RcuTier {
  import opened Words
  import opened Entries
  import opened Chains

  const NIL: int := -1

  // What `pprev` points at: a bucket head or the `next` field of a node.
  datatype Link = HeadOf(bucket: nat) | NextOf(node: nat) | Poison

  // `home` records the bucket the node is filled in for.
  datatype Node = Node(e: Entry, home: nat, next: int, pprev: Link)

  // The critical sections: a store into the bucket, or the purge of one mm.
  datatype Op = StoreOp(e: Entry) | PurgeOp(mm: u64)

  datatype Pc =
    | Scan(cur: int)                                     // the loop test and the key comparison
    | CutPrev(x: nat, tmp: int)                          // *x->pprev = x->next
    | FixNext(x: nat, tmp: int, next: int, pprev: Link)  // next->pprev = pprev
    | PoisonPrev(x: nat, tmp: int)                       // x->pprev = LIST_POISON2
    | Retire(x: nat, tmp: int)                           // call_rcu(&x->rcu, free_entry_rcu)
    | Fill                                               // n->next = first, n->pprev = &head
    | Publish(n: nat, first: int)                        // head = n
    | FixFirst(n: nat, first: int)                       // first->pprev = &n->next
    | Finish                                             // spin_unlock

  datatype Writer = Unlocked | Locked(op: Op, pc: Pc)

  datatype Reader =
    | Outside
    | Entered(fingerprint: u64, mm: u64)
    | Looking(fingerprint: u64, mm: u64, cur: int)
    | Moving(fingerprint: u64, mm: u64, cur: int)
    | Returning(fingerprint: u64, mm: u64, result: int)

  /** `mem` holds every node ever filled in, in order, so an index is the time
      stamp of an insertion. `pending` maps a retired node to the readers its
      callback still waits for. `fault` is raised by any access to a node that
      does not exist or has been freed, by a second call_rcu on a node, and by a
      second free. */
  datatype Tier = Tier(
    mem: seq<Node>, heads: seq<int>, writers: seq<Writer>, readers: seq<Reader>,
    pending: map<nat, set<nat>>, freed: set<nat>, jiffies: u64, fault: bool)

  datatype Step =
    | Tick
    | ReadLock(reader: nat, fingerprint: u64, mm: u64)
    | Read(reader: nat)
    | WriteLock(bucket: nat, op: Op)
    | Write(bucket: nat)
    | Callback(x: nat)

  predicate Initial(s: Tier) {
    && s.mem == [] && s.pending == map[] && s.freed == {} && !s.fault
    && 0 < |s.heads| == |s.writers|
    && (forall b :: 0 <= b < |s.heads| ==> s.heads[b] == NIL && s.writers[b] == Unlocked)
    && (forall r :: 0 <= r < |s.readers| ==> s.readers[r] == Outside)
  }

  predicate Enabled(s: Tier, st: Step) {
    match st
    case Tick => true
    case ReadLock(r, _, _) => r < |s.readers| && s.readers[r].Outside?
    case Read(r) => r < |s.readers| && !s.readers[r].Outside?
    case WriteLock(b, op) =>
      && b < |s.writers| && s.writers[b].Unlocked? && 0 < |s.heads|
      && (op.StoreOp? ==> op.e.fingerprint % |s.heads| == b)
    case Write(b) => b < |s.writers| && s.writers[b].Locked?
    case Callback(x) => x in s.pending && s.pending[x] == {}
  }

  predicate Allocated(s: Tier, x: int) {
    0 <= x < |s.mem| && x !in s.freed
  }

  // The readers inside a read-side section.
  function Inside(s: Tier): set<nat> {
    set r: nat | r < |s.readers| && !s.readers[r].Outside?
  }

  function Next(s: Tier, st: Step): Tier
    requires Enabled(s, st)
  {
    match st
    case Tick => s.(jiffies := Wrap(s.jiffies + 1))
    case ReadLock(r, fingerprint, mm) => SetReader(s, r, Entered(fingerprint, mm))
    case Read(r) => ReadNext(s, r)
    case WriteLock(b, op) => s.(writers := s.writers[b := Locked(op, Scan(HeadAt(s, b)))])
    case Write(b) => WriteNext(s, b, s.writers[b].op, s.writers[b].pc)
    case Callback(x) =>
      if !Allocated(s, x) then Faulty(s)
      else s.(pending := s.pending - {x}, freed := s.freed + {x})
  }

  function Faulty(s: Tier): Tier {
    s.(fault := true)
  }

  function HeadAt(s: Tier, b: nat): int {
    if b < |s.heads| then s.heads[b] else NIL
  }

  function SetReader(s: Tier, r: nat, rd: Reader): Tier
    requires r < |s.readers|
  {
    s.(readers := s.readers[r := rd])
  }

  // rcu_read_unlock: no callback waits for this reader any longer.
  function Leave(s: Tier, r: nat): Tier
    requires r < |s.readers|
  {
    SetReader(s, r, Outside).(pending := map x | x in s.pending :: s.pending[x] - {r})
  }

  function ReadNext(s: Tier, r: nat): Tier
    requires r < |s.readers|
  {
    match s.readers[r]
    case Outside => s
    case Entered(fingerprint, mm) =>
      if |s.heads| == 0 then Faulty(s)
      else SetReader(s, r, Looking(fingerprint, mm, HeadAt(s, fingerprint % |s.heads|)))
    case Looking(fingerprint, mm, cur) =>
      if cur == NIL then SetReader(s, r, Returning(fingerprint, mm, NIL))
      else if !Allocated(s, cur) then Faulty(s)
      else if Live(s.mem[cur].e, fingerprint, mm, s.jiffies) then
        SetReader(s, r, Returning(fingerprint, mm, cur))
      else SetReader(s, r, Moving(fingerprint, mm, cur))
    case Moving(fingerprint, mm, cur) =>
      if !Allocated(s, cur) then Faulty(s)
      else SetReader(s, r, Looking(fingerprint, mm, s.mem[cur].next))
    case Returning(_, _, _) => Leave(s, r)
  }

  function Goto(s: Tier, b: nat, pc: Pc): Tier
    requires b < |s.writers| && s.writers[b].Locked?
  {
    s.(writers := s.writers[b := s.writers[b].(pc := pc)])
  }

  function SetLink(s: Tier, l: Link, v: int): Tier {
    match l
    case HeadOf(b) => if b < |s.heads| then s.(heads := s.heads[b := v]) else Faulty(s)
    case NextOf(a) =>
      if Allocated(s, a) then s.(mem := s.mem[a := s.mem[a].(next := v)]) else Faulty(s)
    case Poison => Faulty(s)
  }

  function SetPprev(s: Tier, x: int, l: Link): Tier {
    if x == NIL then s
    else if Allocated(s, x) then s.(mem := s.mem[x := s.mem[x].(pprev := l)])
    else Faulty(s)
  }

  predicate Doomed(op: Op, e: Entry) {
    match op
    case StoreOp(f) => SameKey(e, f)
    case PurgeOp(mm) => e.mm == mm
  }

  function WriteNext(s: Tier, b: nat, op: Op, pc: Pc): Tier
    requires b < |s.writers| && s.writers[b].Locked?
  {
    match pc
    case Scan(cur) =>
      if cur == NIL then Goto(s, b, if op.StoreOp? then Fill else Finish)
      else if !Allocated(s, cur) then Faulty(s)
      else if Doomed(op, s.mem[cur].e) then Goto(s, b, CutPrev(cur, s.mem[cur].next))
      else Goto(s, b, Scan(s.mem[cur].next))
    case CutPrev(x, tmp) =>
      if !Allocated(s, x) then Faulty(s)
      else Goto(SetLink(s, s.mem[x].pprev, s.mem[x].next), b, FixNext(x, tmp, s.mem[x].next, s.mem[x].pprev))
    case FixNext(x, tmp, next, pprev) => Goto(SetPprev(s, next, pprev), b, PoisonPrev(x, tmp))
    case PoisonPrev(x, tmp) => Goto(SetPprev(s, x, Poison), b, Retire(x, tmp))
    case Retire(x, tmp) =>
      if !Allocated(s, x) || x in s.pending then Faulty(s)
      else Goto(s.(pending := s.pending[x := Inside(s)]), b, if op.StoreOp? then Fill else Scan(tmp))
    case Fill =>
      if op.PurgeOp? then Faulty(s)
      else Goto(s.(mem := s.mem + [Node(op.e, b, HeadAt(s, b), HeadOf(b))]), b, Publish(|s.mem|, HeadAt(s, b)))
    case Publish(n, first) => Goto(SetLink(s, HeadOf(b), n), b, FixFirst(n, first))
    case FixFirst(n, first) => Goto(SetPprev(s, first, NextOf(n)), b, Finish)
    case Finish => s.(writers := s.writers[b := Unlocked])
  }

  /** A run: `run[i + 1]` is the result of step `steps[i]` in `run[i]`. */
  predicate IsRun(run: seq<Tier>, steps: seq<Step>) {
    && |run| == |steps| + 1
    && forall i {:trigger StepAt(run, steps, i)} :: 0 <= i < |steps| ==> StepAt(run, steps, i)
  }

  predicate StepAt(run: seq<Tier>, steps: seq<Step>, i: int)
    requires |run| == |steps| + 1 && 0 <= i < |steps|
  {
    IsStep(run[i], steps[i], run[i + 1])
  }

  predicate IsStep(s: Tier, st: Step, t: Tier) {
    Enabled(s, st) && t == Next(s, st)
  }

  // --- the list as the pointers describe it ---

  // The nodes met from pointer `p`; the test on `next` makes it total.
  function Walk(mem: seq<Node>, p: int): seq<nat>
    decreases p
  {
    if 0 <= p < |mem| then
      [p] + (if NIL <= mem[p].next < p then Walk(mem, mem[p].next) else [])
    else []
  }

  function Home(s: Tier, x: int): nat {
    if 0 <= x < |s.mem| then s.mem[x].home else 0
  }

  predicate Linked(s: Tier, x: int) {
    0 <= x < |s.mem| && x in Walk(s.mem, HeadAt(s, Home(s, x)))
  }

  // The contents of a bucket, head first.
  function Bucket(s: Tier, b: nat): Chain {
    EntriesAt(s.mem, Walk(s.mem, HeadAt(s, b)))
  }

  function EntriesAt(mem: seq<Node>, ids: seq<nat>): Chain {
    if ids == [] then []
    else if ids[0] < |mem| then [mem[ids[0]].e] + EntriesAt(mem, ids[1..])
    else EntriesAt(mem, ids[1..])
  }
}
