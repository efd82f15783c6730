/** The invariant of the concurrent tier and its preservation by every step. */
module RcuInvariant {
  import opened RcuTier

  // --- the shape of the list ---

  ghost predicate LinksOK(s: Tier) {
    && 0 < |s.heads| == |s.writers|
    && (forall x {:trigger s.mem[x]} :: 0 <= x < |s.mem| ==>
          NIL <= s.mem[x].next < x)
    && (forall x {:trigger Home(s, s.mem[x].next)} :: 0 <= x < |s.mem| && s.mem[x].next != NIL ==>
          Home(s, s.mem[x].next) == Home(s, x))
    && (forall b {:trigger s.heads[b]} :: 0 <= b < |s.heads| ==>
          NIL <= s.heads[b] < |s.mem| && (s.heads[b] != NIL ==> Home(s, s.heads[b]) == b))
  }

  // --- the life of a node: filled, linked, cut, retired, freed ---

  function CutNode(w: Writer): int {
    if w.Locked? then
      match w.pc
      case FixNext(x, _, _, _) => x
      case PoisonPrev(x, _) => x
      case Retire(x, _) => x
      case _ => NIL
    else NIL
  }

  function NewNode(w: Writer): int {
    if w.Locked? && w.pc.Publish? then w.pc.n else NIL
  }

  predicate Cut(s: Tier, x: int) {
    0 <= x < |s.mem| && Home(s, x) < |s.writers| && CutNode(s.writers[Home(s, x)]) == x
  }

  predicate Private(s: Tier, x: int) {
    0 <= x < |s.mem| && Home(s, x) < |s.writers| && NewNode(s.writers[Home(s, x)]) == x
  }

  ghost predicate RolesOK(s: Tier) {
    && (forall x :: x in s.pending ==> x < |s.mem| && x !in s.freed)
    && (forall x :: x in s.freed ==> x < |s.mem|)
    && (forall x :: 0 <= x < |s.mem| && (Linked(s, x) || Cut(s, x) || Private(s, x)) ==>
          x !in s.pending && x !in s.freed)
    && (forall x :: Linked(s, x) ==> !Cut(s, x) && !Private(s, x))
    && (forall x :: 0 <= x < |s.mem| ==>
          Linked(s, x) || Cut(s, x) || Private(s, x) || x in s.pending || x in s.freed)
  }

  // --- grace periods ---

  ghost predicate WaitsOK(s: Tier) {
    forall x :: x in s.pending ==> s.pending[x] <= Inside(s)
  }

  // Whoever may still stand on the retired node x may step to its successor y.
  predicate Covered(s: Tier, x: nat, y: int)
    requires x in s.pending
  {
    || y == NIL
    || Linked(s, y)
    || Cut(s, y)
    || (y in s.pending && s.pending[x] <= s.pending[y])
    || s.pending[x] == {}
  }

  ghost predicate SuccessorOK(s: Tier, x: nat) {
    x in s.pending && x < |s.mem| ==> Covered(s, x, s.mem[x].next)
  }

  ghost predicate SuccessorsOK(s: Tier) {
    forall x {:trigger SuccessorOK(s, x)} :: SuccessorOK(s, x)
  }

  // --- readers ---

  predicate Holds(s: Tier, r: nat, x: int) {
    Linked(s, x) || Cut(s, x) || (x in s.pending && r in s.pending[x])
  }

  function Cursor(rd: Reader): int {
    match rd
    case Looking(_, _, cur) => cur
    case Moving(_, _, cur) => cur
    case Returning(_, _, result) => result
    case _ => NIL
  }

  ghost predicate ReaderOK(s: Tier, r: nat)
    requires r < |s.readers|
  {
    var cur := Cursor(s.readers[r]);
    if cur == NIL then !s.readers[r].Moving? else 0 <= cur < |s.mem| && Holds(s, r, cur)
  }

  ghost predicate ReadersOK(s: Tier) {
    forall r :: 0 <= r < |s.readers| ==> ReaderOK(s, r)
  }

  // --- writers ---

  predicate LinkedIn(s: Tier, b: nat, x: int) {
    Linked(s, x) && Home(s, x) == b
  }

  // `l` is the place in bucket b that points at the linked node z.
  predicate PointsAt(s: Tier, b: nat, l: Link, z: int) {
    match l
    case HeadOf(c) => c == b && HeadAt(s, b) == z
    case NextOf(a) => LinkedIn(s, b, a) && s.mem[a].next == z
    case Poison => false
  }

  ghost predicate PcOK(s: Tier, b: nat, op: Op, pc: Pc) {
    match pc
    case Scan(cur) => cur == NIL || LinkedIn(s, b, cur)
    case CutPrev(x, tmp) => LinkedIn(s, b, x) && tmp == s.mem[x].next
    case FixNext(x, tmp, next, pprev) =>
      && x < |s.mem| && Home(s, x) == b && tmp == next == s.mem[x].next
      && (next != NIL ==> LinkedIn(s, b, next) && PointsAt(s, b, pprev, next))
    case PoisonPrev(x, tmp) =>
      x < |s.mem| && Home(s, x) == b && tmp == s.mem[x].next && (tmp != NIL ==> LinkedIn(s, b, tmp))
    case Retire(x, tmp) =>
      x < |s.mem| && Home(s, x) == b && tmp == s.mem[x].next && (tmp != NIL ==> LinkedIn(s, b, tmp))
    case Fill => op.StoreOp?
    case Publish(n, first) =>
      && n < |s.mem| && Home(s, n) == b && s.mem[n].next == first == HeadAt(s, b)
      && s.mem[n].pprev == HeadOf(b)
    case FixFirst(n, first) => LinkedIn(s, b, n) && HeadAt(s, b) == n && s.mem[n].next == first
    case Finish => true
  }

  ghost predicate WriterOK(s: Tier, b: nat)
    requires b < |s.writers|
  {
    s.writers[b].Locked? ==>
      PcOK(s, b, s.writers[b].op, s.writers[b].pc)
  }

  ghost predicate WritersOK(s: Tier) {
    forall b :: 0 <= b < |s.writers| ==> WriterOK(s, b)
  }

  // The one node whose pprev the running critical section has yet to repair.
  function Unrepaired(w: Writer): int {
    if w.Locked? then
      match w.pc
      case FixNext(_, _, next, _) => next
      case FixFirst(_, first) => first
      case _ => NIL
    else NIL
  }

  ghost predicate PprevAt(s: Tier, z: int) {
    Linked(s, z) && Home(s, z) < |s.writers| ==>
      z == Unrepaired(s.writers[Home(s, z)]) || PointsAt(s, Home(s, z), s.mem[z].pprev, z)
  }

  ghost predicate PprevOK(s: Tier) {
    forall z {:trigger PprevAt(s, z)} :: PprevAt(s, z)
  }

  ghost predicate Inv(s: Tier) {
    && !s.fault
    && LinksOK(s)
    && RolesOK(s)
    && WaitsOK(s)
    && SuccessorsOK(s)
    && ReadersOK(s)
    && WritersOK(s)
    && PprevOK(s)
  }

  lemma InitialInv(s: Tier)
    requires Initial(s)
    ensures Inv(s)
  {
  }

  // --- facts about walks ---

  lemma {:induction false} WalkMembers(s: Tier, p: int)
    requires LinksOK(s) && NIL <= p < |s.mem|
    ensures forall x :: x in Walk(s.mem, p) ==> x <= p && x < |s.mem| && Home(s, x) == Home(s, p)
    ensures forall x :: x in Walk(s.mem, p) && s.mem[x].next != NIL ==> s.mem[x].next in Walk(s.mem, p)
    decreases p
  {
    if p != NIL {
      var q := s.mem[p].next;
      WalkMembers(s, q);
      assert Walk(s.mem, p) == [p] + Walk(s.mem, q);
      if q != NIL { assert Walk(s.mem, q)[0] == q; }
    }
  }

  lemma HeadsLinked(s: Tier)
    requires LinksOK(s)
    ensures forall b :: 0 <= b < |s.heads| && s.heads[b] != NIL ==> LinkedIn(s, b, s.heads[b])
  {
    forall b | 0 <= b < |s.heads| && s.heads[b] != NIL ensures LinkedIn(s, b, s.heads[b]) {
      assert Walk(s.mem, s.heads[b])[0] == s.heads[b];
    }
  }

  lemma SuccessorLinked(s: Tier, x: int)
    requires LinksOK(s) && Linked(s, x)
    ensures s.mem[x].next != NIL ==> LinkedIn(s, Home(s, x), s.mem[x].next)
  {
    WalkMembers(s, HeadAt(s, Home(s, x)));
  }

  // Steps that write neither a head nor a `next` field of an existing node.
  predicate SameLinks(s: Tier, t: Tier) {
    && t.heads == s.heads
    && |s.mem| <= |t.mem|
    && (forall x {:trigger t.mem[x]} {:trigger s.mem[x]} :: 0 <= x < |s.mem| ==>
          t.mem[x].e == s.mem[x].e && t.mem[x].home == s.mem[x].home && t.mem[x].next == s.mem[x].next)
  }

  lemma {:induction false} SameWalk(s: Tier, t: Tier, p: int)
    requires LinksOK(s) && SameLinks(s, t) && NIL <= p < |s.mem|
    ensures Walk(t.mem, p) == Walk(s.mem, p)
    decreases p
  {
    if p != NIL { SameWalk(s, t, s.mem[p].next); }
  }

  lemma SameLinked(s: Tier, t: Tier)
    requires LinksOK(s) && SameLinks(s, t)
    ensures forall x :: 0 <= x < |s.mem| ==> Home(t, x) == Home(s, x)
    ensures forall x :: 0 <= x < |s.mem| ==> Linked(t, x) == Linked(s, x)
    ensures forall x :: |s.mem| <= x < |t.mem| ==> !Linked(t, x)
  {
    forall x | 0 <= x < |s.mem| ensures Linked(t, x) == Linked(s, x) {
      SameWalk(s, t, HeadAt(s, Home(s, x)));
    }
    forall x | |s.mem| <= x < |t.mem| ensures !Linked(t, x) {
      var h := HeadAt(s, Home(t, x));
      SameWalk(s, t, h);
      WalkMembers(s, h);
    }
  }
}
