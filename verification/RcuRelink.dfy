/** The two writes that change the list readers see: cutting a node out and
    publishing a new head. */
module RcuRelink {
  import opened RcuTier
  import opened RcuInvariant
  import opened RcuSteps

  // `mem` with the `next` of `a` redirected past its successor x.
  function Bypass(mem: seq<Node>, a: nat, x: nat): seq<Node>
    requires a < |mem| && x < |mem|
  {
    mem[a := mem[a].(next := mem[x].next)]
  }

  /** From any pointer, bypassing x hides x and nothing else, and hides it exactly
      from the walks that came to it through `a`. */
  lemma {:induction false} WalkBypass(s: Tier, a: nat, x: nat, p: int)
    requires LinksOK(s) && a < |s.mem| && x < |s.mem| && s.mem[a].next == x && NIL <= p < |s.mem|
    ensures forall z :: z in Walk(Bypass(s.mem, a, x), p) <==>
              z in Walk(s.mem, p) && !(z == x && a in Walk(s.mem, p))
    decreases p
  {
    if p != NIL {
      var mem' := Bypass(s.mem, a, x);
      if p == a {
        WalkBypass(s, a, x, s.mem[x].next);
        WalkMembers(s, s.mem[x].next);
        assert Walk(s.mem, p) == [a] + ([x] + Walk(s.mem, s.mem[x].next));
        assert Walk(mem', p) == [a] + Walk(mem', s.mem[x].next);
      } else {
        WalkBypass(s, a, x, s.mem[p].next);
        assert Walk(s.mem, p) == [p] + Walk(s.mem, s.mem[p].next);
        assert Walk(mem', p) == [p] + Walk(mem', s.mem[p].next);
        if p == x {
          WalkMembers(s, s.mem[p].next);
        }
      }
    }
  }

  // t is s after `*x->pprev = x->next` in bucket b, whatever the critical section.
  predicate Relinked(s: Tier, t: Tier, b: nat, x: nat) {
    && b < |s.heads| && x < |s.mem|
    && match s.mem[x].pprev
       case HeadOf(_) => t.mem == s.mem && t.heads == s.heads[b := s.mem[x].next]
       case NextOf(a) => a < |s.mem| && t.mem == Bypass(s.mem, a, x) && t.heads == s.heads
       case Poison => false
  }

  lemma CutLinks(s: Tier, t: Tier, b: nat, x: nat)
    requires LinksOK(s) && LinkedIn(s, b, x) && PointsAt(s, b, s.mem[x].pprev, x)
    requires Relinked(s, t, b, x) && |t.writers| == |s.writers|
    ensures LinksOK(t)
  {
    forall y | 0 <= y < |t.mem| && t.mem[y].next != NIL ensures Home(t, t.mem[y].next) == Home(t, y) {
      assert Home(s, s.mem[y].next) == Home(s, y);
      assert s.mem[x].next != NIL ==> Home(s, s.mem[x].next) == Home(s, x);
    }
    assert s.mem[x].next != NIL ==> Home(s, s.mem[x].next) == Home(s, x);
  }

  lemma CutLinked(s: Tier, t: Tier, b: nat, x: nat)
    requires LinksOK(s) && LinkedIn(s, b, x) && PointsAt(s, b, s.mem[x].pprev, x)
    requires Relinked(s, t, b, x)
    ensures forall z {:trigger Linked(t, z)} :: Linked(t, z) == (Linked(s, z) && z != x)
  {
    forall z {:trigger Linked(t, z)} ensures Linked(t, z) == (Linked(s, z) && z != x) {
      if 0 <= z < |s.mem| {
        var h := HeadAt(s, Home(s, z));
        WalkMembers(s, h);
        match s.mem[x].pprev
        case HeadOf(_) =>
          if Home(s, z) == b {
            assert Walk(s.mem, x) == [x] + Walk(s.mem, s.mem[x].next);
            WalkMembers(s, s.mem[x].next);
          }
        case NextOf(a) =>
          WalkBypass(s, a, x, h);
      }
    }
  }

  // x leaves the list and is held by the writer alone.
  lemma CutRoles(s: Tier, t: Tier, b: nat, x: nat)
    requires RolesOK(s) && SuccessorsOK(s) && LinkedIn(s, b, x) && PointsAt(s, b, s.mem[x].pprev, x)
    requires Relinked(s, t, b, x)
    requires t.pending == s.pending && t.freed == s.freed
    requires forall z {:trigger Linked(t, z)} :: Linked(t, z) == (Linked(s, z) && z != x)
    requires forall z {:trigger Cut(t, z)} :: Cut(t, z) == (Cut(s, z) || z == x)
    requires forall z {:trigger Private(t, z)} :: Private(t, z) == Private(s, z)
    ensures RolesOK(t) && SuccessorsOK(t)
  {
    forall y {:trigger SuccessorOK(t, y)} ensures SuccessorOK(t, y) {
      assert SuccessorOK(s, y);
    }
  }

  lemma CutPprevs(s: Tier, t: Tier, b: nat, x: nat)
    requires LinksOK(s) && LinkedIn(s, b, x) && PointsAt(s, b, s.mem[x].pprev, x)
    requires Relinked(s, t, b, x) && b < |s.writers| == |t.writers|
    requires Unrepaired(s.writers[b]) == NIL && Unrepaired(t.writers[b]) == s.mem[x].next
    requires forall z {:trigger Linked(t, z)} :: Linked(t, z) == (Linked(s, z) && z != x)
    ensures forall z {:trigger PprevAt(t, z)} :: PprevAt(s, z) && Home(t, z) == b ==> PprevAt(t, z)
  {
  }

  lemma CutWriter(s: Tier, t: Tier, b: nat, x: nat)
    requires LinksOK(s) && LinkedIn(s, b, x) && PointsAt(s, b, s.mem[x].pprev, x)
    requires Relinked(s, t, b, x)
    requires forall z {:trigger Linked(t, z)} :: Linked(t, z) == (Linked(s, z) && z != x)
    ensures forall op :: PcOK(t, b, op, FixNext(x, s.mem[x].next, s.mem[x].next, s.mem[x].pprev))
  {
    SuccessorLinked(s, x);
  }

  lemma CutStatus(s: Tier, t: Tier, b: nat, x: nat)
    requires Relinked(s, t, b, x) && Home(s, x) == b && b < |s.writers|
    requires |t.writers| == |s.writers| && t.writers == s.writers[b := t.writers[b]]
    requires CutNode(s.writers[b]) == NIL && NewNode(s.writers[b]) == NIL
    requires CutNode(t.writers[b]) == x && NewNode(t.writers[b]) == NIL
    ensures forall z {:trigger Cut(t, z)} :: Cut(t, z) == (Cut(s, z) || z == x)
    ensures forall z {:trigger Private(t, z)} :: Private(t, z) == Private(s, z)
  {
  }

  lemma CutStep(s: Tier, b: nat)
    requires Inv(s) && b < |s.writers| && s.writers[b].Locked? && s.writers[b].pc.CutPrev?
    ensures Inv(WriteNext(s, b, s.writers[b].op, s.writers[b].pc))
  {
    var t := WriteNext(s, b, s.writers[b].op, s.writers[b].pc);
    var x := s.writers[b].pc.x;
    assert WriterOK(s, b);
    assert PprevAt(s, x);
    assert Relinked(s, t, b, x);
    assert Inside(t) == Inside(s);
    CutLinks(s, t, b, x);
    CutLinked(s, t, b, x);
    CutStatus(s, t, b, x);
    CutRoles(s, t, b, x);
    CutWriter(s, t, b, x);
    CutPprevs(s, t, b, x);
    OtherWriters(s, t, b);
    AllPprevs(s, t, b);
    SameReaders(s, t);
  }

  // --- publishing ---

  lemma PublishLinked(s: Tier, t: Tier, b: nat, n: nat)
    requires LinksOK(s) && b < |s.heads| && n < |s.mem| && Home(s, n) == b && !Linked(s, n)
    requires s.mem[n].next == HeadAt(s, b)
    requires t.mem == s.mem && t.heads == s.heads[b := n]
    ensures forall z {:trigger Linked(t, z)} :: Linked(t, z) == (Linked(s, z) || z == n)
  {
    assert Walk(s.mem, n) == [n] + Walk(s.mem, HeadAt(s, b));
  }

  lemma PublishRoles(s: Tier, t: Tier, n: nat)
    requires RolesOK(s) && SuccessorsOK(s) && Private(s, n)
    requires t.mem == s.mem && t.pending == s.pending && t.freed == s.freed
    requires forall z {:trigger Linked(t, z)} :: Linked(t, z) == (Linked(s, z) || z == n)
    requires forall z {:trigger Cut(t, z)} :: Cut(t, z) == Cut(s, z)
    requires forall z {:trigger Private(t, z)} :: Private(t, z) == (Private(s, z) && z != n)
    ensures RolesOK(t) && SuccessorsOK(t)
  {
    forall y {:trigger SuccessorOK(t, y)} ensures SuccessorOK(t, y) {
      assert SuccessorOK(s, y);
    }
  }

  lemma PublishStep(s: Tier, b: nat)
    requires Inv(s) && b < |s.writers| && s.writers[b].Locked? && s.writers[b].pc.Publish?
    ensures Inv(WriteNext(s, b, s.writers[b].op, s.writers[b].pc))
  {
    var t := WriteNext(s, b, s.writers[b].op, s.writers[b].pc);
    var n := s.writers[b].pc.n;
    assert WriterOK(s, b);
    assert Private(s, n);
    assert Inside(t) == Inside(s);
    PublishLinked(s, t, b, n);
    PublishRoles(s, t, n);
    OtherWriters(s, t, b);
    AllPprevs(s, t, b);
    SameReaders(s, t);
    PublishLinks(s, t, b, n);
    assert WriterOK(t, b);
  }

  lemma PublishLinks(s: Tier, t: Tier, b: nat, n: nat)
    requires LinksOK(s) && b < |s.heads| && n < |s.mem| && Home(s, n) == b
    requires t.mem == s.mem && t.heads == s.heads[b := n] && |t.writers| == |s.writers|
    ensures LinksOK(t)
  {
    forall x | 0 <= x < |t.mem| && t.mem[x].next != NIL ensures Home(t, t.mem[x].next) == Home(t, x) {
      assert Home(s, s.mem[x].next) == Home(s, x);
    }
  }
}
