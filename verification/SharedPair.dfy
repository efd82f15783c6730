/** One CPU's L2 bucket and the one L3 bucket its stores go to, pointer by pointer, with
    one node per entry: every run of stores, invalidations and lookups, proved to behave
    as a simple machine on two chains. From it follow the exact conditions under which the
    real buckets do what separate buckets would. */
module SharedPair {
  import opened Words
  import opened Entries
  import opened Chains
  import opened RcuTier
  import opened SharedNode

  // --- the pointer machine: head 0 is the L2 bucket, head 1 the L3 bucket ---

  datatype Request =
    | Put(e: Entry)
    | Drop(mm: u64)
    | Get(fingerprint: u64, mm: u64, jiffies: u64)

  const EMPTY_PAIR := Shared([], [NIL, NIL], false)

  function FoundL2(s: Shared, fingerprint: u64, mm: u64, jiffies: u64): Option<Entry> {
    FindLive(BucketOn(s, 0), fingerprint, mm, jiffies)
  }

  function FoundL3(s: Shared, fingerprint: u64, mm: u64, jiffies: u64): Option<Entry> {
    FindLive(BucketOn(s, 1), fingerprint, mm, jiffies)
  }

  // The first node of the walk from p that a lookup accepts.
  function LiveNode(mem: seq<Node>, p: int, fingerprint: u64, mm: u64, jiffies: u64): (x: int)
    ensures x == NIL || 0 <= x < |mem|
    decreases p
  {
    if 0 <= p < |mem| then
      if Live(mem[p].e, fingerprint, mm, jiffies) then p
      else if NIL <= mem[p].next < p then LiveNode(mem, mem[p].next, fingerprint, mm, jiffies)
      else NIL
    else NIL
  }

  // After a write through a poisoned pprev nothing more is said.
  function Serve(s: Shared, r: Request): (t: Shared)
    requires |s.heads| == 2
    ensures |t.heads| == 2
  {
    if s.fault then s
    else
      match r
      case Put(e) => StoreOn(s, e, 0, 1)
      case Drop(mm) => InvalidateOn(s, mm, 0, 1)
      case Get(fingerprint, mm, jiffies) =>
        var x := LiveNode(s.mem, s.heads[1], fingerprint, mm, jiffies);
        if FoundL2(s, fingerprint, mm, jiffies).None? && x != NIL then PromoteOn(s, x, 0) else s
  }

  function ServeAll(rs: seq<Request>): (s: Shared)
    ensures |s.heads| == 2
  {
    if rs == [] then EMPTY_PAIR else Serve(ServeAll(rs[..|rs| - 1]), rs[|rs| - 1])
  }

  // --- the simple machine ---

  /** `rest` is what both buckets hold; `stuck`, in front of it, are entries invalidated
      while first, which only the L2 bucket still holds. */
  datatype Plain = Plain(stuck: Chain, rest: Chain, fault: bool)

  // The entries of the mm that stand at the front.
  function Leading(ch: Chain, mm: u64): Chain {
    if ch == [] || ch[0].mm != mm then [] else [ch[0]] + Leading(ch[1..], mm)
  }

  function PlainServe(a: Plain, r: Request): Plain {
    if a.fault then a
    else
      match r
      case Put(e) =>
        if exists x :: x in a.stuck && SameKey(x, e) then a.(fault := true)
        else Plain([], StoreChain(a.rest, e), false)
      case Drop(mm) =>
        if exists x :: x in a.stuck && x.mm == mm then a.(fault := true)
        else Plain(a.stuck + Leading(a.rest, mm), Purge(a.rest, mm), false)
      case Get(_, _, _) => a
  }

  function PlainAll(rs: seq<Request>): Plain {
    if rs == [] then Plain([], [], false) else PlainServe(PlainAll(rs[..|rs| - 1]), rs[|rs| - 1])
  }

  // --- the pointers of a pair ---

  // Nodes ps are stuck in front of nodes qs, which are on both lists.
  ghost predicate Rep(s: Shared, ps: seq<nat>, qs: seq<nat>) {
    Lists(s, ps, qs) && Backs(s, ps, qs)
  }

  ghost predicate Lists(s: Shared, ps: seq<nat>, qs: seq<nat>) {
    && Downward(s) && |s.heads| == 2 && !s.fault
    && Nodes(s, 0) == ps + qs && Nodes(s, 1) == qs
  }

  ghost predicate Backs(s: Shared, ps: seq<nat>, qs: seq<nat>) {
    && (forall i :: 0 <= i < |ps| ==> ps[i] < |s.mem| && s.mem[ps[i]].pprev == Poison)
    && (forall i :: 0 <= i < |qs| ==> qs[i] < |s.mem| && s.mem[qs[i]].pprev == BackOn(qs, i, 1))
  }

  ghost predicate Refines(s: Shared, a: Plain) {
    && s.fault == a.fault
    && (!a.fault ==>
          && UniqueKeys(a.rest)
          && exists ps, qs :: Rep(s, ps, qs) && Content(s, ps) == a.stuck && Content(s, qs) == a.rest)
  }

  // Distinct nodes, falling along the list.
  lemma RepFalls(s: Shared, ps: seq<nat>, qs: seq<nat>)
    requires Rep(s, ps, qs)
    ensures forall i, j :: 0 <= i < j < |qs| ==> qs[j] < qs[i]
    ensures forall i, j :: 0 <= i < |ps| && 0 <= j < |qs| ==> qs[j] < ps[i]
    ensures forall i, j :: 0 <= i < j < |ps| ==> ps[j] < ps[i]
  {
    WalkFalls(s.mem, s.heads[0]);
    var w := ps + qs;
    assert forall i :: 0 <= i < |ps| ==> w[i] == ps[i];
    assert forall j :: 0 <= j < |qs| ==> w[|ps| + j] == qs[j];
  }

  // Where node qs[i] leads.
  lemma RepNext(s: Shared, ps: seq<nat>, qs: seq<nat>, i: nat)
    requires Rep(s, ps, qs) && i < |qs|
    ensures Walk(s.mem, qs[i]) == qs[i..] && Walk(s.mem, s.mem[qs[i]].next) == qs[i + 1..]
    ensures s.mem[qs[i]].next == if i + 1 < |qs| then qs[i + 1] else NIL
  {
    WalkFrom(s.mem, s.heads[1], i);
    if s.mem[qs[i]].next != NIL {
      assert Walk(s.mem, s.mem[qs[i]].next)[0] == s.mem[qs[i]].next;
    }
  }

  // --- one unlinking ---

  // The first of qs is taken off the L3 list only.
  lemma DelFirst(s: Shared, ps: seq<nat>, qs: seq<nat>)
    requires Rep(s, ps, qs) && |qs| > 0
    ensures Rep(Del(s, qs[0]), ps + [qs[0]], qs[1..])
  {
    DelFirstLists(s, ps, qs);
    DelFirstBacks(s, ps, qs);
  }

  lemma DelFirstLists(s: Shared, ps: seq<nat>, qs: seq<nat>)
    requires Rep(s, ps, qs) && |qs| > 0
    ensures Lists(Del(s, qs[0]), ps + [qs[0]], qs[1..])
  {
    var x, t := qs[0], Del(s, qs[0]);
    assert s.mem[x].pprev == BackOn(qs, 0, 1);
    DelAtHead(s, x, 1);
    RepNext(s, ps, qs, 0);
    SameWalkOn(s.mem, t.mem, s.heads[0]);
    SameWalkOn(s.mem, t.mem, s.mem[x].next);
    Shift(ps, qs);
  }

  lemma Shift(ps: seq<nat>, qs: seq<nat>)
    requires |qs| > 0
    ensures ps + qs == (ps + [qs[0]]) + qs[1..]
  {
  }

  lemma DelFirstBacks(s: Shared, ps: seq<nat>, qs: seq<nat>)
    requires Rep(s, ps, qs) && |qs| > 0
    ensures Backs(Del(s, qs[0]), ps + [qs[0]], qs[1..])
  {
    var x, t := qs[0], Del(s, qs[0]);
    assert s.mem[x].pprev == BackOn(qs, 0, 1);
    RepFalls(s, ps, qs);
    RepNext(s, ps, qs, 0);
    forall i | 0 <= i < |qs| - 1 ensures t.mem[qs[1..][i]].pprev == BackOn(qs[1..], i, 1) {
      assert qs[1..][i] == qs[i + 1] && s.mem[qs[i + 1]].pprev == BackOn(qs, i + 1, 1);
      DelBackAt(s, x, qs[i + 1]);
    }
    forall i | 0 <= i < |ps| + 1 ensures t.mem[(ps + [x])[i]].pprev == Poison {
      assert i < |ps| ==> s.mem[ps[i]].pprev == Poison;
      DelBackAt(s, x, (ps + [x])[i]);
    }
  }

  // Any other is taken off both.
  lemma DelLater(s: Shared, ps: seq<nat>, qs: seq<nat>, i: nat)
    requires Rep(s, ps, qs) && 0 < i < |qs|
    ensures Rep(Del(s, qs[i]), ps, qs[..i] + qs[i + 1..])
  {
    Regroup(ps, qs, i);
    DelBacks(s, ps, qs, i);
    assert qs[i] < qs[i - 1] && s.mem[qs[i]].pprev == BackOn(qs, i, 1) by { RepFalls(s, ps, qs); }
    DelDownward(s, qs, i);
    DelWalk(s, ps, qs, i, 1, qs[..i - 1]);
    DelWalk(s, ps, qs, i, 0, ps + qs[..i - 1]);
  }

  lemma DelDownward(s: Shared, qs: seq<nat>, i: nat)
    requires Downward(s) && 0 < i < |qs| && qs[i] < qs[i - 1] < |s.mem| && s.mem[qs[i]].pprev == NextOf(qs[i - 1])
    ensures Downward(Del(s, qs[i]))
  {
    DelNexts(s, qs[i]);
  }

  lemma Regroup(ps: seq<nat>, qs: seq<nat>, i: nat)
    requires 0 < i < |qs|
    ensures qs[..i - 1] + ([qs[i - 1]] + qs[i + 1..]) == qs[..i] + qs[i + 1..]
    ensures (ps + qs[..i - 1]) + ([qs[i - 1]] + qs[i + 1..]) == ps + (qs[..i] + qs[i + 1..])
    ensures qs == qs[..i - 1] + qs[i - 1..]
    ensures ps + qs == (ps + qs[..i - 1]) + qs[i - 1..]
  {
  }

  // The same for each of the two lists: `front` is what comes before qs[i - 1].
  lemma DelWalk(s: Shared, ps: seq<nat>, qs: seq<nat>, i: nat, h: nat, front: seq<nat>)
    requires Rep(s, ps, qs) && 0 < i < |qs| && h < 2 && Nodes(s, h) == front + qs[i - 1..]
    ensures Nodes(Del(s, qs[i]), h) == front + ([qs[i - 1]] + qs[i + 1..])
  {
    var a, x, t := qs[i - 1], qs[i], Del(s, qs[i]);
    assert s.mem[x].pprev == BackOn(qs, i, 1);
    RepFalls(s, ps, qs);
    RepNext(s, ps, qs, i - 1);
    RepNext(s, ps, qs, i);
    DelNexts(s, x);
    CutHere(s.mem, t.mem, a, x);
    WalkPrefix(s.mem, t.mem, a, s.heads[h], front);
  }

  lemma DelBacks(s: Shared, ps: seq<nat>, qs: seq<nat>, i: nat)
    requires Rep(s, ps, qs) && 0 < i < |qs|
    ensures Backs(Del(s, qs[i]), ps, qs[..i] + qs[i + 1..])
    ensures Del(s, qs[i]).heads == s.heads && !Del(s, qs[i]).fault
  {
    var t, rs: seq<nat> := Del(s, qs[i]), qs[..i] + qs[i + 1..];
    DelPprevs(s, ps, qs, i);
    forall j | 0 <= j < |rs| ensures rs[j] < |t.mem| && t.mem[rs[j]].pprev == BackOn(rs, j, 1) {
      BackWithout(qs, i, j, 1);
    }
  }

  lemma DelPprevs(s: Shared, ps: seq<nat>, qs: seq<nat>, i: nat)
    requires Rep(s, ps, qs) && 0 < i < |qs|
    ensures var t := Del(s, qs[i]);
            && t.heads == s.heads && !t.fault
            && (forall j :: 0 <= j < |ps| ==> t.mem[ps[j]].pprev == Poison)
            && (forall k :: 0 <= k < |qs| && k != i ==>
                  t.mem[qs[k]].pprev == if k == i + 1 then NextOf(qs[i - 1]) else BackOn(qs, k, 1))
  {
    var t := Del(s, qs[i]);
    assert s.mem[qs[i]].pprev == BackOn(qs, i, 1);
    RepFalls(s, ps, qs);
    RepNext(s, ps, qs, i);
    forall j | 0 <= j < |ps| ensures t.mem[ps[j]].pprev == Poison {
      assert s.mem[ps[j]].pprev == Poison;
      DelBackAt(s, qs[i], ps[j]);
    }
    forall k | 0 <= k < |qs| && k != i
      ensures t.mem[qs[k]].pprev == if k == i + 1 then NextOf(qs[i - 1]) else BackOn(qs, k, 1)
    {
      assert s.mem[qs[k]].pprev == BackOn(qs, k, 1);
      DelBackAt(s, qs[i], qs[k]);
    }
  }

  // --- a search and a replacement ---

  ghost predicate Holds(s: Shared, ids: seq<nat>, e: Entry) {
    exists x :: x in Content(s, ids) && SameKey(x, e)
  }

  // The node the search through the L2 list stops at, when no stuck node has the key.
  lemma KeyInRest(s: Shared, ps: seq<nat>, qs: seq<nat>, e: Entry) returns (i: nat)
    requires Rep(s, ps, qs) && !Holds(s, ps, e)
    ensures i <= |qs| && forall j :: 0 <= j < i ==> !SameKey(s.mem[qs[j]].e, e)
    ensures i < |qs| ==> SameKey(s.mem[qs[i]].e, e)
    ensures FirstOfKey(s.mem, s.heads[0], e) == At(qs, i)
  {
    var k := KeyAt(s.mem, s.heads[0], e);
    NotStuck(s, ps, e);
    i := PastStuck(s.mem, ps, qs, e, k);
  }

  // The place k in ps + qs, counted in qs.
  lemma PastStuck(mem: seq<Node>, ps: seq<nat>, qs: seq<nat>, e: Entry, k: nat) returns (i: nat)
    requires k <= |ps + qs| && forall j :: 0 <= j < |ps + qs| ==> (ps + qs)[j] < |mem|
    requires forall j :: 0 <= j < |ps| ==> ps[j] < |mem| && !SameKey(mem[ps[j]].e, e)
    requires forall j :: 0 <= j < k ==> !SameKey(mem[(ps + qs)[j]].e, e)
    requires k < |ps + qs| ==> SameKey(mem[(ps + qs)[k]].e, e)
    ensures k == |ps| + i && i <= |qs|
    ensures forall j :: 0 <= j < |qs| ==> qs[j] == (ps + qs)[|ps| + j]
    ensures forall j :: 0 <= j < i ==> qs[j] < |mem| && !SameKey(mem[qs[j]].e, e)
  {
    forall j | 0 <= j < |ps| ensures (ps + qs)[j] == ps[j] {
    }
    forall j | 0 <= j < |qs| ensures qs[j] == (ps + qs)[|ps| + j] {
    }
    i := k - |ps|;
  }

  lemma NotStuck(s: Shared, ps: seq<nat>, e: Entry)
    requires (forall j :: 0 <= j < |ps| ==> ps[j] < |s.mem|) && !Holds(s, ps, e)
    ensures forall j :: 0 <= j < |ps| ==> !SameKey(s.mem[ps[j]].e, e)
  {
    ContentIs(s, ps);
    forall j | 0 <= j < |ps| ensures !SameKey(s.mem[ps[j]].e, e) {
      assert Content(s, ps)[j] in Content(s, ps);
    }
  }

  // Replacing through the L2 list.
  lemma ReplaceRep(s: Shared, ps: seq<nat>, qs: seq<nat>, e: Entry) returns (ps': seq<nat>, qs': seq<nat>)
    requires Rep(s, ps, qs) && !Holds(s, ps, e)
    ensures Rep(Replace(s, 0, e), ps', qs')
    ensures Content(Replace(s, 0, e), qs') == RemoveFirst(Content(s, qs), e.fingerprint, e.mm)
    ensures forall y :: 0 <= y < |s.mem| ==> Replace(s, 0, e).mem[y].e == s.mem[y].e
    ensures forall y :: y in ps' || y in qs' ==> y in ps || y in qs
  {
    var i := KeyInRest(s, ps, qs, e);
    ContentIs(s, qs);
    FirstMatchAt(Content(s, qs), i, e.fingerprint, e.mm);
    if i == |qs| {
      ps', qs' := ps, qs;
    } else {
      ps', qs' := ReplaceAt(s, ps, qs, i);
      ContentWithout(s, qs, i);
    }
  }

  lemma ReplaceAt(s: Shared, ps: seq<nat>, qs: seq<nat>, i: nat) returns (ps': seq<nat>, qs': seq<nat>)
    requires Rep(s, ps, qs) && i < |qs|
    ensures Rep(Del(s, qs[i]), ps', qs') && qs' == qs[..i] + qs[i + 1..]
    ensures ps' == if i == 0 then ps + [qs[0]] else ps
    ensures Content(Del(s, qs[i]), ps') == Content(s, ps')
    ensures Content(Del(s, qs[i]), qs') == Content(s, qs')
    ensures forall y :: 0 <= y < |s.mem| ==> Del(s, qs[i]).mem[y].e == s.mem[y].e
  {
    var t := Del(s, qs[i]);
    assert s.mem[qs[i]].pprev == BackOn(qs, i, 1);
    RepFalls(s, ps, qs);
    DelNexts(s, qs[i]);
    qs' := qs[..i] + qs[i + 1..];
    if i == 0 {
      DelFirst(s, ps, qs);
      ps' := ps + [qs[0]];
      assert qs' == qs[1..];
    } else {
      DelLater(s, ps, qs, i);
      ps' := ps;
    }
    SameContent(s, t, ps');
    SameContent(s, t, qs');
  }

  // --- a store ---

  lemma MadeRep(s: Shared, ps: seq<nat>, qs: seq<nat>, e: Entry)
    requires Rep(s, ps, qs)
    ensures Rep(Made(s, e), ps, qs)
    ensures Content(Made(s, e), ps) == Content(s, ps) && Content(Made(s, e), qs) == Content(s, qs)
  {
    var t := Made(s, e);
    MadeLists(s, ps, qs, e);
    SameContent(s, t, ps);
    SameContent(s, t, qs);
  }

  lemma MadeLists(s: Shared, ps: seq<nat>, qs: seq<nat>, e: Entry)
    requires Lists(s, ps, qs)
    ensures Lists(Made(s, e), ps, qs)
  {
    SameWalkOn(s.mem, Made(s, e).mem, s.heads[0]);
    SameWalkOn(s.mem, Made(s, e).mem, s.heads[1]);
  }

  // Both pushes of the newest node n, which is on no list yet.
  lemma PushRep(s: Shared, ps: seq<nat>, qs: seq<nat>, n: nat, e: Entry)
    requires Rep(s, ps, qs) && n + 1 == |s.mem| && s.mem[n].e == e && n !in ps && n !in qs
    requires !Holds(s, qs, e)
    ensures var u := AddHead(s, n, 0);
            && Replace(u, 1, e) == u
            && Rep(AddHead(u, n, 1), [], [n] + qs)
            && Content(AddHead(u, n, 1), [n] + qs) == [e] + Content(s, qs)
  {
    var u := AddHead(s, n, 0);
    NewHeads(s, ps, qs, n);
    PushNexts(s, n);
    PushBacks(s, ps, qs, n);
    SameWalkOn(s.mem, u.mem, s.heads[1]);
    NoKeyOn(u, s, qs, e);
    PushLists(s, ps, qs, n, e);
  }

  lemma PushLists(s: Shared, ps: seq<nat>, qs: seq<nat>, n: nat, e: Entry)
    requires Rep(s, ps, qs) && n + 1 == |s.mem| && s.mem[n].e == e && s.heads[0] < n && s.heads[1] < n && n !in qs
    ensures var t := AddHead(AddHead(s, n, 0), n, 1);
            Lists(t, [], [n] + qs) && Content(t, [n] + qs) == [e] + Content(s, qs)
  {
    var t := AddHead(AddHead(s, n, 0), n, 1);
    PushNexts(s, n);
    SameWalkOn(s.mem, t.mem, s.heads[1]);
    assert Walk(t.mem, n) == [n] + Walk(t.mem, s.heads[1]);
    assert [] + ([n] + qs) == [n] + qs;
    EntriesAppend(t.mem, [n], qs);
    SameContent(s, t, qs);
  }

  lemma NoKeyOn(u: Shared, s: Shared, qs: seq<nat>, e: Entry)
    requires Downward(u) && |u.heads| == 2 && Nodes(u, 1) == qs && |u.mem| == |s.mem|
    requires forall i :: 0 <= i < |qs| ==> qs[i] < |s.mem|
    requires forall y :: 0 <= y < |s.mem| ==> u.mem[y].e == s.mem[y].e
    requires !Holds(s, qs, e)
    ensures Replace(u, 1, e) == u
  {
    var k := KeyAt(u.mem, u.heads[1], e);
    ContentIs(s, qs);
    forall j | 0 <= j < |qs| ensures !SameKey(u.mem[qs[j]].e, e) {
      assert Content(s, qs)[j] in Content(s, qs);
    }
  }

  // Both heads point at older nodes.
  lemma NewHeads(s: Shared, ps: seq<nat>, qs: seq<nat>, n: nat)
    requires Rep(s, ps, qs) && n + 1 == |s.mem| && n !in ps && n !in qs
    ensures s.heads[0] < n && s.heads[1] < n
    ensures s.heads[1] == At(qs, 0) && s.heads[0] == At(ps + qs, 0)
  {
    HeadOfNodes(s, 0);
    HeadOfNodes(s, 1);
  }

  lemma PushNexts(s: Shared, n: nat)
    requires Downward(s) && |s.heads| == 2 && n + 1 == |s.mem| && s.heads[0] < n && s.heads[1] < n && !s.fault
    ensures var u := AddHead(s, n, 0);
            var t := AddHead(u, n, 1);
            && Downward(u) && Downward(t) && !u.fault && !t.fault
            && u.heads[1] == s.heads[1] && t.heads == [n, n] && t.mem[n].next == s.heads[1]
            && (forall y :: 0 <= y < |s.mem| ==> u.mem[y].e == s.mem[y].e && t.mem[y].e == s.mem[y].e)
            && (forall y :: 0 <= y < n ==> u.mem[y].next == s.mem[y].next && t.mem[y].next == s.mem[y].next)
  {
  }

  lemma PushBacks(s: Shared, ps: seq<nat>, qs: seq<nat>, n: nat)
    requires Rep(s, ps, qs) && n + 1 == |s.mem| && n !in ps && n !in qs
    ensures Backs(AddHead(AddHead(s, n, 0), n, 1), [], [n] + qs)
  {
    var t, rs := AddHead(AddHead(s, n, 0), n, 1), [n] + qs;
    NewHeads(s, ps, qs, n);
    RepFalls(s, ps, qs);
    forall i | 0 <= i < |rs| ensures rs[i] < |t.mem| && t.mem[rs[i]].pprev == BackOn(rs, i, 1) {
      if i > 0 {
        assert rs[i] == qs[i - 1] && s.mem[qs[i - 1]].pprev == BackOn(qs, i - 1, 1);
      }
    }
  }

  // A stuck node of the key: its pprev is poisoned.
  lemma StuckFaults(s: Shared, ps: seq<nat>, qs: seq<nat>, e: Entry)
    requires Rep(s, ps, qs) && Holds(s, ps, e)
    ensures Replace(s, 0, e).fault
  {
    var k := KeyAt(s.mem, s.heads[0], e);
    var w := ps + qs;
    ContentIs(s, ps);
    var x :| x in Content(s, ps) && SameKey(x, e);
    var i :| 0 <= i < |ps| && Content(s, ps)[i] == x;
    assert w[i] == ps[i] && k <= i;
    assert w[k] == ps[k];
  }

  // A new entry's key is on the L3 list no more.
  lemma KeyGone(ch: Chain, e: Entry)
    requires UniqueKeys(ch)
    ensures forall x :: x in RemoveFirst(ch, e.fingerprint, e.mm) ==> !SameKey(x, e)
  {
    RemoveFirstUnique(ch, e.fingerprint, e.mm);
  }

  lemma PutRefines(s: Shared, a: Plain, e: Entry)
    requires Refines(s, a) && |s.heads| == 2
    ensures Refines(Serve(s, Put(e)), PlainServe(a, Put(e)))
  {
    if !a.fault {
      var ps, qs :| Rep(s, ps, qs) && Content(s, ps) == a.stuck && Content(s, qs) == a.rest;
      MadeRep(s, ps, qs, e);
      if Holds(Made(s, e), ps, e) {
        StuckFaults(Made(s, e), ps, qs, e);
      } else {
        PutUnstuck(s, a, ps, qs, e);
      }
    }
  }

  lemma PutUnstuck(s: Shared, a: Plain, ps: seq<nat>, qs: seq<nat>, e: Entry)
    requires Rep(s, ps, qs) && !a.fault && UniqueKeys(a.rest) && !Holds(Made(s, e), ps, e)
    requires Content(s, ps) == a.stuck && Content(s, qs) == a.rest
    ensures Refines(StoreOn(s, e, 0, 1), PlainServe(a, Put(e)))
  {
    MadeRep(s, ps, qs, e);
    var rs := PutRep(s, ps, qs, e);
    StoreChainUnique(a.rest, e);
    RefinesBy(StoreOn(s, e, 0, 1), [], rs, PlainServe(a, Put(e)));
  }

  lemma PutRep(s: Shared, ps: seq<nat>, qs: seq<nat>, e: Entry) returns (rs: seq<nat>)
    requires Rep(s, ps, qs) && UniqueKeys(Content(s, qs)) && !Holds(Made(s, e), ps, e)
    ensures Rep(StoreOn(s, e, 0, 1), [], rs)
    ensures Content(StoreOn(s, e, 0, 1), rs) == StoreChain(Content(s, qs), e)
  {
    var m, n := Made(s, e), |s.mem|;
    MadeRep(s, ps, qs, e);
    var ps', qs' := ReplaceRep(m, ps, qs, e);
    var t := Replace(m, 0, e);
    KeyGone(Content(s, qs), e);
    assert n !in ps && n !in qs;
    PushRep(t, ps', qs', n, e);
    rs := [n] + qs';
  }

  lemma RefinesBy(s: Shared, ps: seq<nat>, qs: seq<nat>, a: Plain)
    requires Rep(s, ps, qs) && !a.fault && UniqueKeys(a.rest)
    requires Content(s, ps) == a.stuck && Content(s, qs) == a.rest
    ensures Refines(s, a)
  {
  }

  // --- an invalidation ---

  // The cursor moves over stuck nodes of other mms.
  lemma {:induction false} PassStuck(s: Shared, ps: seq<nat>, qs: seq<nat>, j: nat, mm: u64)
    requires Rep(s, ps, qs) && j <= |ps| && forall k :: 0 <= k < |ps| ==> s.mem[ps[k]].e.mm != mm
    ensures PurgeFrom(s, At(ps + qs, j), mm) == PurgeFrom(s, At(qs, 0), mm)
    decreases |ps| - j
  {
    if j < |ps| {
      NextOn(s, 0, j);
      assert (ps + qs)[j] == ps[j];
      PassStuck(s, ps, qs, j + 1, mm);
    }
  }

  // It faults on the first of its own.
  lemma {:induction false} StopAtStuck(s: Shared, ps: seq<nat>, qs: seq<nat>, j: nat, i: nat, mm: u64)
    requires Rep(s, ps, qs) && j <= i < |ps| && s.mem[ps[i]].e.mm == mm
    ensures PurgeFrom(s, At(ps + qs, j), mm).fault
    decreases |ps| - j
  {
    NextOn(s, 0, j);
    assert (ps + qs)[j] == ps[j];
    if s.mem[ps[j]].e.mm != mm {
      StopAtStuck(s, ps, qs, j + 1, i, mm);
    } else {
      PoisonedFaults(s, ps[j], mm);
    }
  }

  lemma PoisonedFaults(s: Shared, x: nat, mm: u64)
    requires x < |s.mem| && s.mem[x].pprev == Poison && s.mem[x].e.mm == mm
    ensures PurgeFrom(s, x, mm).fault
  {
    assert Del(s, x).fault;
  }

  // The pass over the common part, from position i on.
  lemma {:induction false} PassRest(s: Shared, ps: seq<nat>, qs: seq<nat>, i: nat, mm: u64)
    returns (ps': seq<nat>, qs': seq<nat>)
    requires Rep(s, ps, qs) && i <= |qs| && forall k :: 0 <= k < i ==> s.mem[qs[k]].e.mm != mm
    ensures var t := PurgeFrom(s, At(qs, i), mm);
            && Rep(t, ps', qs')
            && Content(t, ps') == Content(s, ps) + (if i == 0 then Leading(Content(s, qs), mm) else [])
            && Content(t, qs') == Purge(Content(s, qs), mm)
    decreases |qs| - i
  {
    KeptSoFar(s, qs, i, mm);
    if i == |qs| {
      ps', qs' := ps, qs;
    } else {
      PassTurn(s, 1, i, mm);
      if s.mem[qs[i]].e.mm == mm {
        ps', qs' := PassOne(s, ps, qs, i, mm);
      } else {
        ps', qs' := PassRest(s, ps, qs, i + 1, mm);
      }
    }
  }

  // With nothing of the mm met so far.
  lemma KeptSoFar(s: Shared, qs: seq<nat>, i: nat, mm: u64)
    requires i <= |qs| && forall k :: 0 <= k < |qs| ==> qs[k] < |s.mem|
    requires forall k :: 0 <= k < i ==> s.mem[qs[k]].e.mm != mm
    ensures i == |qs| ==> Purge(Content(s, qs), mm) == Content(s, qs)
    ensures qs == [] || s.mem[qs[0]].e.mm != mm ==> Leading(Content(s, qs), mm) == []
  {
    ContentIs(s, qs);
    if i == |qs| { PurgeNone(Content(s, qs), mm); }
  }

  // One turn that unlinks.
  lemma {:induction false} PassOne(s: Shared, ps: seq<nat>, qs: seq<nat>, i: nat, mm: u64)
    returns (ps': seq<nat>, qs': seq<nat>)
    requires Rep(s, ps, qs) && i < |qs| && forall k :: 0 <= k < i ==> s.mem[qs[k]].e.mm != mm
    requires s.mem[qs[i]].e.mm == mm
    ensures var t := PurgeFrom(Del(s, qs[i]), At(qs, i + 1), mm);
            && Rep(t, ps', qs')
            && Content(t, ps') == Content(s, ps) + (if i == 0 then Leading(Content(s, qs), mm) else [])
            && Content(t, qs') == Purge(Content(s, qs), mm)
    decreases |qs| - i, 0
  {
    var ps1, qs1 := ReplaceAt(s, ps, qs, i);
    assert At(qs1, i) == At(qs, i + 1);
    ps', qs' := PassRest(Del(s, qs[i]), ps1, qs1, i, mm);
    OneGone(s, ps, qs, i, mm);
  }

  // What one unlinking does to the two sides of the result.
  lemma OneGone(s: Shared, ps: seq<nat>, qs: seq<nat>, i: nat, mm: u64)
    requires Rep(s, ps, qs) && i < |qs| && s.mem[qs[i]].e.mm == mm
    ensures var rs := qs[..i] + qs[i + 1..];
            && Purge(Content(s, rs), mm) == Purge(Content(s, qs), mm)
            && (i == 0 ==> Content(s, ps + [qs[0]]) + Leading(Content(s, rs), mm)
                           == Content(s, ps) + Leading(Content(s, qs), mm))
  {
    ContentWithout(s, qs, i);
    ContentIs(s, qs);
    PurgeWithout(Content(s, qs), i, mm);
    if i == 0 {
      EntriesAppend(s.mem, ps, [qs[0]]);
      LeadingFirst(s, qs, mm);
      var one, rest := Content(s, [qs[0]]), Leading(Content(s, qs[..0] + qs[1..]), mm);
      assert (Content(s, ps) + one) + rest == Content(s, ps) + (one + rest);
    }
  }

  lemma LeadingFirst(s: Shared, qs: seq<nat>, mm: u64)
    requires |qs| > 0 && qs[0] < |s.mem| && s.mem[qs[0]].e.mm == mm
    ensures Leading(Content(s, qs), mm) == Content(s, [qs[0]]) + Leading(Content(s, qs[..0] + qs[1..]), mm)
  {
    assert qs[..0] + qs[1..] == qs[1..];
    var e := s.mem[qs[0]].e;
    ContentIs(s, [qs[0]]);
    assert Content(s, [qs[0]]) == [e];
    assert ([e] + Content(s, qs[1..]))[1..] == Content(s, qs[1..]);
  }

  lemma DropRefines(s: Shared, a: Plain, mm: u64)
    requires Refines(s, a) && |s.heads| == 2
    ensures Refines(Serve(s, Drop(mm)), PlainServe(a, Drop(mm)))
  {
    if !a.fault {
      var ps, qs :| Rep(s, ps, qs) && Content(s, ps) == a.stuck && Content(s, qs) == a.rest;
      DropBy(s, a, ps, qs, mm);
      assert Serve(s, Drop(mm)) == InvalidateOn(s, mm, 0, 1);
    }
  }

  lemma DropBy(s: Shared, a: Plain, ps: seq<nat>, qs: seq<nat>, mm: u64)
    requires Rep(s, ps, qs) && !a.fault && UniqueKeys(a.rest)
    requires Content(s, ps) == a.stuck && Content(s, qs) == a.rest
    ensures Refines(InvalidateOn(s, mm, 0, 1), PlainServe(a, Drop(mm)))
  {
    if x :| x in a.stuck && x.mm == mm {
      DropStuck(s, ps, qs, x);
    } else {
      DropUnstuck(s, a, ps, qs, mm);
    }
  }

  lemma DropUnstuck(s: Shared, a: Plain, ps: seq<nat>, qs: seq<nat>, mm: u64)
    requires Rep(s, ps, qs) && !a.fault && UniqueKeys(a.rest) && forall x :: x in a.stuck ==> x.mm != mm
    requires Content(s, ps) == a.stuck && Content(s, qs) == a.rest
    ensures Refines(InvalidateOn(s, mm, 0, 1), PlainServe(a, Drop(mm)))
  {
    var ps', qs' := DropRep(s, ps, qs, mm);
    PurgeUnique(a.rest, mm);
    RefinesBy(InvalidateOn(s, mm, 0, 1), ps', qs', PlainServe(a, Drop(mm)));
  }

  lemma DropStuck(s: Shared, ps: seq<nat>, qs: seq<nat>, x: Entry)
    requires Rep(s, ps, qs) && x in Content(s, ps)
    ensures InvalidateOn(s, x.mm, 0, 1).fault
  {
    HeadOfNodes(s, 0);
    ContentIs(s, ps);
    var i :| 0 <= i < |ps| && Content(s, ps)[i] == x;
    StopAtStuck(s, ps, qs, 0, i, x.mm);
  }

  lemma DropRep(s: Shared, ps: seq<nat>, qs: seq<nat>, mm: u64) returns (ps': seq<nat>, qs': seq<nat>)
    requires Rep(s, ps, qs) && forall x :: x in Content(s, ps) ==> x.mm != mm
    ensures var t := InvalidateOn(s, mm, 0, 1);
            && Rep(t, ps', qs')
            && Content(t, ps') == Content(s, ps) + Leading(Content(s, qs), mm)
            && Content(t, qs') == Purge(Content(s, qs), mm)
  {
    HeadOfNodes(s, 0);
    ContentIs(s, ps);
    forall k | 0 <= k < |ps| ensures s.mem[ps[k]].e.mm != mm {
      assert Content(s, ps)[k] in Content(s, ps);
    }
    PassStuck(s, ps, qs, 0, mm);
    ps', qs' := PassRest(s, ps, qs, 0, mm);
    SecondPass(PurgeFrom(s, s.heads[0], mm), ps', qs', Content(s, qs), mm);
  }

  // The pass over the L3 bucket finds nothing left.
  lemma SecondPass(t: Shared, ps: seq<nat>, qs: seq<nat>, ch: Chain, mm: u64)
    requires Rep(t, ps, qs) && Content(t, qs) == Purge(ch, mm)
    ensures PurgeFrom(t, t.heads[1], mm) == t
  {
    PurgeExact(ch, mm);
    ContentIs(t, qs);
    forall k | 0 <= k < |qs| ensures t.mem[qs[k]].e.mm != mm {
      assert Content(t, qs)[k] in Purge(ch, mm);
    }
    PassNothing(t, t.heads[1], mm);
  }

  // --- a lookup ---

  lemma {:induction false} LiveNodeIn(mem: seq<Node>, p: int, fingerprint: u64, mm: u64, jiffies: u64)
    requires Older(mem) && NIL <= p < |mem|
    ensures var x := LiveNode(mem, p, fingerprint, mm, jiffies);
            x != NIL ==> x in Walk(mem, p) && Live(mem[x].e, fingerprint, mm, jiffies)
    decreases p
  {
    if p != NIL && !Live(mem[p].e, fingerprint, mm, jiffies) {
      assert Walk(mem, p) == [p] + Walk(mem, mem[p].next);
      LiveNodeIn(mem, mem[p].next, fingerprint, mm, jiffies);
    }
  }

  lemma BucketsOf(s: Shared, a: Plain)
    requires Refines(s, a) && !a.fault
    ensures BucketOn(s, 0) == a.stuck + a.rest && BucketOn(s, 1) == a.rest
  {
    var ps, qs :| Rep(s, ps, qs) && Content(s, ps) == a.stuck && Content(s, qs) == a.rest;
    EntriesAppend(s.mem, ps, qs);
  }

  // What the L3 bucket would answer the L2 bucket has answered already.
  lemma NeverL3(s: Shared, a: Plain, fingerprint: u64, mm: u64, jiffies: u64)
    requires Refines(s, a) && !a.fault && |s.heads| == 2 && FoundL2(s, fingerprint, mm, jiffies).None?
    ensures FoundL3(s, fingerprint, mm, jiffies).None?
    ensures LiveNode(s.mem, s.heads[1], fingerprint, mm, jiffies) == NIL
  {
    BucketsOf(s, a);
    FindLiveFirst(BucketOn(s, 0), fingerprint, mm, jiffies);
    FindLiveFirst(BucketOn(s, 1), fingerprint, mm, jiffies);
    var ps, qs :| Rep(s, ps, qs) && Content(s, ps) == a.stuck && Content(s, qs) == a.rest;
    ContentIs(s, qs);
    forall i | 0 <= i < |qs| ensures !Live(s.mem[qs[i]].e, fingerprint, mm, jiffies) {
      assert Content(s, qs)[i] in a.rest;
    }
    LiveNodeIn(s.mem, s.heads[1], fingerprint, mm, jiffies);
  }

  // --- every run ---

  /** In every run the real pair of buckets does what the plain machine does: the L3 bucket
      holds `rest`, the L2 bucket `stuck` and then `rest`, and the first write through a
      poisoned pprev comes at the same request. */
  lemma {:induction false} PairRefines(rs: seq<Request>)
    ensures Refines(ServeAll(rs), PlainAll(rs))
  {
    if rs == [] {
      assert Rep(EMPTY_PAIR, [], []);
    } else {
      var front, r := rs[..|rs| - 1], rs[|rs| - 1];
      PairRefines(front);
      var s, a := ServeAll(front), PlainAll(front);
      match r
      case Put(e) => PutRefines(s, a, e);
      case Drop(mm) => DropRefines(s, a, mm);
      case Get(fingerprint, mm, jiffies) =>
        if !a.fault && FoundL2(s, fingerprint, mm, jiffies).None? { NeverL3(s, a, fingerprint, mm, jiffies); }
    }
  }

  // What a bucket of its own would hold after the same requests.
  function Apart(rs: seq<Request>): Chain {
    if rs == [] then []
    else
      var before := Apart(rs[..|rs| - 1]);
      match rs[|rs| - 1]
      case Put(e) => StoreChain(before, e)
      case Drop(mm) => Purge(before, mm)
      case Get(_, _, _) => before
  }

  // Since the last store an invalidation has met an entry of its mm at the front.
  predicate MetFront(rs: seq<Request>) {
    if rs == [] then false
    else
      var front := rs[..|rs| - 1];
      match rs[|rs| - 1]
      case Put(_) => false
      case Drop(mm) => MetFront(front) || (Apart(front) != [] && Apart(front)[0].mm == mm)
      case Get(_, _, _) => MetFront(front)
  }

  lemma {:induction false} PlainIsApart(rs: seq<Request>)
    requires !PlainAll(rs).fault
    ensures PlainAll(rs).rest == Apart(rs)
    ensures PlainAll(rs).stuck != [] <==> MetFront(rs)
  {
    if rs != [] { PlainIsApart(rs[..|rs| - 1]); }
  }

  /** Until the first such write, the L3 bucket holds in every run exactly what a bucket of
      its own would, and the L2 bucket does too if and only if no invalidation since the last
      store has met an entry of its mm at the front. A lookup never goes on to L3. */
  lemma AgreesExactly(rs: seq<Request>, fingerprint: u64, mm: u64, jiffies: u64)
    requires !ServeAll(rs).fault
    ensures BucketOn(ServeAll(rs), 1) == Apart(rs)
    ensures BucketOn(ServeAll(rs), 0) == Apart(rs) <==> !MetFront(rs)
    ensures FoundL2(ServeAll(rs), fingerprint, mm, jiffies).None? ==>
              FoundL3(ServeAll(rs), fingerprint, mm, jiffies).None?
  {
    var s, a := ServeAll(rs), PlainAll(rs);
    PairRefines(rs);
    PlainIsApart(rs);
    BucketsOf(s, a);
    assert |a.stuck + a.rest| == |a.stuck| + |a.rest|;
    if FoundL2(s, fingerprint, mm, jiffies).None? { NeverL3(s, a, fingerprint, mm, jiffies); }
  }

  // The entries only the L2 bucket holds.
  function StuckOn(s: Shared): Chain {
    var n2, n3 := |BucketOn(s, 0)|, |BucketOn(s, 1)|;
    if n3 <= n2 then BucketOn(s, 0)[..n2 - n3] else []
  }

  /** When the next request writes through a poisoned pprev: a store of the key of a stuck
      entry, or an invalidation of its mm. */
  lemma FaultsExactly(rs: seq<Request>, r: Request)
    requires !ServeAll(rs).fault
    ensures Serve(ServeAll(rs), r).fault <==>
            match r
            case Put(e) => exists x :: x in StuckOn(ServeAll(rs)) && SameKey(x, e)
            case Drop(mm) => exists x :: x in StuckOn(ServeAll(rs)) && x.mm == mm
            case Get(_, _, _) => false
  {
    var s, a := ServeAll(rs), PlainAll(rs);
    PairRefines(rs);
    assert (rs + [r])[..|rs|] == rs;
    PairRefines(rs + [r]);
    BucketsOf(s, a);
    assert StuckOn(s) == a.stuck;
  }

  // --- reading back ---

  // The request can change what is found for e's key.
  predicate Meddles(r: Request, e: Entry) {
    match r
    case Put(f) => SameKey(e, f)
    case Drop(mm) => mm == e.mm
    case Get(_, _, _) => false
  }

  ghost predicate InRest(a: Plain, e: Entry) {
    UniqueKeys(a.rest) && e in a.rest && forall x :: x in a.stuck ==> x.mm != e.mm
  }

  lemma {:induction false} LeadingIn(ch: Chain, mm: u64)
    ensures forall x :: x in Leading(ch, mm) ==> x.mm == mm
  {
    if ch != [] { LeadingIn(ch[1..], mm); }
  }

  lemma InRestStep(a: Plain, r: Request, e: Entry)
    requires InRest(a, e) && !Meddles(r, e)
    ensures InRest(PlainServe(a, r), e)
  {
    match r
    case Put(f) =>
      StoreChainUnique(a.rest, f);
      RemoveFirstKeeps(a.rest, f.fingerprint, f.mm);
    case Drop(mm) =>
      LeadingIn(a.rest, mm);
      PurgeUnique(a.rest, mm);
      PurgeExact(a.rest, mm);
    case Get(_, _, _) =>
  }

  lemma {:induction false} InRestRun(rs: seq<Request>, e: Entry, later: seq<Request>)
    requires forall i :: 0 <= i < |later| ==> !Meddles(later[i], e)
    requires !PlainAll(rs + [Put(e)] + later).fault
    ensures InRest(PlainAll(rs + [Put(e)] + later), e)
  {
    var all := rs + [Put(e)] + later;
    if later == [] {
      assert all == rs + [Put(e)] && all[..|all| - 1] == rs;
      PairRefines(rs);
      StoreChainUnique(PlainAll(rs).rest, e);
    } else {
      var front := later[..|later| - 1];
      assert all[..|all| - 1] == rs + [Put(e)] + front;
      InRestRun(rs, e, front);
      InRestStep(PlainAll(rs + [Put(e)] + front), later[|later| - 1], e);
    }
  }

  /** What the CPU stores it finds again in its L2 bucket, as long as it stores the key no
      more, invalidates only other mms, and the entry has not expired. */
  lemma PairReadsItsWrites(rs: seq<Request>, e: Entry, later: seq<Request>, jiffies: u64)
    requires forall i :: 0 <= i < |later| ==> !Meddles(later[i], e)
    requires !ServeAll(rs + [Put(e)] + later).fault && TimeBefore(jiffies, e.expiry)
    ensures FoundL2(ServeAll(rs + [Put(e)] + later), e.fingerprint, e.mm, jiffies) == Some(e)
  {
    var all := rs + [Put(e)] + later;
    var a := PlainAll(all);
    PairRefines(all);
    BucketsOf(ServeAll(all), a);
    InRestRun(rs, e, later);
    FindLiveUnique(a.rest, e, jiffies);
    SkipStuck(a.stuck, a.rest, e.fingerprint, e.mm, jiffies);
  }

  lemma {:induction false} SkipStuck(stuck: Chain, rest: Chain, fingerprint: u64, mm: u64, jiffies: u64)
    requires forall x :: x in stuck ==> x.mm != mm
    ensures FindLive(stuck + rest, fingerprint, mm, jiffies) == FindLive(rest, fingerprint, mm, jiffies)
  {
    if stuck == [] {
      assert stuck + rest == rest;
    } else {
      assert (stuck + rest)[1..] == stuck[1..] + rest;
      SkipStuck(stuck[1..], rest, fingerprint, mm, jiffies);
    }
  }

  // --- misses after an invalidation ---

  // No lookup of the mm finds anything in the chain, whenever it comes.
  ghost predicate Misses(ch: Chain, mm: u64) {
    forall f: u64, j: u64 :: FindLive(ch, f, mm, j) == None
  }

  /** An invalidation leaves the caller without a hit for the mm if and only if the bucket
      was empty or its first entry belonged to another mm. From L3 the mm is always gone. */
  lemma DropMissesExactly(rs: seq<Request>, mm: u64)
    requires !Serve(ServeAll(rs), Drop(mm)).fault
    ensures var t := Serve(ServeAll(rs), Drop(mm));
            && Misses(BucketOn(t, 1), mm)
            && (Misses(BucketOn(t, 0), mm) <==> Apart(rs) == [] || Apart(rs)[0].mm != mm)
  {
    var s, a := ServeAll(rs), PlainAll(rs);
    PairRefines(rs);
    DropRefines(s, a, mm);
    PlainIsApart(rs);
    BucketsOf(Serve(s, Drop(mm)), PlainServe(a, Drop(mm)));
    PurgeMisses(a.rest, mm);
    LeadingAnswers(a.stuck, a.rest, mm);
  }

  lemma PurgeMisses(ch: Chain, mm: u64)
    ensures Misses(Purge(ch, mm), mm)
  {
    PurgeExact(ch, mm);
    forall f: u64, j: u64 ensures FindLive(Purge(ch, mm), f, mm, j) == None { FindLiveFirst(Purge(ch, mm), f, mm, j); }
  }

  // When nothing of the mm is left after an invalidation.
  lemma LeadingAnswers(stuck: Chain, rest: Chain, mm: u64)
    requires forall x :: x in stuck ==> x.mm != mm
    ensures Misses((stuck + Leading(rest, mm)) + Purge(rest, mm), mm) <==> rest == [] || rest[0].mm != mm
  {
    var after := (stuck + Leading(rest, mm)) + Purge(rest, mm);
    if rest != [] && rest[0].mm == mm {
      assert Leading(rest, mm)[0] == rest[0] && after[|stuck|] == rest[0];
      MemberAnswers(after, rest[0]);
    } else {
      PurgeExact(rest, mm);
      assert Leading(rest, mm) == [];
      forall f: u64, j: u64 ensures FindLive(after, f, mm, j) == None { FindLiveFirst(after, f, mm, j); }
    }
  }

  // Any member is found at some time by a lookup of its mm, or another one in front of it.
  lemma MemberAnswers(ch: Chain, e: Entry)
    requires e in ch
    ensures !Misses(ch, e.mm)
  {
    var j := Wrap(e.expiry - 1);
    JustBefore(e.expiry);
    FindLiveFirst(ch, e.fingerprint, e.mm, j);
    assert Live(e, e.fingerprint, e.mm, j);
    assert FindLive(ch, e.fingerprint, e.mm, j) != None;
  }

  lemma JustBefore(x: u64)
    ensures TimeBefore(Wrap(x - 1), x)
  {
    assert Wrap(x - 1) == if x == 0 then WORD - 1 else x - 1;
  }

  /** Two calls: what has just been stored is still found after its mm has been invalidated,
      as long as it has not expired; and then a second invalidation of the mm, or a store
      of the key, writes through a poisoned pprev. */
  lemma StoreThenInvalidate(e: Entry, f: Entry)
    requires SameKey(e, f)
    ensures var t := ServeAll([Put(e), Drop(e.mm)]);
            && !t.fault && BucketOn(t, 0) == [e] && BucketOn(t, 1) == []
            && (forall j :: TimeBefore(j, e.expiry) ==> FoundL2(t, e.fingerprint, e.mm, j) == Some(e))
            && Serve(t, Drop(e.mm)).fault && Serve(t, Put(f)).fault
  {
    var rs := [Put(e), Drop(e.mm)];
    assert rs[..1] == [Put(e)] && rs[..1][..0] == [];
    assert PlainAll([Put(e)]) == PlainServe(Plain([], [], false), Put(e)) == Plain([], [e], false);
    assert Leading([e], e.mm) == [e] && [] + [e] == [e];
    assert PlainAll(rs) == PlainServe(PlainAll([Put(e)]), Drop(e.mm));
    assert Purge([e], e.mm) == [];
    assert PlainAll(rs) == Plain([e], [], false);
    PairRefines(rs);
    BucketsOf(ServeAll(rs), PlainAll(rs));
    assert StuckOn(ServeAll(rs)) == [e];
    FaultsExactly(rs, Drop(e.mm));
    FaultsExactly(rs, Put(f));
    assert e in StuckOn(ServeAll(rs));
  }
}
