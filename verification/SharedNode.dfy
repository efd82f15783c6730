/** What the code really links: an entry has one `node`, which store_result pushes onto an
    L2 bucket and then onto an L3 bucket, and which promote_to_l2 moves. The second push
    rewrites the node's `next` and `pprev`, so the L2 bucket goes on where the L3 bucket
    does, and unlinking the node writes the L3 head. The two-tier machine of module System
    gives every tier nodes of its own; this module and SharedPair say where that differs.
    Nodes are never freed here. */
module SharedNode {
  import opened Words
  import opened Entries
  import opened Chains
  import opened RcuTier

  /** Any number of bucket heads, of either tier, over one set of nodes, numbered as they
      were made. `fault` is raised by a write through a poisoned pprev. */
  datatype Shared = Shared(mem: seq<Node>, heads: seq<int>, fault: bool)

  function HeadOn(s: Shared, h: nat): int {
    if h < |s.heads| then s.heads[h] else NIL
  }

  function Nodes(s: Shared, h: nat): seq<nat> {
    Walk(s.mem, HeadOn(s, h))
  }

  function BucketOn(s: Shared, h: nat): Chain {
    EntriesAt(s.mem, Nodes(s, h))
  }

  // --- the two list primitives, write by write ---

  function SetPlace(s: Shared, l: Link, v: int): Shared {
    match l
    case HeadOf(h) => if h < |s.heads| then s.(heads := s.heads[h := v]) else s.(fault := true)
    case NextOf(a) => if a < |s.mem| then s.(mem := s.mem[a := s.mem[a].(next := v)]) else s.(fault := true)
    case Poison => s.(fault := true)
  }

  function SetBack(s: Shared, x: int, l: Link): Shared {
    if 0 <= x < |s.mem| then s.(mem := s.mem[x := s.mem[x].(pprev := l)]) else s
  }

  // hlist_add_head_rcu
  function AddHead(s: Shared, n: nat, h: nat): (t: Shared)
    requires n < |s.mem| && h < |s.heads|
    ensures |t.mem| == |s.mem| && |t.heads| == |s.heads| && (s.fault ==> t.fault)
  {
    var first := s.heads[h];
    SetBack(s.(mem := s.mem[n := s.mem[n].(next := first, pprev := HeadOf(h))], heads := s.heads[h := n]),
            first, NextOf(n))
  }

  // hlist_del_rcu
  function Del(s: Shared, x: nat): (t: Shared)
    requires x < |s.mem|
    ensures |t.mem| == |s.mem| && |t.heads| == |s.heads| && (s.fault ==> t.fault)
  {
    var next, pprev := s.mem[x].next, s.mem[x].pprev;
    SetBack(SetBack(SetPlace(s, pprev, next), next, pprev), x, Poison)
  }

  // --- the calls, on the buckets concerned ---

  function Made(s: Shared, e: Entry): Shared {
    s.(mem := s.mem + [Node(e, 0, NIL, Poison)])
  }

  // The search of store_in_l2 and store_in_l3.
  function FirstOfKey(mem: seq<Node>, p: int, e: Entry): (x: int)
    ensures x == NIL || 0 <= x < |mem|
    decreases p
  {
    if 0 <= p < |mem| then
      if SameKey(mem[p].e, e) then p
      else if NIL <= mem[p].next < p then FirstOfKey(mem, mem[p].next, e)
      else NIL
    else NIL
  }

  function Replace(s: Shared, h: nat, e: Entry): (t: Shared)
    ensures |t.mem| == |s.mem| && |t.heads| == |s.heads| && (s.fault ==> t.fault)
  {
    var x := FirstOfKey(s.mem, HeadOn(s, h), e);
    if x == NIL then s else Del(s, x)
  }

  // store_result: into L2 bucket h2, then into L3 bucket h3.
  function StoreOn(s: Shared, e: Entry, h2: nat, h3: nat): (t: Shared)
    requires h2 < |s.heads| && h3 < |s.heads|
    ensures |t.mem| == |s.mem| + 1 && |t.heads| == |s.heads| && (s.fault ==> t.fault)
  {
    var n := |s.mem|;
    AddHead(Replace(AddHead(Replace(Made(s, e), h2, e), n, h2), h3, e), n, h3)
  }

  // The safe iteration of invalidate_range over one bucket.
  function PurgeFrom(s: Shared, cur: int, mm: u64): (t: Shared)
    ensures |t.mem| == |s.mem| && |t.heads| == |s.heads| && (s.fault ==> t.fault)
    decreases cur
  {
    if 0 <= cur < |s.mem| then
      var tmp := s.mem[cur].next;
      var t := if s.mem[cur].e.mm == mm then Del(s, cur) else s;
      if NIL <= tmp < cur then PurgeFrom(t, tmp, mm) else t
    else s
  }

  function InvalidateOn(s: Shared, mm: u64, h2: nat, h3: nat): (t: Shared)
    ensures |t.mem| == |s.mem| && |t.heads| == |s.heads| && (s.fault ==> t.fault)
  {
    var t := PurgeFrom(s, HeadOn(s, h2), mm);
    PurgeFrom(t, HeadOn(t, h3), mm)
  }

  // promote_to_l2 of node x into L2 bucket h2
  function PromoteOn(s: Shared, x: nat, h2: nat): (t: Shared)
    requires x < |s.mem| && h2 < |s.heads|
    ensures |t.mem| == |s.mem| && |t.heads| == |s.heads| && (s.fault ==> t.fault)
  {
    AddHead(Del(s, x), x, h2)
  }

  // --- walks ---

  // Every `next` and head leads to an older node or is NULL.
  ghost predicate Downward(s: Shared) {
    && (forall x :: 0 <= x < |s.mem| ==> NIL <= s.mem[x].next < x)
    && (forall h :: 0 <= h < |s.heads| ==> NIL <= s.heads[h] < |s.mem|)
  }

  ghost predicate Older(mem: seq<Node>) {
    forall x :: 0 <= x < |mem| ==> NIL <= mem[x].next < x
  }

  lemma {:induction false} WalkFalls(mem: seq<Node>, p: int)
    requires Older(mem) && NIL <= p < |mem|
    ensures forall i :: 0 <= i < |Walk(mem, p)| ==> Walk(mem, p)[i] <= p
    ensures forall i, j :: 0 <= i < j < |Walk(mem, p)| ==> Walk(mem, p)[j] < Walk(mem, p)[i]
    decreases p
  {
    if p != NIL { WalkFalls(mem, mem[p].next); }
  }

  // Where node w[i] of a walk leads.
  lemma {:induction false} WalkFrom(mem: seq<Node>, p: int, i: nat)
    requires Older(mem) && NIL <= p < |mem| && i < |Walk(mem, p)|
    ensures var w := Walk(mem, p);
            w[i] < |mem| && Walk(mem, w[i]) == w[i..] && Walk(mem, mem[w[i]].next) == w[i + 1..]
    decreases p
  {
    var w := Walk(mem, p);
    assert w == [p] + Walk(mem, mem[p].next);
    if i > 0 {
      WalkFrom(mem, mem[p].next, i - 1);
      assert w[i..] == Walk(mem, mem[p].next)[i - 1..] && w[i + 1..] == Walk(mem, mem[p].next)[i..];
    }
  }

  ghost predicate SameNexts(was: seq<Node>, mem: seq<Node>, w: seq<nat>) {
    && |was| <= |mem|
    && (forall x :: 0 <= x < |was| ==> mem[x].e == was[x].e)
    && (forall x :: 0 <= x < |was| && x in w ==> mem[x].next == was[x].next)
  }

  // Only the `next` fields on the way decide a walk.
  lemma {:induction false} SameWalkOn(was: seq<Node>, mem: seq<Node>, p: int)
    requires Older(was) && NIL <= p < |was| && SameNexts(was, mem, Walk(was, p))
    ensures Walk(mem, p) == Walk(was, p)
    decreases p
  {
    if p != NIL {
      var w, r := Walk(was, p), Walk(was, was[p].next);
      assert w == [p] + r;
      assert p in w && forall x :: x in r ==> x in w;
      SameWalkOn(was, mem, was[p].next);
    }
  }

  // mem is was with node a led past its successor x.
  ghost predicate Bypassed(was: seq<Node>, mem: seq<Node>, a: nat, x: nat) {
    && |mem| == |was| && a < |was| && x < |was| && was[a].next == x && mem[a].next == was[x].next
    && forall y :: 0 <= y < |was| ==> mem[y].e == was[y].e && (y != a ==> mem[y].next == was[y].next)
  }

  // Up to node a a walk stays the same, when only a and older nodes have changed.
  lemma {:induction false} WalkPrefix(was: seq<Node>, mem: seq<Node>, a: nat, p: int, front: seq<nat>)
    requires Older(was) && |mem| == |was| && a < |was| && NIL <= p < |was|
    requires forall y :: a < y < |was| ==> mem[y].next == was[y].next
    requires Walk(was, p) == front + Walk(was, a)
    ensures Walk(mem, p) == front + Walk(mem, a)
    decreases p
  {
    assert Walk(was, a)[0] == a;
    if front == [] {
      assert Walk(was, p)[0] == a;
    } else {
      Peel(was, p, front, a);
      WalkPrefix(was, mem, a, was[p].next, front[1..]);
      Unpeel(mem, p, front, Walk(mem, a));
    }
  }

  lemma Peel(was: seq<Node>, p: int, front: seq<nat>, a: nat)
    requires Older(was) && NIL <= p < |was| && a < |was| && front != [] && Walk(was, p) == front + Walk(was, a)
    ensures p == front[0] && a < p && Walk(was, was[p].next) == front[1..] + Walk(was, a)
  {
    var w := Walk(was, p);
    assert Walk(was, a)[0] == a;
    assert a < p by {
      WalkFalls(was, p);
      assert w[0] == p && w[|front|] == a;
    }
    assert w[0] == p && w[1..] == Walk(was, was[p].next);
  }

  lemma Unpeel(mem: seq<Node>, p: nat, front: seq<nat>, tail: seq<nat>)
    requires p < |mem| && NIL <= mem[p].next < p && front != [] && front[0] == p
    requires Walk(mem, mem[p].next) == front[1..] + tail
    ensures Walk(mem, p) == front + tail
  {
    var rest := Walk(mem, mem[p].next);
    assert Walk(mem, p) == [p] + rest;
    FrontFirst(front, tail, rest);
  }

  lemma FrontFirst(front: seq<nat>, tail: seq<nat>, rest: seq<nat>)
    requires front != [] && rest == front[1..] + tail
    ensures [front[0]] + rest == front + tail
  {
  }

  lemma CutHere(was: seq<Node>, mem: seq<Node>, a: nat, x: nat)
    requires Older(was) && Bypassed(was, mem, a, x)
    ensures Walk(mem, a) == [a] + Walk(was, was[x].next)
  {
    var r := was[x].next;
    WalkFalls(was, r);
    SameWalkOn(was, mem, r);
    assert Walk(mem, a) == [a] + Walk(mem, r);
  }

  lemma {:induction false} EntriesAppend(mem: seq<Node>, ps: seq<nat>, qs: seq<nat>)
    ensures EntriesAt(mem, ps + qs) == EntriesAt(mem, ps) + EntriesAt(mem, qs)
  {
    if ps == [] {
      assert ps + qs == qs;
    } else {
      assert (ps + qs)[1..] == ps[1..] + qs;
      EntriesAppend(mem, ps[1..], qs);
    }
  }

  lemma {:induction false} EntriesIs(mem: seq<Node>, ids: seq<nat>)
    requires forall i :: 0 <= i < |ids| ==> ids[i] < |mem|
    ensures |EntriesAt(mem, ids)| == |ids|
    ensures forall i :: 0 <= i < |ids| ==> EntriesAt(mem, ids)[i] == mem[ids[i]].e
  {
    if ids != [] { EntriesIs(mem, ids[1..]); }
  }

  // What a bucket holds is decided by the nodes on the way and their entries.
  lemma SameBucketOn(was: seq<Node>, mem: seq<Node>, p: int)
    requires Older(was) && NIL <= p < |was| && SameNexts(was, mem, Walk(was, p))
    ensures Walk(mem, p) == Walk(was, p)
    ensures EntriesAt(mem, Walk(mem, p)) == EntriesAt(was, Walk(was, p))
  {
    SameWalkOn(was, mem, p);
    WalkFalls(was, p);
    EntriesIs(was, Walk(was, p));
    EntriesIs(mem, Walk(was, p));
  }

  // --- when unlinking a node takes it off a list ---

  // A node's pprev is a head, or in a newer node, or poisoned.
  ghost predicate BackUp(s: Shared, x: nat)
    requires x < |s.mem|
  {
    match s.mem[x].pprev
    case HeadOf(h) => h < |s.heads|
    case NextOf(a) => x < a < |s.mem|
    case Poison => true
  }

  // The place that l names is on the list of head h.
  predicate OnList(s: Shared, h: nat, l: Link) {
    match l
    case HeadOf(g) => g == h
    case NextOf(a) => a in Nodes(s, h)
    case Poison => false
  }

  // After `a` has been led past x to something older than x, x is met no more.
  lemma {:induction false} PassedBy(was: seq<Node>, mem: seq<Node>, a: nat, x: nat, p: int)
    requires Older(was) && |mem| == |was| && NIL <= p < |was| && x < a < |was| && a in Walk(was, p)
    requires NIL <= mem[a].next < x
    requires forall y :: 0 <= y < |was| && y != a ==> mem[y].next == was[y].next
    ensures x !in Walk(mem, p)
    decreases p
  {
    assert Walk(was, p) == [p] + Walk(was, was[p].next);
    assert Older(mem);
    WalkFalls(was, p);
    if p == a {
      WalkFalls(mem, mem[a].next);
      assert Walk(mem, p) == [p] + Walk(mem, mem[a].next);
    } else {
      PassedBy(was, mem, a, x, was[p].next);
      assert Walk(mem, p) == [p] + Walk(mem, mem[p].next);
    }
  }

  lemma DelNexts(s: Shared, x: nat)
    requires Downward(s) && x < |s.mem| && BackUp(s, x)
    ensures var t := Del(s, x);
            && (forall y :: 0 <= y < |s.mem| ==> t.mem[y].e == s.mem[y].e)
            && (forall y :: 0 <= y < |s.mem| && s.mem[x].pprev != NextOf(y) ==> t.mem[y].next == s.mem[y].next)
            && (s.mem[x].pprev.NextOf? ==> t.mem[s.mem[x].pprev.node].next == s.mem[x].next)
    ensures Downward(Del(s, x))
  {
  }

  /** Unlinking a node takes it off a list it is on if and only if its pprev is a place of
      that very list: not when the node was last pushed onto another one. */
  lemma UnlinkTakesOff(s: Shared, h: nat, x: nat)
    requires Downward(s) && h < |s.heads| && x in Nodes(s, h) && x < |s.mem| && BackUp(s, x)
    ensures x in Nodes(Del(s, x), h) <==> !OnList(s, h, s.mem[x].pprev)
  {
    var t, p := Del(s, x), s.heads[h];
    DelNexts(s, x);
    WalkFalls(s.mem, p);
    match s.mem[x].pprev
    case HeadOf(g) =>
      if g == h {
        WalkFalls(t.mem, s.mem[x].next);
      } else {
        SameWalkOn(s.mem, t.mem, p);
      }
    case NextOf(a) =>
      if a in Nodes(s, h) {
        PassedBy(s.mem, t.mem, a, x, p);
      } else {
        SameWalkOn(s.mem, t.mem, p);
      }
    case Poison =>
      SameWalkOn(s.mem, t.mem, p);
  }

  // --- the two pushes of a store ---

  // store_in_l2 and then store_in_l3, for a key neither bucket holds.
  function LinkBoth(s: Shared, e: Entry, h2: nat, h3: nat): (t: Shared)
    requires h2 < |s.heads| && h3 < |s.heads|
    ensures |t.mem| == |s.mem| + 1 && |t.heads| == |s.heads| && (s.fault ==> t.fault)
  {
    AddHead(AddHead(Made(s, e), |s.mem|, h2), |s.mem|, h3)
  }

  lemma LinkNexts(s: Shared, e: Entry, h2: nat, h3: nat)
    requires Downward(s) && h2 < |s.heads| && h3 < |s.heads| && h2 != h3
    ensures var t, n := LinkBoth(s, e, h2, h3), |s.mem|;
            && t.heads == s.heads[h2 := n][h3 := n] && t.fault == s.fault
            && t.mem[n].e == e && t.mem[n].next == s.heads[h3] && t.mem[n].pprev == HeadOf(h3)
            && (forall y :: 0 <= y < n ==> t.mem[y].e == s.mem[y].e && t.mem[y].next == s.mem[y].next)
            && Downward(t)
  {
  }

  /** After both pushes the two buckets hold the same: the new entry in front of what the
      L3 bucket held. So the L2 bucket is the new entry in front of what it held, as
      store_in_l2 means it to be, if and only if the two buckets agreed before. Every other
      bucket stays. */
  lemma LinkBothTiers(s: Shared, e: Entry, h2: nat, h3: nat)
    requires Downward(s) && h2 < |s.heads| && h3 < |s.heads| && h2 != h3
    ensures var t := LinkBoth(s, e, h2, h3);
            && Downward(t)
            && BucketOn(t, h3) == [e] + BucketOn(s, h3)
            && BucketOn(t, h2) == [e] + BucketOn(s, h3)
            && (BucketOn(t, h2) == [e] + BucketOn(s, h2) <==> BucketOn(s, h2) == BucketOn(s, h3))
            && (forall h :: 0 <= h < |s.heads| && h != h2 && h != h3 ==> BucketOn(t, h) == BucketOn(s, h))
  {
    LinkedPair(s, e, h2, h3);
    LinkNexts(s, e, h2, h3);
    assert ([e] + BucketOn(s, h2))[1..] == BucketOn(s, h2) && ([e] + BucketOn(s, h3))[1..] == BucketOn(s, h3);
    var t := LinkBoth(s, e, h2, h3);
    forall h | 0 <= h < |s.heads| && h != h2 && h != h3 ensures BucketOn(t, h) == BucketOn(s, h) {
      SameBucketOn(s.mem, t.mem, s.heads[h]);
    }
  }

  lemma LinkedPair(s: Shared, e: Entry, h2: nat, h3: nat)
    requires Downward(s) && h2 < |s.heads| && h3 < |s.heads| && h2 != h3
    ensures var t := LinkBoth(s, e, h2, h3);
            && Nodes(t, h3) == [|s.mem|] + Nodes(s, h3) && Nodes(t, h2) == Nodes(t, h3)
            && BucketOn(t, h3) == [e] + BucketOn(s, h3) && BucketOn(t, h2) == BucketOn(t, h3)
  {
    var t, n := LinkBoth(s, e, h2, h3), |s.mem|;
    LinkNexts(s, e, h2, h3);
    SameBucketOn(s.mem, t.mem, s.heads[h3]);
    assert Walk(t.mem, n) == [n] + Walk(t.mem, s.heads[h3]);
    assert Walk(t.mem, n)[1..] == Walk(t.mem, s.heads[h3]);
  }

  /** An entry just stored cannot be unlinked from its L2 bucket: hlist_del_rcu takes it off
      the L3 bucket and leaves the L2 bucket, entry and all, as it is. */
  lemma UnlinkAfterStore(s: Shared, e: Entry, h2: nat, h3: nat)
    requires Downward(s) && h2 < |s.heads| && h3 < |s.heads| && h2 != h3
    ensures var t := Del(LinkBoth(s, e, h2, h3), |s.mem|);
            && HeadOn(t, h2) == |s.mem|
            && BucketOn(t, h2) == [e] + BucketOn(s, h3)
            && BucketOn(t, h3) == BucketOn(s, h3)
  {
    var u, n := LinkBoth(s, e, h2, h3), |s.mem|;
    LinkNexts(s, e, h2, h3);
    LinkedPair(s, e, h2, h3);
    DelAtHead(u, n, h3);
    SameBucketOn(u.mem, Del(u, n).mem, n);
    SameBucketOn(s.mem, u.mem, s.heads[h3]);
    SameBucketOn(u.mem, Del(u, n).mem, s.heads[h3]);
  }

  // A node that points back at a head is unlinked by moving that head alone.
  lemma DelAtHead(s: Shared, x: nat, h: nat)
    requires Downward(s) && x < |s.mem| && h < |s.heads| && s.mem[x].pprev == HeadOf(h)
    ensures var t := Del(s, x);
            && t.heads == s.heads[h := s.mem[x].next] && t.fault == s.fault && Downward(t)
            && (forall y :: 0 <= y < |s.mem| ==> t.mem[y].e == s.mem[y].e && t.mem[y].next == s.mem[y].next)
  {
  }

  // --- searches ---

  // The position of the node a search stops at.
  lemma {:induction false} KeyAt(mem: seq<Node>, p: int, e: Entry) returns (i: nat)
    requires Older(mem) && NIL <= p < |mem|
    ensures var w := Walk(mem, p);
            && i <= |w| && (forall k :: 0 <= k < i ==> w[k] < |mem| && !SameKey(mem[w[k]].e, e))
            && FirstOfKey(mem, p, e) == (if i < |w| then w[i] else NIL)
            && (i < |w| ==> w[i] < |mem| && SameKey(mem[w[i]].e, e))
    decreases p
  {
    i := 0;
    if p != NIL && !SameKey(mem[p].e, e) {
      assert Walk(mem, p) == [p] + Walk(mem, mem[p].next);
      i := KeyAt(mem, mem[p].next, e);
      i := i + 1;
    }
  }

  lemma NothingToReplace(s: Shared, h: nat, e: Entry)
    requires Downward(s) && h < |s.heads| && forall x :: x in BucketOn(s, h) ==> !SameKey(x, e)
    ensures Replace(s, h, e) == s
  {
    var k := KeyAt(s.mem, s.heads[h], e);
    WalkFalls(s.mem, s.heads[h]);
    EntriesIs(s.mem, Nodes(s, h));
    forall j | 0 <= j < |Nodes(s, h)| ensures !SameKey(s.mem[Nodes(s, h)[j]].e, e) {
      assert BucketOn(s, h)[j] in BucketOn(s, h);
    }
  }

  // A store of a key that neither bucket holds is the two pushes.
  lemma StoreIsLink(s: Shared, e: Entry, h2: nat, h3: nat)
    requires Downward(s) && h2 < |s.heads| && h3 < |s.heads| && h2 != h3
    requires forall x :: x in BucketOn(s, h2) || x in BucketOn(s, h3) ==> !SameKey(x, e)
    ensures StoreOn(s, e, h2, h3) == LinkBoth(s, e, h2, h3)
  {
    var m := Made(s, e);
    SameBucketOn(s.mem, m.mem, s.heads[h2]);
    NothingToReplace(m, h2, e);
    BetweenPushes(s, e, h2, h3);
    NothingToReplace(AddHead(m, |s.mem|, h2), h3, e);
  }

  // After the first push the L3 bucket is still what it was.
  lemma BetweenPushes(s: Shared, e: Entry, h2: nat, h3: nat)
    requires Downward(s) && h2 < |s.heads| && h3 < |s.heads| && h2 != h3
    ensures var u := AddHead(Made(s, e), |s.mem|, h2);
            Downward(u) && BucketOn(u, h3) == BucketOn(s, h3)
  {
    SameBucketOn(s.mem, AddHead(Made(s, e), |s.mem|, h2).mem, s.heads[h3]);
  }

  lemma OneNode(s: Shared, h: nat, x: nat)
    requires x < |s.mem| && HeadOn(s, h) == x && s.mem[x].next == NIL
    ensures Nodes(s, h) == [x] && BucketOn(s, h) == [s.mem[x].e]
  {
    assert Walk(s.mem, x) == [x];
    EntriesIs(s.mem, [x]);
  }

  // --- contents and cursors ---

  function Content(s: Shared, ids: seq<nat>): Chain {
    EntriesAt(s.mem, ids)
  }

  lemma ContentIs(s: Shared, ids: seq<nat>)
    requires forall i :: 0 <= i < |ids| ==> ids[i] < |s.mem|
    ensures |Content(s, ids)| == |ids| && forall i :: 0 <= i < |ids| ==> Content(s, ids)[i] == s.mem[ids[i]].e
  {
    EntriesIs(s.mem, ids);
  }

  lemma SameContent(s: Shared, t: Shared, ids: seq<nat>)
    requires |s.mem| <= |t.mem| && forall y :: 0 <= y < |s.mem| ==> t.mem[y].e == s.mem[y].e
    requires forall i :: 0 <= i < |ids| ==> ids[i] < |s.mem|
    ensures Content(t, ids) == Content(s, ids)
  {
    ContentIs(s, ids);
    ContentIs(t, ids);
  }

  lemma ContentWithout(s: Shared, ids: seq<nat>, i: nat)
    requires i < |ids| && forall k :: 0 <= k < |ids| ==> ids[k] < |s.mem|
    ensures |Content(s, ids)| == |ids|
    ensures Content(s, ids[..i] + ids[i + 1..]) == Content(s, ids)[..i] + Content(s, ids)[i + 1..]
  {
    ContentIs(s, ids);
    ContentIs(s, ids[..i] + ids[i + 1..]);
  }

  function At(w: seq<nat>, i: nat): int {
    if i < |w| then w[i] else NIL
  }

  lemma NextOn(s: Shared, h: nat, i: nat)
    requires Downward(s) && h < |s.heads| && i < |Nodes(s, h)|
    ensures var w := Nodes(s, h);
            w[i] < |s.mem| && s.mem[w[i]].next == At(w, i + 1) && NIL <= At(w, i + 1) < w[i]
  {
    var w := Nodes(s, h);
    WalkFrom(s.mem, s.heads[h], i);
    if s.mem[w[i]].next != NIL {
      assert Walk(s.mem, s.mem[w[i]].next)[0] == s.mem[w[i]].next;
    }
  }

  // One turn of the pass, at node i.
  lemma PassTurn(s: Shared, h: nat, i: nat, mm: u64)
    requires Downward(s) && h < |s.heads| && i < |Nodes(s, h)|
    ensures var qs := Nodes(s, h);
            && qs[i] < |s.mem|
            && PurgeFrom(s, At(qs, i), mm) ==
               PurgeFrom(if s.mem[qs[i]].e.mm == mm then Del(s, qs[i]) else s, At(qs, i + 1), mm)
  {
    NextOn(s, h, i);
  }

  lemma HeadOfNodes(s: Shared, h: nat)
    requires Downward(s) && h < |s.heads|
    ensures s.heads[h] == At(Nodes(s, h), 0)
  {
    if s.heads[h] != NIL { assert Nodes(s, h)[0] == s.heads[h]; }
  }

  // The pprev fields an unlinking writes.
  lemma DelBackAt(s: Shared, x: nat, y: nat)
    requires x < |s.mem| && y < |s.mem| && s.mem[x].next < x
    ensures Del(s, x).mem[y].pprev ==
            if y == x then Poison else if y == s.mem[x].next then s.mem[x].pprev else s.mem[y].pprev
  {
  }

  lemma {:induction false} PassNothing(s: Shared, p: int, mm: u64)
    requires Older(s.mem) && NIL <= p < |s.mem|
    requires forall k :: 0 <= k < |Walk(s.mem, p)| && Walk(s.mem, p)[k] < |s.mem| ==>
               s.mem[Walk(s.mem, p)[k]].e.mm != mm
    ensures PurgeFrom(s, p, mm) == s
    decreases p
  {
    if p != NIL {
      var q := s.mem[p].next;
      var w := Walk(s.mem, p);
      assert w[0] == p && w[1..] == Walk(s.mem, q);
      forall k | 0 <= k < |Walk(s.mem, q)| && Walk(s.mem, q)[k] < |s.mem|
        ensures s.mem[Walk(s.mem, q)[k]].e.mm != mm
      {
        assert w[k + 1] == Walk(s.mem, q)[k];
      }
      PassNothing(s, q, mm);
    }
  }

  lemma {:induction false} PurgeNone(ch: Chain, mm: u64)
    requires forall k :: 0 <= k < |ch| ==> ch[k].mm != mm
    ensures Purge(ch, mm) == ch
  {
    if ch != [] { PurgeNone(ch[1..], mm); }
  }

  lemma {:induction false} PurgeWithout(ch: Chain, i: nat, mm: u64)
    requires i < |ch| && ch[i].mm == mm
    ensures Purge(ch[..i] + ch[i + 1..], mm) == Purge(ch, mm)
  {
    var r := ch[..i] + ch[i + 1..];
    if i > 0 {
      PurgeWithout(ch[1..], i - 1, mm);
      assert r[1..] == ch[1..][..i - 1] + ch[1..][i..];
    } else {
      assert r == ch[1..];
    }
  }

  // What the pprev of node i of the list of head h should be.
  function BackOn(qs: seq<nat>, i: nat, h: nat): Link
    requires i < |qs|
  {
    if i == 0 then HeadOf(h) else NextOf(qs[i - 1])
  }

  // Places in a list with qs[i] left out.
  lemma BackWithout(qs: seq<nat>, i: nat, j: nat, h: nat)
    requires 0 < i < |qs| && j < |qs| - 1
    ensures var rs, k := qs[..i] + qs[i + 1..], if j < i then j else j + 1;
            && rs[j] == qs[k]
            && BackOn(rs, j, h) == if k == i + 1 then NextOf(qs[i - 1]) else BackOn(qs, k, h)
  {
  }
}
