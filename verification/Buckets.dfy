/** One hash bucket as the code keeps it: an intrusive hlist of mutable nodes, walked,
    unlinked and pushed in place. Each method is proved against what module Chains says
    of the sequence of entries. */
module Buckets {
  import opened Words
  import opened Entries
  import opened Chains

  // What `pprev` points at.
  datatype Place = AtHead | NextOf(node: Node) | Poisoned

  class Node {
    const e: Entry
    var next: Node?
    var pprev: Place

    constructor (e: Entry)
      ensures this.e == e
    {
      this.e := e;
      next := null;
      pprev := Poisoned;
    }
  }

  function EntriesOf(nodes: seq<Node>): (ch: Chain)
    ensures |ch| == |nodes| && forall i :: 0 <= i < |nodes| ==> ch[i] == nodes[i].e
  {
    seq(|nodes|, i requires 0 <= i < |nodes| => nodes[i].e)
  }

  function At(nodes: seq<Node>, i: nat): Node? {
    if i < |nodes| then nodes[i] else null
  }

  function Before(nodes: seq<Node>, i: nat): Place
    requires i <= |nodes|
  {
    if i == 0 then AtHead else NextOf(nodes[i - 1])
  }

  function Without(nodes: seq<Node>, i: nat): (r: seq<Node>)
    requires i < |nodes|
    ensures |r| == |nodes| - 1
    ensures forall k :: 0 <= k < |r| ==> r[k] == if k < i then nodes[k] else nodes[k + 1]
  {
    nodes[..i] + nodes[i + 1..]
  }

  lemma EntriesWithout(nodes: seq<Node>, i: nat)
    requires i < |nodes|
    ensures EntriesOf(Without(nodes, i)) == EntriesOf(nodes)[..i] + EntriesOf(nodes)[i + 1..]
  {
  }

  // A list in the middle of a pass: `kept` in front, the rest of `ch` behind.
  lemma Middle(kept: Chain, ch: Chain, done: nat)
    requires done < |ch|
    ensures var c := kept + ch[done..];
            c[|kept|] == ch[done] && c[..|kept|] + c[|kept| + 1..] == kept + ch[done + 1..]
    ensures kept + ch[done..] == (kept + [ch[done]]) + ch[done + 1..]
  {
  }

  /** `retired` lists the nodes this bucket has handed to call_rcu, oldest first. */
  class Bucket {
    var first: Node?
    var retired: seq<Node>
    ghost var nodes: seq<Node>
    ghost var Repr: set<object>

    // The list is acyclic, ends in NULL, and every pprev points back one step.
    ghost predicate Valid()
      reads this, Repr
      ensures Valid() ==> this in Repr
    {
      && this in Repr
      && (forall i :: 0 <= i < |nodes| ==> nodes[i] in Repr)
      && (forall i, j :: 0 <= i < j < |nodes| ==> nodes[i] != nodes[j])
      && first == At(nodes, 0)
      && (forall i {:trigger nodes[i].next} :: 0 <= i < |nodes| ==> nodes[i].next == At(nodes, i + 1))
      && (forall i {:trigger nodes[i].pprev} :: 0 <= i < |nodes| ==> nodes[i].pprev == Before(nodes, i))
    }

    ghost function Contents(): Chain
      reads this
    {
      EntriesOf(nodes)
    }

    constructor ()
      ensures Valid() && fresh(Repr) && nodes == [] && retired == []
    {
      first, retired, nodes, Repr := null, [], [], {this};
    }

    // __hlist_del: the neighbours are joined, the node itself is not written
    method JoinNeighbours(n: Node, ghost i: nat)
      requires Valid() && i < |nodes| && nodes[i] == n
      modifies this`first, Repr - {this}
      ensures first == if i == 0 then At(nodes, 1) else old(first)
      ensures forall k {:trigger nodes[k].next} :: 0 <= k < |nodes| ==>
                nodes[k].next == if k == i - 1 then At(nodes, i + 1) else At(nodes, k + 1)
      ensures forall k {:trigger nodes[k].pprev} :: 0 <= k < |nodes| ==>
                nodes[k].pprev == if k == i + 1 then Before(nodes, i) else Before(nodes, k)
    {
      var next := n.next;
      var pprev := n.pprev;
      match pprev {
        case AtHead => first := next;
        case NextOf(m) => m.next := next;
        case Poisoned =>
      }
      if next != null {
        next.pprev := pprev;
      }
    }

    // hlist_del_rcu: the node keeps its own next
    method HlistDel(n: Node, ghost i: nat)
      requires Valid() && i < |nodes| && nodes[i] == n
      modifies this, Repr
      ensures Valid() && Repr == old(Repr) && retired == old(retired)
      ensures nodes == Without(old(nodes), i)
      ensures n.next == old(n.next) && n.pprev == Poisoned
    {
      JoinNeighbours(n, i);
      n.pprev := Poisoned;
      nodes := Without(nodes, i);
    }

    // The same in promote_to_l2: the node is not retired, it goes to another list.
    method HlistTake(n: Node, ghost i: nat)
      requires Valid() && i < |nodes| && nodes[i] == n
      modifies this, Repr
      ensures Valid() && Repr == old(Repr) - {n} && retired == old(retired)
      ensures Contents() == old(Contents())[..i] + old(Contents())[i + 1..]
      ensures n.next == old(n.next) && n.pprev == Poisoned
    {
      EntriesWithout(nodes, i);
      HlistDel(n, i);
      Repr := Repr - {n};
    }

    // hlist_add_head_rcu
    method HlistAddHead(n: Node)
      requires Valid() && n !in Repr
      modifies this, Repr, n
      ensures Valid() && Repr == old(Repr) + {n} && retired == old(retired)
      ensures nodes == [n] + old(nodes)
      ensures Contents() == [n.e] + old(Contents())
    {
      var top := first;
      n.next := top;
      n.pprev := AtHead;
      first := n;
      if top != null {
        top.pprev := NextOf(n);
      }
      nodes := [n] + nodes;
      Repr := Repr + {n};
    }

    /** lookup_l2 and lookup_l3 walk the bucket for the first live match. */
    method Find(fingerprint: u64, mm: u64, jiffies: u64) returns (r: Node?)
      requires Valid()
      ensures r == null ==> FindLive(Contents(), fingerprint, mm, jiffies) == None
      ensures r != null ==> r in nodes && FindLive(Contents(), fingerprint, mm, jiffies) == Some(r.e)
    {
      r := first;
      ghost var i, ch := 0, Contents();
      while r != null
        invariant i <= |nodes| && r == At(nodes, i)
        invariant forall k :: 0 <= k < i ==> !Live(ch[k], fingerprint, mm, jiffies)
        decreases |nodes| - i
      {
        if Matches(r.e, fingerprint, mm) {
          if TimeBefore(jiffies, r.e.expiry) {
            FindLiveAt(ch, i, fingerprint, mm, jiffies);
            return;
          }
        }
        r := r.next;
        i := i + 1;
      }
      FindLiveAt(ch, i, fingerprint, mm, jiffies);
    }

    // hlist_del_rcu and call_rcu, as every deletion loop pairs them
    method Retire(n: Node, ghost i: nat)
      requires Valid() && i < |nodes| && nodes[i] == n
      modifies this, Repr
      ensures Valid() && Repr == old(Repr) && nodes == Without(old(nodes), i)
      ensures Contents() == old(Contents())[..i] + old(Contents())[i + 1..]
      ensures EntriesOf(retired) == EntriesOf(old(retired)) + [n.e]
      ensures n.next == old(n.next)
    {
      EntriesWithout(nodes, i);
      HlistDel(n, i);
      retired := retired + [n];
    }

    // The loop test of the two store functions: the key, whatever the expiry.
    method FirstOfKey(fingerprint: u64, mm: u64) returns (r: Node?, ghost i: nat)
      requires Valid()
      ensures r == null ==>
                && FirstMatch(Contents(), fingerprint, mm) == None
                && RemoveFirst(Contents(), fingerprint, mm) == Contents()
      ensures r != null ==>
                && i < |nodes| && nodes[i] == r
                && FirstMatch(Contents(), fingerprint, mm) == Some(r.e)
                && RemoveFirst(Contents(), fingerprint, mm) == Contents()[..i] + Contents()[i + 1..]
    {
      r, i := first, 0;
      ghost var ch := Contents();
      while r != null
        invariant i <= |nodes| && r == At(nodes, i)
        invariant forall k :: 0 <= k < i ==> !Matches(ch[k], fingerprint, mm)
        decreases |nodes| - i
      {
        if Matches(r.e, fingerprint, mm) {
          FirstMatchAt(ch, i, fingerprint, mm);
          return;
        }
        r := r.next;
        i := i + 1;
      }
      FirstMatchAt(ch, i, fingerprint, mm);
    }

    /** store_in_l2 and store_in_l3: the first node of the key goes, the new one is pushed. */
    method Store(n: Node)
      requires Valid() && n !in Repr
      modifies this, Repr, n
      ensures Valid() && Repr == old(Repr) + {n}
      ensures Contents() == StoreChain(old(Contents()), n.e)
      ensures EntriesOf(retired) == EntriesOf(old(retired))
                + (match FirstMatch(old(Contents()), n.e.fingerprint, n.e.mm) case Some(e) => [e] case None => [])
    {
      var stale, i := FirstOfKey(n.e.fingerprint, n.e.mm);
      if stale != null {
        Retire(stale, i);
      }
      assert Contents() == RemoveFirst(old(Contents()), n.e.fingerprint, n.e.mm);
      HlistAddHead(n);
    }

    // invalidate_range has visited the first `done` nodes of the list `ch`, and `base`
    // is what had been retired before.
    ghost predicate InPass(ch: Chain, base: seq<Node>, done: nat, mm: u64, entry: Node?)
      reads this
    {
      && done <= |ch|
      && Contents() == Purge(ch[..done], mm) + ch[done..]
      && EntriesOf(retired) == EntriesOf(base) + Casualties(ch[..done], mm)
      && entry == At(nodes, |Purge(ch[..done], mm)|)
    }

    // One turn of the loop: `entry` is removed when it belongs to the mm.
    method Visit(entry: Node, mm: u64, ghost ch: Chain, ghost base: seq<Node>, ghost done: nat)
      returns (tmp: Node?, removed: nat)
      requires Valid() && InPass(ch, base, done, mm, entry)
      modifies this, Repr
      ensures Valid() && Repr == old(Repr)
      ensures done < |ch| && InPass(ch, base, done + 1, mm, tmp)
      ensures |retired| == |old(retired)| + removed
    {
      ghost var kept := Purge(ch[..done], mm);
      PurgeNext(ch, done, mm);
      Middle(kept, ch, done);
      tmp := entry.next;
      removed := 0;
      assert Contents()[|kept|] == entry.e;
      if entry.e.mm == mm {
        Retire(entry, |kept|);
        removed := 1;
      }
    }

    /** One bucket of invalidate_range: every node of the mm goes, the rest stays in order. */
    method PurgeMm(mm: u64) returns (removed: nat)
      requires Valid()
      modifies this, Repr
      ensures Valid() && Repr == old(Repr)
      ensures Contents() == Purge(old(Contents()), mm)
      ensures EntriesOf(retired) == EntriesOf(old(retired)) + Casualties(old(Contents()), mm)
      ensures removed == |Casualties(old(Contents()), mm)|
    {
      var entry := first;
      ghost var ch, base, done := Contents(), retired, 0;
      removed := 0;
      while entry != null
        invariant Valid() && Repr == old(Repr) && InPass(ch, base, done, mm, entry)
        invariant |retired| == |base| + removed
        decreases |ch| - done
      {
        var k;
        entry, k := Visit(entry, mm, ch, base, done);
        removed := removed + k;
        done := done + 1;
      }
      assert ch[..done] == ch && ch[done..] == [];
    }
  }
}
