/** One cache tier as the code keeps it: an array of buckets. Its methods refine the
    table operations of module Tables. */
module Tiers {
  import opened Words
  import opened Entries
  import opened Chains
  import Tables
  import opened Buckets

  class Tier {
    const buckets: seq<Bucket>
    ghost var table: Tables.Table
    ghost var Repr: set<object>

    ghost predicate Valid()
      reads this, Repr
      ensures Valid() ==> this in Repr
    {
      && this in Repr && 0 < |buckets| == |table|
      && (forall b {:trigger buckets[b]} :: 0 <= b < |buckets| ==>
            && buckets[b] in Repr && buckets[b].Repr <= Repr && this !in buckets[b].Repr
            && buckets[b].Valid() && buckets[b].Contents() == table[b])
      && (forall b, c :: 0 <= b < c < |buckets| ==> buckets[b].Repr !! buckets[c].Repr)
    }

    constructor (n: nat)
      requires 0 < n
      ensures Valid() && fresh(Repr)
      ensures table == seq(n, _ => [])
    {
      var bs: seq<Bucket> := [];
      ghost var footprint: set<object> := {};
      for i := 0 to n
        invariant |bs| == i
        invariant fresh(footprint)
        invariant forall b {:trigger bs[b]} :: 0 <= b < i ==>
          bs[b] in footprint && bs[b].Repr <= footprint && bs[b].Valid() && bs[b].nodes == []
        invariant forall b, c :: 0 <= b < c < i ==> bs[b].Repr !! bs[c].Repr
      {
        var bkt := new Bucket();
        bs := bs + [bkt];
        footprint := footprint + bkt.Repr;
      }
      buckets := bs;
      table := seq(n, _ => []);
      Repr := footprint + {this};
    }

    // Valid but for bucket b.
    ghost predicate OthersValid(b: nat)
      reads this, Repr
    {
      && this in Repr && b < |buckets| == |table|
      && (forall c {:trigger buckets[c]} :: 0 <= c < |buckets| ==>
            && buckets[c] in Repr
            && (c != b ==> buckets[c].Repr <= Repr && this !in buckets[c].Repr
                           && buckets[c].Valid() && buckets[c].Contents() == table[c]))
      && (forall c, d :: 0 <= c < d < |buckets| && c != b && d != b ==> buckets[c].Repr !! buckets[d].Repr)
    }

    // Bucket b has changed and taken in the node n.
    ghost method Settle(b: nat, n: Node, ch: Chain)
      requires OthersValid(b) && buckets[b].Valid() && buckets[b].Contents() == ch
      requires buckets[b].Repr <= Repr + {n} && this !in buckets[b].Repr
      requires forall c {:trigger buckets[c]} :: 0 <= c < |buckets| && c != b ==> buckets[c].Repr !! buckets[b].Repr
      modifies this
      ensures Valid() && Repr == old(Repr) + {n} && table == old(table)[b := ch]
    {
      Repr := Repr + {n};
      table := table[b := ch];
    }

    // Bucket b has changed and given the node n away.
    ghost method Withdraw(b: nat, n: Node, ch: Chain)
      requires OthersValid(b) && buckets[b].Valid() && buckets[b].Contents() == ch
      requires buckets[b].Repr <= Repr - {n} && this !in buckets[b].Repr
      requires forall c {:trigger buckets[c]} :: 0 <= c < |buckets| && c != b ==>
                 n !in buckets[c].Repr && buckets[c].Repr !! buckets[b].Repr
      modifies this
      ensures Valid() && Repr == old(Repr) - {n} && table == old(table)[b := ch]
    {
      Repr := Repr - {n};
      table := table[b := ch];
    }

    method Lookup(fingerprint: u64, mm: u64, jiffies: u64) returns (r: Node?)
      requires Valid()
      ensures r == null ==> Tables.Find(table, fingerprint, mm, jiffies) == None
      ensures r != null ==>
                && Tables.Find(table, fingerprint, mm, jiffies) == Some(r.e)
                && r in buckets[Tables.BucketOf(|table|, fingerprint)].nodes
    {
      r := buckets[Tables.BucketOf(|buckets|, fingerprint)].Find(fingerprint, mm, jiffies);
    }

    method Store(e: Entry)
      requires Valid()
      modifies Repr
      ensures Valid() && fresh(Repr - old(Repr))
      ensures table == Tables.Store(old(table), e)
    {
      var b := Tables.BucketOf(|buckets|, e.fingerprint);
      var n := new Node(e);
      buckets[b].Store(n);
      Settle(b, n, StoreChain(table[b], e));
    }

    method PurgeBucket(i: nat, mm: u64) returns (removed: nat)
      requires Valid() && i < |buckets|
      modifies Repr
      ensures Valid() && Repr == old(Repr)
      ensures table == old(table)[i := Purge(old(table)[i], mm)]
      ensures removed == |Casualties(old(table)[i], mm)|
    {
      removed := buckets[i].PurgeMm(mm);
      table := table[i := Purge(table[i], mm)];
    }

    method PurgeMm(mm: u64) returns (removed: nat)
      requires Valid()
      modifies Repr
      ensures Valid() && Repr == old(Repr)
      ensures table == Tables.PurgeAll(old(table), mm)
      ensures removed == Tables.Removed(old(table), mm)
    {
      ghost var t := table;
      removed := 0;
      for i := 0 to |buckets|
        invariant Valid() && Repr == old(Repr) && |table| == |t|
        invariant forall b :: 0 <= b < i ==> table[b] == Purge(t[b], mm)
        invariant forall b :: i <= b < |t| ==> table[b] == t[b]
        invariant removed + Tables.Removed(t[i..], mm) == Tables.Removed(t, mm)
      {
        var k := PurgeBucket(i, mm);
        assert t[i..][0] == t[i] && t[i..][1..] == t[i + 1..];
        removed := removed + k;
      }
    }

    // hlist_del_rcu in promote_to_l2, on the node the lookup has found
    method Detach(n: Node)
      requires Valid() && Tables.Unique(table)
      requires n in buckets[Tables.BucketOf(|buckets|, n.e.fingerprint)].nodes
      modifies Repr
      ensures Valid() && Repr == old(Repr) - {n}
      ensures table == Tables.Detach(old(table), n.e)
    {
      var b := Tables.BucketOf(|buckets|, n.e.fingerprint);
      ghost var i :| 0 <= i < |buckets[b].nodes| && buckets[b].nodes[i] == n;
      UnlinkAt(table[b], i);
      buckets[b].HlistTake(n, i);
      Withdraw(b, n, Unlink(table[b], n.e));
    }

    // hlist_add_head_rcu in promote_to_l2, on that same node
    method Attach(n: Node)
      requires Valid() && n !in Repr
      modifies Repr, n
      ensures Valid() && Repr == old(Repr) + {n}
      ensures table == Tables.Attach(old(table), n.e)
      ensures n in buckets[Tables.BucketOf(|buckets|, n.e.fingerprint)].nodes
    {
      var b := Tables.BucketOf(|buckets|, n.e.fingerprint);
      buckets[b].HlistAddHead(n);
      Settle(b, n, [n.e] + table[b]);
    }
  }

  // With unique keys, unlinking an entry is unlinking the position it is found at.
  lemma {:induction false} UnlinkAt(ch: Chain, i: nat)
    requires UniqueKeys(ch) && i < |ch|
    ensures Unlink(ch, ch[i]) == ch[..i] + ch[i + 1..]
  {
    if i > 0 {
      assert !SameKey(ch[0], ch[i]);
      assert UniqueKeys(ch[1..]);
      UnlinkAt(ch[1..], i - 1);
    }
  }
}
