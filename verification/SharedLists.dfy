/** One bucket among many over shared nodes, as long as the pprev fields along it are its
    own: there the calls do what they do on a list of its own, whatever other buckets its
    nodes stand in. */
module SharedLists {
  import opened Words
  import opened Entries
  import opened Chains
  import opened RcuTier
  import opened SharedNode

  // Along the list of head h every pprev names the place before it on that list.
  ghost predicate Consistent(s: Shared, h: nat) {
    && Downward(s) && h < |s.heads|
    && forall i :: 0 <= i < |Nodes(s, h)| ==>
         Nodes(s, h)[i] < |s.mem| && s.mem[Nodes(s, h)[i]].pprev == BackOn(Nodes(s, h), i, h)
  }

  // --- one unlinking ---

  // The walk after unlinking node i.
  lemma DelNodes(s: Shared, h: nat, i: nat)
    requires Consistent(s, h) && i < |Nodes(s, h)|
    ensures var qs := Nodes(s, h);
            var t := Del(s, qs[i]);
            && Downward(t) && t.fault == s.fault && Nodes(t, h) == qs[..i] + qs[i + 1..]
            && forall y :: 0 <= y < |s.mem| ==> t.mem[y].e == s.mem[y].e
  {
    var qs := Nodes(s, h);
    var x := qs[i];
    assert s.mem[x].pprev == BackOn(qs, i, h);
    WalkFrom(s.mem, s.heads[h], i);
    WalkFalls(s.mem, s.heads[h]);
    DelNexts(s, x);
    if i == 0 {
      DelAtHead(s, x, h);
      SameWalkOn(s.mem, Del(s, x).mem, s.mem[x].next);
    } else {
      DelInside(s, h, i);
    }
  }

  lemma DelInside(s: Shared, h: nat, i: nat)
    requires Consistent(s, h) && 0 < i < |Nodes(s, h)|
    ensures var qs := Nodes(s, h);
            Nodes(Del(s, qs[i]), h) == qs[..i] + qs[i + 1..] && Del(s, qs[i]).fault == s.fault
  {
    var qs := Nodes(s, h);
    var a, x := qs[i - 1], qs[i];
    BypassInside(s, h, i);
    WalkFrom(s.mem, s.heads[h], i - 1);
    WalkFrom(s.mem, s.heads[h], i);
    CutHere(s.mem, Del(s, x).mem, a, x);
    Halves(qs, i);
    WalkPrefix(s.mem, Del(s, x).mem, a, s.heads[h], qs[..i - 1]);
  }

  lemma BypassInside(s: Shared, h: nat, i: nat)
    requires Consistent(s, h) && 0 < i < |Nodes(s, h)|
    ensures var qs := Nodes(s, h);
            var t := Del(s, qs[i]);
            qs[i] < qs[i - 1] < |s.mem| && t.heads == s.heads && t.fault == s.fault
            && Bypassed(s.mem, t.mem, qs[i - 1], qs[i])
  {
    var qs := Nodes(s, h);
    assert s.mem[qs[i]].pprev == BackOn(qs, i, h);
    WalkFalls(s.mem, s.heads[h]);
    NextOn(s, h, i - 1);
    DelNexts(s, qs[i]);
  }

  lemma Halves(qs: seq<nat>, i: nat)
    requires 0 < i < |qs|
    ensures qs == qs[..i - 1] + qs[i - 1..]
    ensures qs[..i - 1] + ([qs[i - 1]] + qs[i + 1..]) == qs[..i] + qs[i + 1..]
  {
  }

  lemma DelKeeps(s: Shared, h: nat, i: nat)
    requires Consistent(s, h) && i < |Nodes(s, h)|
    ensures var qs := Nodes(s, h);
            Consistent(Del(s, qs[i]), h)
  {
    var qs := Nodes(s, h);
    var t, rs: seq<nat> := Del(s, qs[i]), qs[..i] + qs[i + 1..];
    DelNodes(s, h, i);
    forall j | 0 <= j < |rs| ensures rs[j] < |t.mem| && t.mem[rs[j]].pprev == BackOn(rs, j, h) {
      DelBack(s, h, i, j);
    }
  }

  // The pprev of the j-th node that remains.
  lemma DelBack(s: Shared, h: nat, i: nat, j: nat)
    requires Consistent(s, h) && i < |Nodes(s, h)| && j < |Nodes(s, h)| - 1
    ensures var qs := Nodes(s, h);
            var rs: seq<nat> := qs[..i] + qs[i + 1..];
            rs[j] < |s.mem| && Del(s, qs[i]).mem[rs[j]].pprev == BackOn(rs, j, h)
  {
    var qs := Nodes(s, h);
    var k := if j < i then j else j + 1;
    assert s.mem[qs[i]].pprev == BackOn(qs, i, h) && s.mem[qs[k]].pprev == BackOn(qs, k, h);
    assert qs[k] != qs[i] && (k != i + 1 ==> qs[k] != At(qs, i + 1)) by { WalkFalls(s.mem, s.heads[h]); }
    NextOn(s, h, i);
    DelBackAt(s, qs[i], qs[k]);
    if i > 0 { BackWithout(qs, i, j, h); } else { BackBehind(qs, j, h); }
  }

  lemma BackBehind(qs: seq<nat>, j: nat, h: nat)
    requires j < |qs| - 1
    ensures var rs: seq<nat> := qs[..0] + qs[1..];
            rs[j] == qs[j + 1] && BackOn(rs, j, h) == if j == 0 then BackOn(qs, 0, h) else BackOn(qs, j + 1, h)
  {
  }

  // --- invalidation ---

  // The pass over the bucket, from position i on.
  lemma {:induction false} PurgeList(s: Shared, h: nat, i: nat, mm: u64)
    requires Consistent(s, h) && i <= |Nodes(s, h)|
    requires forall k :: 0 <= k < i ==> s.mem[Nodes(s, h)[k]].e.mm != mm
    ensures var t := PurgeFrom(s, At(Nodes(s, h), i), mm);
            Consistent(t, h) && t.fault == s.fault && BucketOn(t, h) == Purge(BucketOn(s, h), mm)
    decreases |Nodes(s, h)| - i, 1
  {
    if i == |Nodes(s, h)| {
      NothingMet(s, h, mm);
    } else if s.mem[Nodes(s, h)[i]].e.mm == mm {
      PurgeUnlinked(s, h, i, mm);
    } else {
      PurgeKept(s, h, i, mm);
    }
  }

  lemma {:induction false} PurgeKept(s: Shared, h: nat, i: nat, mm: u64)
    requires Consistent(s, h) && i < |Nodes(s, h)|
    requires forall k :: 0 <= k <= i ==> s.mem[Nodes(s, h)[k]].e.mm != mm
    ensures var t := PurgeFrom(s, At(Nodes(s, h), i), mm);
            Consistent(t, h) && t.fault == s.fault && BucketOn(t, h) == Purge(BucketOn(s, h), mm)
    decreases |Nodes(s, h)| - i, 0
  {
    PassTurn(s, h, i, mm);
    PurgeList(s, h, i + 1, mm);
  }

  lemma {:induction false} PurgeUnlinked(s: Shared, h: nat, i: nat, mm: u64)
    requires Consistent(s, h) && i < |Nodes(s, h)| && s.mem[Nodes(s, h)[i]].e.mm == mm
    requires forall k :: 0 <= k < i ==> s.mem[Nodes(s, h)[k]].e.mm != mm
    ensures var t := PurgeFrom(s, At(Nodes(s, h), i), mm);
            Consistent(t, h) && t.fault == s.fault && BucketOn(t, h) == Purge(BucketOn(s, h), mm)
    decreases |Nodes(s, h)| - i, 0
  {
    PassTurn(s, h, i, mm);
    UnlinkOne(s, h, i, mm);
    PurgeList(Del(s, Nodes(s, h)[i]), h, i, mm);
  }

  lemma NothingMet(s: Shared, h: nat, mm: u64)
    requires Consistent(s, h) && forall k :: 0 <= k < |Nodes(s, h)| ==> s.mem[Nodes(s, h)[k]].e.mm != mm
    ensures Purge(BucketOn(s, h), mm) == BucketOn(s, h)
    ensures PurgeFrom(s, At(Nodes(s, h), |Nodes(s, h)|), mm) == s
  {
    ContentIs(s, Nodes(s, h));
    PurgeNone(BucketOn(s, h), mm);
  }

  // One turn that unlinks: the rest of the pass still purges the same.
  lemma UnlinkOne(s: Shared, h: nat, i: nat, mm: u64)
    requires Consistent(s, h) && i < |Nodes(s, h)| && s.mem[Nodes(s, h)[i]].e.mm == mm
    requires forall k :: 0 <= k < i ==> s.mem[Nodes(s, h)[k]].e.mm != mm
    ensures var qs := Nodes(s, h);
            var t := Del(s, qs[i]);
            && Consistent(t, h) && t.fault == s.fault && |Nodes(t, h)| == |qs| - 1
            && (forall k :: 0 <= k < i ==> t.mem[Nodes(t, h)[k]].e.mm != mm)
            && At(Nodes(t, h), i) == At(qs, i + 1)
            && Purge(BucketOn(t, h), mm) == Purge(BucketOn(s, h), mm)
  {
    var qs := Nodes(s, h);
    var t := Del(s, qs[i]);
    DelNodes(s, h, i);
    DelKeeps(s, h, i);
    SameContent(s, t, Nodes(t, h));
    OneLess(s, qs, i, mm);
  }

  lemma OneLess(s: Shared, qs: seq<nat>, i: nat, mm: u64)
    requires i < |qs| && (forall k :: 0 <= k < |qs| ==> qs[k] < |s.mem|) && s.mem[qs[i]].e.mm == mm
    ensures Purge(Content(s, qs[..i] + qs[i + 1..]), mm) == Purge(Content(s, qs), mm)
  {
    ContentIs(s, qs);
    ContentWithout(s, qs, i);
    PurgeWithout(Content(s, qs), i, mm);
  }

  /** invalidate_range over shared nodes: when the caller's L2 bucket holds nothing of the
      mm, the socket's L3 bucket is purged exactly, and stays consistent. */
  lemma InvalidatePurgesL3(s: Shared, mm: u64, h2: nat, h3: nat)
    requires Consistent(s, h3) && h2 < |s.heads| && forall x :: x in BucketOn(s, h2) ==> x.mm != mm
    ensures var t := InvalidateOn(s, mm, h2, h3);
            && Consistent(t, h3) && t.fault == s.fault
            && BucketOn(t, h3) == Purge(BucketOn(s, h3), mm)
  {
    WalkFalls(s.mem, s.heads[h2]);
    ContentIs(s, Nodes(s, h2));
    forall k | 0 <= k < |Nodes(s, h2)| ensures s.mem[Nodes(s, h2)[k]].e.mm != mm {
      assert BucketOn(s, h2)[k] in BucketOn(s, h2);
    }
    PassNothing(s, s.heads[h2], mm);
    HeadOfNodes(s, h3);
    PurgeList(s, h3, 0, mm);
  }

  // --- a store ---

  // What the L3 half of a store finds: the first push has touched no node of the bucket.
  lemma PushedElsewhere(s: Shared, e: Entry, h2: nat, h3: nat)
    requires Consistent(s, h3) && h2 < |s.heads| && h2 != h3 && s.heads[h2] !in Nodes(s, h3)
    ensures var u := AddHead(Made(s, e), |s.mem|, h2);
            && Consistent(u, h3) && Nodes(u, h3) == Nodes(s, h3) && BucketOn(u, h3) == BucketOn(s, h3)
            && u.mem[|s.mem|].e == e && u.heads == s.heads[h2 := |s.mem|] && u.fault == s.fault
  {
    BetweenPushes(s, e, h2, h3);
    SameWalkOn(s.mem, AddHead(Made(s, e), |s.mem|, h2).mem, s.heads[h3]);
    PushedBacks(s, e, h2, h3);
  }

  lemma PushedBacks(s: Shared, e: Entry, h2: nat, h3: nat)
    requires Consistent(s, h3) && h2 < |s.heads| && s.heads[h2] !in Nodes(s, h3)
    ensures var u, qs := AddHead(Made(s, e), |s.mem|, h2), Nodes(s, h3);
            forall i :: 0 <= i < |qs| ==> u.mem[qs[i]].pprev == BackOn(qs, i, h3)
  {
    var u, qs := AddHead(Made(s, e), |s.mem|, h2), Nodes(s, h3);
    forall i | 0 <= i < |qs| ensures u.mem[qs[i]].pprev == BackOn(qs, i, h3) {
      assert s.mem[qs[i]].pprev == BackOn(qs, i, h3);
      OtherBack(s, e, h2, qs[i]);
    }
  }

  lemma OtherBack(s: Shared, e: Entry, h2: nat, y: nat)
    requires Downward(s) && h2 < |s.heads| && y < |s.mem| && s.heads[h2] != y
    ensures AddHead(Made(s, e), |s.mem|, h2).mem[y] == s.mem[y]
  {
  }

  lemma ReplaceInList(u: Shared, h: nat, e: Entry)
    requires Consistent(u, h)
    ensures var t := Replace(u, h, e);
            && Consistent(t, h) && t.fault == u.fault
            && BucketOn(t, h) == RemoveFirst(BucketOn(u, h), e.fingerprint, e.mm)
            && (forall x :: x in Nodes(t, h) ==> x in Nodes(u, h))
            && (forall y :: 0 <= y < |u.mem| ==> t.mem[y].e == u.mem[y].e)
  {
    var qs := Nodes(u, h);
    var k := KeyAt(u.mem, u.heads[h], e);
    ContentIs(u, qs);
    FirstMatchAt(BucketOn(u, h), k, e.fingerprint, e.mm);
    if k < |qs| {
      var t := Del(u, qs[k]);
      DelNodes(u, h, k);
      DelKeeps(u, h, k);
      SameContent(u, t, Nodes(t, h));
      ContentWithout(u, qs, k);
    }
  }

  // The push of the newest node, which is not on the list.
  lemma PushOnList(s: Shared, n: nat, h: nat)
    requires Downward(s) && h < |s.heads| && n + 1 == |s.mem| && n !in Nodes(s, h)
    ensures var t := AddHead(s, n, h);
            Nodes(t, h) == [n] + Nodes(s, h) && BucketOn(t, h) == [s.mem[n].e] + BucketOn(s, h)
  {
    var t, p := AddHead(s, n, h), s.heads[h];
    PushedNexts(s, n, h);
    SameBucketOn(s.mem, t.mem, p);
    assert Walk(t.mem, n) == [n] + Walk(t.mem, p);
    EntriesAppend(t.mem, [n], Walk(t.mem, p));
    EntriesIs(t.mem, [n]);
  }

  lemma PushedNexts(s: Shared, n: nat, h: nat)
    requires Downward(s) && h < |s.heads| && n + 1 == |s.mem| && n !in Nodes(s, h)
    ensures var t := AddHead(s, n, h);
            && s.heads[h] < n && HeadOn(t, h) == n && t.mem[n].next == s.heads[h] && t.mem[n].e == s.mem[n].e
            && SameNexts(s.mem, t.mem, Nodes(s, h))
  {
    HeadOfNodes(s, h);
  }

  /** store_result over shared nodes: a CPU whose L2 bucket has no entry of the key, and
      begins with a node the L3 bucket does not hold, replaces the L3 bucket's entry of the
      key, whoever stored it, exactly as on a list of its own. */
  lemma StoreReplacesInL3(s: Shared, e: Entry, h2: nat, h3: nat)
    requires Consistent(s, h3) && h2 < |s.heads| && h2 != h3 && s.heads[h2] !in Nodes(s, h3)
    requires forall x :: x in BucketOn(s, h2) ==> !SameKey(x, e)
    ensures var t := StoreOn(s, e, h2, h3);
            BucketOn(t, h3) == StoreChain(BucketOn(s, h3), e) && t.fault == s.fault
  {
    var u, n := AddHead(Made(s, e), |s.mem|, h2), |s.mem|;
    NothingOnL2(s, e, h2);
    PushedElsewhere(s, e, h2, h3);
    ReplaceInList(u, h3, e);
    assert n !in Nodes(s, h3) by { WalkFalls(s.mem, s.heads[h3]); }
    PushOnList(Replace(u, h3, e), n, h3);
  }

  lemma NothingOnL2(s: Shared, e: Entry, h2: nat)
    requires Downward(s) && h2 < |s.heads| && forall x :: x in BucketOn(s, h2) ==> !SameKey(x, e)
    ensures Replace(Made(s, e), h2, e) == Made(s, e)
  {
    SameBucketOn(s.mem, Made(s, e).mem, s.heads[h2]);
    NothingToReplace(Made(s, e), h2, e);
  }
}
