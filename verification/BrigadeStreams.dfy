/** What each brigade operation does to the meaning of every brigade. */
module BrigadeStreams {
  import opened RingElem
  import opened Sequences
  import opened LinkMemory
  import opened RingLists
  import Ring = RingRuns
  import BucketStore
  import opened BrigadeMeaning
  import opened BrigadeWorld
  import RingSweep

  /** The list of a brigade names each bucket once, and none that is new or on another brigade. */
  lemma BrigadeList(w: World, h: Elem)
    requires Inv(w) && h in w.heads
    ensures Ring.Head(w.L, h) && Distinct(Contents(w.L, h))
    ensures forall i | 0 <= i < |Contents(w.L, h)| ::
              Contents(w.L, h)[i] in w.s.bucket && Contents(w.L, h)[i] in w.m.next
              && At(w.L, Contents(w.L, h)[i], h, i + 1)
  {
    HeadFilled(w, h);
    assert BlockOk(w.m, h, w.L[h]);
  }

  /** A bucket on the brigade of `h` is on no other one. */
  lemma OnOneBrigade(w: World, h: Elem, e: Elem, k: Elem)
    requires Inv(w) && h in w.heads && k in w.L && k != h && e in w.L[k].nodes
    ensures Ring.Head(w.L, h) && e !in Contents(w.L, h)
  {
    BrigadeList(w, h);
    assert Disjoint(w.L[h].nodes, w.L[k].nodes);
    assert forall i | 0 <= i < |Contents(w.L, h)| :: Contents(w.L, h)[i] == w.L[h].nodes[i + 1];
  }

  /** A bucket that is alone is on no brigade. */
  lemma LooseElsewhere(w: World, h: Elem, e: Elem)
    requires Inv(w) && h in w.heads && Loose(w, e)
    ensures Ring.Head(w.L, h) && e !in Contents(w.L, h)
  {
    assert BlockOk(w.m, e, w.L[e]);
    HeadFilled(w, h);
    OnOneBrigade(w, h, e, e);
  }

  /** A brigade whose list and whose buckets are untouched means what it meant. */
  lemma UntouchedMeans(w: World, w': World, h: Elem)
    requires Inv(w) && h in w.heads && Ring.Head(w.L, h) && h in w'.L && w'.L[h] == w.L[h]
    requires SameBuckets(w.s, w'.s, Contents(w.L, h))
    ensures Means(w', h) == Means(w, h)
  {
    MeaningFrame(w.s, w'.s, Contents(w.L, h));
  }

  lemma LinkUntouched(w: World, op: Ring.Op, h: Elem)
    requires Inv(w) && MayLink(w, op) && h in w.heads && Ring.Enabled(w.L, op) && h !in Ring.Named(w.L, op)
    ensures Ring.Head(w.L, h) && Ring.Head(Relinked(w, op).L, h)
    ensures Means(Relinked(w, op), h) == Means(w, h)
  {
    HeadFilled(w, h);
    Ring.KeptFiled(w.m, w.L, op, h);
    assert SameBuckets(w.s, w.s, Contents(w.L, h));
    UntouchedMeans(w, Relinked(w, op), h);
  }

  // Whole lists moved.

  /** `APR_BRIGADE_CONCAT`: the stream of `b` follows that of `a`, `b` is left empty, and no other
      brigade changes. */
  lemma ConcatMeans(w: World, a: Elem, b: Elem, h: Elem)
    requires Inv(w) && May(w, Link(Ring.Concat(a, b))) && h in w.heads
    ensures Ring.Head(w.L, a) && Ring.Head(w.L, b) && Ring.Head(w.L, h)
    ensures var w' := Step(w, Link(Ring.Concat(a, b)));
            && Ring.Head(w'.L, h)
            && Means(w', h) == if h == a then Followed(Means(w, a), Means(w, b))
                               else if h == b then Meaning([], [])
                               else Means(w, h)
  {
    HeadFilled(w, a);
    HeadFilled(w, b);
    HeadFilled(w, h);
    LinkFilled(w, Ring.Concat(a, b));
    var L': Blocks := Ring.ListStep(w.L, Ring.Concat(a, b));
    if h == a {
      assert L'[a].nodes[1..] == Contents(w.L, a) + Contents(w.L, b);
      MeaningConcat(w.s, Contents(w.L, a), Contents(w.L, b));
    } else if h != b {
      LinkUntouched(w, Ring.Concat(a, b), h);
    }
  }

  /** `APR_BRIGADE_PREPEND`: the stream of `b` comes before that of `a`. */
  lemma PrependMeans(w: World, a: Elem, b: Elem, h: Elem)
    requires Inv(w) && May(w, Link(Ring.Prepend(a, b))) && h in w.heads
    ensures Ring.Head(w.L, a) && Ring.Head(w.L, b) && Ring.Head(w.L, h)
    ensures var w' := Step(w, Link(Ring.Prepend(a, b)));
            && Ring.Head(w'.L, h)
            && Means(w', h) == if h == a then Followed(Means(w, b), Means(w, a))
                               else if h == b then Meaning([], [])
                               else Means(w, h)
  {
    HeadFilled(w, a);
    HeadFilled(w, b);
    HeadFilled(w, h);
    LinkFilled(w, Ring.Prepend(a, b));
    var L': Blocks := Ring.ListStep(w.L, Ring.Prepend(a, b));
    if h == a {
      assert L'[a].nodes[1..] == Contents(w.L, b) + Contents(w.L, a);
      MeaningConcat(w.s, Contents(w.L, b), Contents(w.L, a));
    } else if h != b {
      LinkUntouched(w, Ring.Prepend(a, b), h);
    }
  }

  /** `APR_BRIGADE_INSERT_TAIL`: one bucket, although the header speaks of a list. */
  lemma InsertTailMeans(w: World, a: Elem, e: Elem, h: Elem)
    requires Inv(w) && May(w, Link(Ring.InsertTail(a, e))) && h in w.heads
    ensures Ring.Head(w.L, a) && Ring.Head(w.L, h)
    ensures var w' := Step(w, Link(Ring.InsertTail(a, e)));
            && Ring.Head(w'.L, h)
            && Means(w', h) == if h == a then Followed(Means(w, a), MeaningOf(w.s, [e])) else Means(w, h)
  {
    HeadFilled(w, a);
    HeadFilled(w, h);
    LinkFilled(w, Ring.InsertTail(a, e));
    if h == a {
      assert BlockOk(w.m, e, w.L[e]);
      assert Ring.ListStep(w.L, Ring.InsertTail(a, e))[a].nodes[1..] == Contents(w.L, a) + [e];
      MeaningConcat(w.s, Contents(w.L, a), [e]);
    } else {
      LinkUntouched(w, Ring.InsertTail(a, e), h);
    }
  }

  /** `APR_BRIGADE_INSERT_HEAD`. */
  lemma InsertHeadMeans(w: World, a: Elem, e: Elem, h: Elem)
    requires Inv(w) && May(w, Link(Ring.InsertHead(a, e))) && h in w.heads
    ensures Ring.Head(w.L, a) && Ring.Head(w.L, h)
    ensures var w' := Step(w, Link(Ring.InsertHead(a, e)));
            && Ring.Head(w'.L, h)
            && Means(w', h) == if h == a then Followed(MeaningOf(w.s, [e]), Means(w, a)) else Means(w, h)
  {
    HeadFilled(w, a);
    HeadFilled(w, h);
    LinkFilled(w, Ring.InsertHead(a, e));
    if h == a {
      assert BlockOk(w.m, e, w.L[e]);
      assert Ring.ListStep(w.L, Ring.InsertHead(a, e))[a].nodes[1..] == [e] + Contents(w.L, a);
      MeaningConcat(w.s, [e], Contents(w.L, a));
    } else {
      LinkUntouched(w, Ring.InsertHead(a, e), h);
    }
  }

  /** One bucket put in at position `i` of a list. */
  lemma InsertedMeaning(s: Store, xs: seq<Elem>, i: int, e: Elem)
    requires 0 <= i <= |xs|
    ensures MeaningOf(s, xs[..i] + ([e] + xs[i..]))
            == Followed(MeaningOf(s, xs[..i]), Followed(MeaningOf(s, [e]), MeaningOf(s, xs[i..])))
  {
    MeaningConcat(s, [e], xs[i..]);
    MeaningConcat(s, xs[..i], [e] + xs[i..]);
  }

  /** How many buckets of its brigade come before the place just before `lep`; all of them when
      `lep` is the sentinel. */
  ghost function Before(w: World, lep: Elem): int
    requires InSome(w.L, lep)
  {
    var (r, i) := Home(w.L, lep);
    if i == 0 then |w.L[r].nodes| - 1 else i - 1
  }

  /** `APR_BUCKET_INSERT_BEFORE`. */
  lemma InsertBeforeMeans(w: World, lep: Elem, e: Elem, h: Elem)
    requires Inv(w) && May(w, Link(Ring.InsertBefore(lep, e))) && h in w.heads
    ensures Ring.Head(w.L, h) && InSome(w.L, lep)
    ensures var w', xs, i := Step(w, Link(Ring.InsertBefore(lep, e))), Contents(w.L, h), Before(w, lep);
            && Ring.Head(w'.L, h)
            && (h != Home(w.L, lep).0 ==> Means(w', h) == Means(w, h))
            && (h == Home(w.L, lep).0 ==>
                  && 0 <= i <= |xs|
                  && Means(w', h) == Followed(MeaningOf(w.s, xs[..i]),
                                              Followed(MeaningOf(w.s, [e]), MeaningOf(w.s, xs[i..]))))
  {
    HeadFilled(w, h);
    LinkFilled(w, Ring.InsertBefore(lep, e));
    if h == Home(w.L, lep).0 {
      var xs, i := Contents(w.L, h), Before(w, lep);
      assert BlockOk(w.m, e, w.L[e]);
      assert Ring.ListStep(w.L, Ring.InsertBefore(lep, e))[h].nodes[1..] == xs[..i] + ([e] + xs[i..]);
      InsertedMeaning(w.s, xs, i, e);
    } else {
      LinkUntouched(w, Ring.InsertBefore(lep, e), h);
    }
  }

  /** `APR_BUCKET_INSERT_AFTER`: after the sentinel is at the front. */
  lemma InsertAfterMeans(w: World, lep: Elem, e: Elem, h: Elem)
    requires Inv(w) && May(w, Link(Ring.InsertAfter(lep, e))) && h in w.heads
    ensures Ring.Head(w.L, h) && InSome(w.L, lep)
    ensures var w', xs, i := Step(w, Link(Ring.InsertAfter(lep, e))), Contents(w.L, h), Home(w.L, lep).1;
            && Ring.Head(w'.L, h)
            && (h != Home(w.L, lep).0 ==> Means(w', h) == Means(w, h))
            && (h == Home(w.L, lep).0 ==>
                  && 0 <= i <= |xs|
                  && Means(w', h) == Followed(MeaningOf(w.s, xs[..i]),
                                              Followed(MeaningOf(w.s, [e]), MeaningOf(w.s, xs[i..]))))
  {
    HeadFilled(w, h);
    LinkFilled(w, Ring.InsertAfter(lep, e));
    if h == Home(w.L, lep).0 {
      var xs, i := Contents(w.L, h), Home(w.L, lep).1;
      assert BlockOk(w.m, e, w.L[e]);
      assert Ring.ListStep(w.L, Ring.InsertAfter(lep, e))[h].nodes[1..] == xs[..i] + ([e] + xs[i..]);
      InsertedMeaning(w.s, xs, i, e);
    } else {
      LinkUntouched(w, Ring.InsertAfter(lep, e), h);
    }
  }

  // Remove and delete.

  /** `APR_BUCKET_REMOVE`: the brigade loses the bucket, and no other brigade changes; none does when
      the bucket is on no brigade. */
  lemma RemoveMeans(w: World, e: Elem, h: Elem)
    requires Inv(w) && MayLink(w, Ring.Remove(e)) && h in w.heads
    ensures Ring.Head(w.L, h) && Ring.Head(Relinked(w, Ring.Remove(e)).L, h)
    ensures InSome(w.L, e) && (h == Home(w.L, e).0 ==> 1 <= Home(w.L, e).1 <= |Contents(w.L, h)|)
    ensures var (r, i) := Home(w.L, e);
            var xs := Contents(w.L, h);
            Means(Relinked(w, Ring.Remove(e)), h)
            == if h == r then Followed(MeaningOf(w.s, xs[..i - 1]), MeaningOf(w.s, xs[i..])) else MeaningOf(w.s, xs)
  {
    HeadFilled(w, h);
    LinkFilled(w, Ring.Remove(e));
    if Alone(w, e) {
      HomeIsUnique(w.m, w.L, e, e, 0);
    } else {
      BucketHome(w, e);
      var (r, i) := Home(w.L, e);
      var xs := Contents(w.L, h);
      if h == r {
        assert Relinked(w, Ring.Remove(e)).L[r].nodes[1..] == xs[..i - 1] + xs[i..];
        MeaningConcat(w.s, xs[..i - 1], xs[i..]);
      } else {
        LinkUntouched(w, Ring.Remove(e), h);
      }
    }
  }

  /** `apr_bucket_delete`: the brigade loses exactly the bucket's own bytes or mark, whoever else
      shares the bucket's resource, and no other brigade changes. */
  lemma DeleteMeans(w: World, e: Elem, h: Elem)
    requires Inv(w) && May(w, Delete(e)) && h in w.heads
    ensures Ring.Head(w.L, h) && Ring.Head(Step(w, Delete(e)).L, h)
    ensures InSome(w.L, e) && (h == Home(w.L, e).0 ==> 1 <= Home(w.L, e).1 <= |Contents(w.L, h)|)
    ensures var (r, i) := Home(w.L, e);
            var xs := Contents(w.L, h);
            Means(Step(w, Delete(e)), h)
            == if h == r then Followed(MeaningOf(w.s, xs[..i - 1]), MeaningOf(w.s, xs[i..])) else MeaningOf(w.s, xs)
  {
    var w1 := Relinked(w, Ring.Remove(e));
    RemovedLoose(w, e);
    RemoveMeans(w, e, h);
    LooseElsewhere(w1, h, e);
    DestroyedElsewhere(w1, e, h);
  }

  /** Destroying a bucket that is on no brigade changes no brigade. */
  lemma DestroyedElsewhere(w: World, e: Elem, h: Elem)
    requires Inv(w) && Loose(w, e) && h in w.heads
    ensures Ring.Head(w.L, h)
    ensures Means(w.(s := BucketStore.Destroyed(w.s, e)), h) == Means(w, h)
  {
    LooseElsewhere(w, h, e);
    var xs, s' := Contents(w.L, h), BucketStore.Destroyed(w.s, e);
    forall i | 0 <= i < |xs|
      ensures Part(s', xs[i]) == Part(w.s, xs[i])
    {
      DestroySegments(w.s, e, xs[i]);
    }
    UntouchedMeans(w, w.(s := s'), h);
  }

  /** A list without one of its buckets means the same exactly when that bucket is idle. */
  lemma LessOneIff(s: Store, xs: seq<Elem>, k: nat)
    requires Distinct(xs) && k < |xs|
    ensures Followed(MeaningOf(s, xs[..k]), MeaningOf(s, xs[k + 1..])) == MeaningOf(s, xs) <==> Idle(s, xs[k])
  {
    var drop := x => x == xs[k];
    MeaningConcat(s, xs[..k], xs[k + 1..]);
    KeptButOne(xs, k, drop);
    SafeToRemoveIff(s, xs, drop);
    if Idle(s, xs[k]) {
      assert DropsIdle(s, xs, drop);
    } else {
      assert drop(xs[k]);
    }
  }

  /** Deleting a bucket leaves a brigade's meaning alone exactly when the bucket is on another brigade
      or none, or is empty and contains no metadata. */
  lemma SafeToDeleteIff(w: World, e: Elem, h: Elem)
    requires Inv(w) && May(w, Delete(e)) && h in w.heads
    ensures InSome(w.L, e) && Ring.Head(w.L, h) && Ring.Head(Step(w, Delete(e)).L, h)
    ensures Means(Step(w, Delete(e)), h) == Means(w, h) <==> (h == Home(w.L, e).0 ==> Idle(w.s, e))
  {
    var (r, i) := Home(w.L, e);
    DeleteMeans(w, e, h);
    if h == r {
      BrigadeList(w, r);
      assert Contents(w.L, r)[i - 1] == e;
      LessOneIff(w.s, Contents(w.L, r), i - 1);
    }
  }

  lemma {:induction false} KeptAll(xs: seq<Elem>, drop: Elem -> bool)
    requires forall i | 0 <= i < |xs| :: !drop(xs[i])
    ensures RingSweep.Kept(xs, drop) == xs
    decreases |xs|
  {
    if xs != [] {
      assert forall i | 0 <= i < |xs[1..]| :: xs[1..][i] == xs[i + 1];
      KeptAll(xs[1..], drop);
    }
  }

  lemma {:induction false} KeptButOne(xs: seq<Elem>, k: nat, drop: Elem -> bool)
    requires k < |xs| && forall i | 0 <= i < |xs| :: drop(xs[i]) <==> i == k
    ensures RingSweep.Kept(xs, drop) == xs[..k] + xs[k + 1..]
    decreases |xs|
  {
    var rest := xs[1..];
    assert forall i | 0 <= i < |rest| :: rest[i] == xs[i + 1];
    if k == 0 {
      KeptAll(rest, drop);
    } else {
      KeptButOne(rest, k - 1, drop);
      assert xs[..k] == [xs[0]] + rest[..k - 1] && xs[k + 1..] == rest[k..];
    }
  }

  // Split and copy.

  /** A bucket's place on the list of its brigade. */
  lemma BucketPlace(w: World, e: Elem)
    requires Inv(w) && OnBrigade(w, e) && e !in w.heads
    ensures var (r, i) := Home(w.L, e);
            && r in w.heads && Ring.Head(w.L, r) && Distinct(Contents(w.L, r))
            && 1 <= i <= |Contents(w.L, r)| && Contents(w.L, r)[i - 1] == e && e in w.s.bucket
  {
    var (r, i) := Home(w.L, e);
    BucketHome(w, e);
    BrigadeList(w, r);
    assert BlockOk(w.m, r, w.L[r]);
  }

  lemma LiveNoHead(w: World, e: Elem)
    requires Inv(w) && e in w.s.bucket
    ensures e !in w.heads
  {
    if e in w.heads {
      HeadFilled(w, e);
    }
  }

  /** What a split does to the lists: the new bucket is inserted just after the old one. */
  lemma SplitLists(w: World, e: Elem, point: nat, n: Elem)
    requires Inv(w) && May(w, Split(e, point, n))
    requires BucketStore.SplitStatus(w.s.bucket[e], point) == BucketStore.Success
    ensures InSome(w.L, e)
    ensures var (r, i) := Home(w.L, e);
            var L1: Blocks := w.L[n := Block(false, [n])];
            && r in w.L && r in L1 && 0 <= i < |L1[r].nodes| && L1[r] == w.L[r]
            && Step(w, Split(e, point, n)).L == Insert(L1, r, i + 1, n)
  {
    SplitReady(w, e, point, n);
    AddedFilled(w, n, false);
    LinkFilled(Divided(w, e, point, n), Ring.InsertAfter(e, n));
  }

  /** The list of the brigade a bucket was split on. */
  lemma SplitList(w: World, e: Elem, point: nat, n: Elem)
    requires Inv(w) && May(w, Split(e, point, n)) && e !in w.heads
    requires BucketStore.SplitStatus(w.s.bucket[e], point) == BucketStore.Success
    ensures InSome(w.L, e)
    ensures var (r, i) := Home(w.L, e);
            && Ring.Head(w.L, r) && 1 <= i <= |Contents(w.L, r)| && n !in Contents(w.L, r)
            && Ring.Head(Step(w, Split(e, point, n)).L, r)
            && Contents(Step(w, Split(e, point, n)).L, r) == PutAfter(Contents(w.L, r), i - 1, n)
  {
    BucketPlace(w, e);
    NewUnlisted(w, Home(w.L, e).0, n);
    SplitLists(w, e, point, n);
    InsertedContents(w.L[n := Block(false, [n])], Home(w.L, e).0, Home(w.L, e).1, n);
  }

  lemma NewUnlisted(w: World, h: Elem, n: Elem)
    requires Inv(w) && h in w.heads && n !in w.m.next
    ensures Ring.Head(w.L, h) && n !in Contents(w.L, h) && n != h
  {
    BrigadeList(w, h);
    assert BlockOk(w.m, h, w.L[h]);
  }

  lemma InsertedContents(L: Blocks, r: Elem, i: int, n: Elem)
    requires r in L && n in L && r != n && L[n].nodes == [n] && 1 <= i < |L[r].nodes|
    ensures Ring.Head(Insert(L, r, i + 1, n), r)
    ensures Contents(Insert(L, r, i + 1, n), r) == PutAfter(Contents(L, r), i - 1, n)
  {
    InsertedAfterIt(L[r].nodes, i, n);
  }

  lemma InsertedAfterIt(nodes: seq<Elem>, i: int, n: Elem)
    requires 1 <= i < |nodes|
    ensures (nodes[..i + 1] + [n] + nodes[i + 1..])[1..] == PutAfter(nodes[1..], i - 1, n)
  {
  }

  /** `apr_bucket_split`: whatever the bucket and the point, no brigade's meaning changes. */
  lemma SplitMeans(w: World, e: Elem, point: nat, n: Elem, h: Elem)
    requires Inv(w) && May(w, Split(e, point, n)) && h in w.heads
    ensures Ring.Head(w.L, h) && Ring.Head(Step(w, Split(e, point, n)).L, h)
    ensures Means(Step(w, Split(e, point, n)), h) == Means(w, h)
  {
    HeadFilled(w, h);
    LiveNoHead(w, e);
    if BucketStore.SplitStatus(w.s.bucket[e], point) == BucketStore.Success {
      if h == Home(w.L, e).0 {
        SplitHere(w, e, point, n);
      } else {
        SplitElsewhere(w, e, point, n, h);
      }
    }
  }

  lemma SplitHere(w: World, e: Elem, point: nat, n: Elem)
    requires Inv(w) && May(w, Split(e, point, n)) && e !in w.heads
    requires BucketStore.SplitStatus(w.s.bucket[e], point) == BucketStore.Success
    ensures var h := Home(w.L, e).0;
            && Ring.Head(w.L, h) && Ring.Head(Step(w, Split(e, point, n)).L, h)
            && Means(Step(w, Split(e, point, n)), h) == Means(w, h)
  {
    var (h, i) := Home(w.L, e);
    BucketPlace(w, e);
    SplitList(w, e, point, n);
    NewNowhere(w, n);
    SplitKeepsMeaning(w.s, Contents(w.L, h), i - 1, point, n);
  }

  lemma NewNowhere(w: World, n: Elem)
    requires Inv(w) && n !in w.m.next
    ensures n !in w.s.bucket
  {
  }

  lemma SplitElsewhere(w: World, e: Elem, point: nat, n: Elem, h: Elem)
    requires Inv(w) && May(w, Split(e, point, n)) && h in w.heads && h != Home(w.L, e).0
    requires BucketStore.SplitStatus(w.s.bucket[e], point) == BucketStore.Success
    ensures Ring.Head(w.L, h) && Ring.Head(Step(w, Split(e, point, n)).L, h)
    ensures Means(Step(w, Split(e, point, n)), h) == Means(w, h)
  {
    BrigadeList(w, h);
    NewNowhere(w, n);
    AddedFilled(w, n, false);
    SplitLists(w, e, point, n);
    OnOneBrigade(w, h, e, Home(w.L, e).0);
    OthersDivided(w.s, Contents(w.L, h), e, point, n);
    UntouchedMeans(w, Step(w, Split(e, point, n)), h);
  }

  lemma OthersDivided(s: Store, xs: seq<Elem>, e: Elem, point: nat, n: Elem)
    requires BucketStore.Valid(s) && e in s.bucket && n !in s.bucket && e !in xs
    requires forall i | 0 <= i < |xs| :: xs[i] in s.bucket
    ensures SameBuckets(s, BucketStore.SplitAt(s, e, point, n), xs)
  {
    forall i | 0 <= i < |xs|
      ensures Part(BucketStore.SplitAt(s, e, point, n), xs[i]) == Part(s, xs[i])
    {
      SplitOthers(s, e, point, n, xs[i]);
    }
  }

  /** A new bucket or brigade changes no brigade there was. */
  lemma AddedMeans(w: World, n: Elem, next: Elem, prev: Elem, ring: bool, s': Store, h: Elem)
    requires Inv(w) && n !in w.m.next && h in w.heads
    requires forall e | e in w.s.bucket :: Part(s', e) == Part(w.s, e)
    ensures Ring.Head(w.L, h) && Ring.Head(Added(w, n, next, prev, ring).L, h)
    ensures Means(Added(w, n, next, prev, ring).(s := s'), h) == Means(w, h)
  {
    BrigadeList(w, h);
    AddedFilled(w, n, ring);
    UntouchedMeans(w, Added(w, n, next, prev, ring).(s := s'), h);
  }

  lemma CopyMeans(w: World, e: Elem, n: Elem, h: Elem)
    requires Inv(w) && May(w, Copy(e, n)) && h in w.heads
    ensures Ring.Head(w.L, h) && Ring.Head(Step(w, Copy(e, n)).L, h)
    ensures Means(Step(w, Copy(e, n)), h) == Means(w, h)
    ensures BucketStore.Segment(Step(w, Copy(e, n)).s, n) == BucketStore.Segment(w.s, e)
    ensures IsMetadata(Step(w, Copy(e, n)).s, n) <==> IsMetadata(w.s, e)
  {
    CopySegments(w.s, e, n, e);
    forall x | x in w.s.bucket
      ensures Part(BucketStore.Copied(w.s, e, n), x) == Part(w.s, x)
    {
      CopySegments(w.s, e, n, x);
    }
    AddedMeans(w, n, w.m.next[e], w.m.prev[e], false, BucketStore.Copied(w.s, e, n), h);
  }

  lemma MakeMeans(w: World, make: BucketStore.Act, h: Elem)
    requires Inv(w) && May(w, Make(make)) && h in w.heads
    ensures Ring.Head(w.L, h) && Ring.Head(Step(w, Make(make)).L, h)
    ensures Means(Step(w, Make(make)), h) == Means(w, h)
  {
    MakeOthers(w.s, make);
    AddedMeans(w, make.e, make.e, make.e, true, BucketStore.Acted(w.s, make), h);
  }

  lemma MakeOthers(s: Store, make: BucketStore.Act)
    requires BucketStore.Valid(s) && BucketStore.Possible(s, make)
    requires make.MakeShared? || make.MakeSimple? || make.MakeMetadata?
    ensures forall x | x in s.bucket :: Part(BucketStore.Acted(s, make), x) == Part(s, x)
  {
    forall x | x in s.bucket
      ensures Part(BucketStore.Acted(s, make), x) == Part(s, x)
    {
      assert BucketStore.BucketOk(s, s.bucket[x]);
    }
  }

  // Runs that must not show in the stream.

  /** Everything but moving buckets about, putting bytes into one, and deleting one that is not idle. */
  ghost predicate Quiet(w: World, act: Act) {
    match act
    case Link(_) => false
    case Extend(_, _) => false
    case Delete(e) => Alone(w, e) || Idle(w.s, e)
    case _ => true
  }

  lemma QuietStep(w: World, act: Act, h: Elem)
    requires Inv(w) && May(w, act) && Quiet(w, act) && h in w.heads
    ensures Ring.Head(w.L, h) && Ring.Head(Step(w, act).L, h) && h in Step(w, act).heads
    ensures Means(Step(w, act), h) == Means(w, h)
  {
    HeadFilled(w, h);
    match act
    case NewBrigade(n) => AddedMeans(w, n, n, n, true, w.s, h);
    case Make(make) => MakeMeans(w, make, h);
    case Split(e, point, n) => SplitMeans(w, e, point, n, h);
    case Copy(e, n) => CopyMeans(w, e, n, h);
    case Destroy(e) => DestroyedElsewhere(w, e, h);
    case Delete(e) =>
      SafeToDeleteIff(w, e, h);
      if Alone(w, e) {
        HomeIsUnique(w.m, w.L, e, e, 0);
      }
  }

  ghost predicate QuietRun(w: World, acts: seq<Act>)
    decreases |acts|
  {
    acts == [] || (May(w, acts[0]) && Quiet(w, acts[0]) && QuietRun(Step(w, acts[0]), acts[1..]))
  }

  /** Any interleaving of splits at any points, copies, new buckets, and deletions of empty buckets
      without metadata leaves every brigade's bytes and marks as they were. */
  lemma {:induction false} QuietRunMeans(w: World, acts: seq<Act>, h: Elem)
    requires Inv(w) && QuietRun(w, acts) && h in w.heads
    ensures Inv(Run(w, acts)) && Ring.Head(w.L, h) && Ring.Head(Run(w, acts).L, h)
    ensures Means(Run(w, acts), h) == Means(w, h)
    decreases |acts|
  {
    if acts == [] {
      HeadFilled(w, h);
    } else {
      QuietStep(w, acts[0], h);
      StepInv(w, acts[0]);
      QuietRunMeans(Step(w, acts[0]), acts[1..], h);
    }
  }
}
