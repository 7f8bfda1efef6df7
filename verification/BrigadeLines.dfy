/** Buckets handed over from the front of one brigade to the end of another, up to a line feed. */
module BrigadeLines {
  import opened RingElem
  import opened Sequences
  import opened RingLists
  import Ring = RingRuns
  import BucketStore
  import opened BrigadeMeaning
  import opened BrigadeWorld
  import opened BrigadeStreams
  import opened BrigadeSplits
  import opened BrigadeWrites

  // Buckets passed from the front of one brigade to the end of another.

  /** The stream of `b` begins with `m`, which it hands over to the end of that of `a`. */
  ghost predicate Passed(w: World, w': World, b: Elem, a: Elem, m: Meaning) {
    && w'.heads == w.heads
    && WholeOf(w', a) == Followed(WholeOf(w, a), m) && WholeOf(w, b) == Followed(m, WholeOf(w', b))
    && forall h {:trigger WholeOf(w', h)} | h in w.heads && h != a && h != b :: WholeOf(w', h) == WholeOf(w, h)
  }

  lemma PassedTwice(w: World, w1: World, w2: World, b: Elem, a: Elem, m: Meaning, n: Meaning)
    requires Passed(w, w1, b, a, m) && Passed(w1, w2, b, a, n)
    ensures Passed(w, w2, b, a, Followed(m, n))
  {
    FollowedTwice(WholeOf(w, a), m, n);
    FollowedTwice(m, n, WholeOf(w2, b));
  }

  lemma PassedNothing(w: World, b: Elem, a: Elem)
    ensures Passed(w, w, b, a, NOTHING)
  {
    NothingFollowed(WholeOf(w, a));
    NothingFollowed(WholeOf(w, b));
  }

  /** None of the buckets of the two brigades shares its data with another bucket. */
  ghost predicate OwnData(w: World, b: Elem, a: Elem) {
    forall x {:trigger Unshared(w.s, x)} | x in ListOf(w, b) + ListOf(w, a) :: Unshared(w.s, x)
  }

  function MoveFirst(e: Elem, a: Elem): seq<Act> {
    [Link(Ring.Remove(e)), Link(Ring.InsertTail(a, e))]
  }

  lemma FirstMoved(w: World, b: Elem, a: Elem)
    requires Inv(w) && b in w.heads && a in w.heads && a != b && ListOf(w, b) != []
    ensures var e := ListOf(w, b)[0];
            var w' := Run(w, MoveFirst(e, a));
            && MayRun(w, MoveFirst(e, a)) && Inv(w') && w'.s == w.s
            && Passed(w, w', b, a, Part(w.s, e))
            && ListOf(w', b) == ListOf(w, b)[1..] && ListOf(w', a) == ListOf(w, a) + [e]
  {
    var e := ListOf(w, b)[0];
    var w1 := Step(w, Link(Ring.Remove(e)));
    RemoveFirstLists(w, b);
    InsertTailLists(w1, a, e);
    var w2 := Step(w1, Link(Ring.InsertTail(a, e)));
    TwoActs(w, Link(Ring.Remove(e)), Link(Ring.InsertTail(a, e)));
    TailGoesOn(w1, w2, a, e);
    MeaningCons(w.s, ListOf(w, b));
  }

  /** All that moving the first bucket takes. */
  lemma MayMoveFirst(w: World, b: Elem, a: Elem)
    requires Inv(w) && b in w.heads && a in w.heads && a != b && ListOf(w, b) != []
    ensures var acts := MoveFirst(ListOf(w, b)[0], a);
            && May(w, acts[0]) && May(Step(w, acts[0]), acts[1])
            && MayRun(w, acts) && Run(w, acts) == Step(Step(w, acts[0]), acts[1])
  {
    var e := ListOf(w, b)[0];
    RemoveFirstLists(w, b);
    InsertTailLists(Step(w, Link(Ring.Remove(e))), a, e);
    TwoActs(w, Link(Ring.Remove(e)), Link(Ring.InsertTail(a, e)));
  }

  /** The first bucket of a brigade is a live one on it. */
  lemma FirstOn(w: World, b: Elem)
    requires Inv(w) && b in w.heads && ListOf(w, b) != []
    ensures ListOf(w, b)[0] in w.s.bucket && OnBrigade(w, ListOf(w, b)[0])
    ensures |BucketStore.Segment(w.s, ListOf(w, b)[0])| == BucketStore.Length(w.s.bucket[ListOf(w, b)[0]])
  {
    BrigadeList(w, b);
    HomeIsUnique(w.m, w.L, ListOf(w, b)[0], b, 1);
    assert BucketStore.BucketOk(w.s, w.s.bucket[ListOf(w, b)[0]]);
  }

  lemma MayRemoveFirst(w: World, b: Elem)
    requires Inv(w) && b in w.heads && ListOf(w, b) != []
    ensures var act := Link(Ring.Remove(ListOf(w, b)[0]));
            May(w, act) && Inv(Step(w, act)) && Step(w, act).heads == w.heads
  {
    RemoveFirstLists(w, b);
  }

  lemma OwnMoved(w: World, w': World, b: Elem, a: Elem)
    requires OwnData(w, b, a) && ListOf(w, b) != [] && w'.s == w.s
    requires ListOf(w', b) == ListOf(w, b)[1..] && ListOf(w', a) == ListOf(w, a) + [ListOf(w, b)[0]]
    ensures OwnData(w', b, a)
  {
    assert ListOf(w, b) == [ListOf(w, b)[0]] + ListOf(w, b)[1..];
  }

  /** The first bucket removed, its bytes written to the end of the other brigade, and then destroyed. */
  lemma FirstCopied(w: World, w1: World, w2: World, b: Elem, a: Elem, e: Elem)
    requires Inv(w) && b in w.heads && a in w.heads && a != b && ListOf(w, b) != [] && e == ListOf(w, b)[0]
    requires w1 == Step(w, Link(Ring.Remove(e))) && !IsMetadata(w.s, e)
    requires Inv(w2) && WroteOnly(w1, w2, a) && GoesOnWith(w1, w2, a, Part(w.s, e))
    ensures var w' := Step(w2, Destroy(e));
            && May(w2, Destroy(e)) && Inv(w') && Passed(w, w', b, a, Part(w.s, e))
            && ListOf(w', b) == ListOf(w, b)[1..] && ListOf(w', a) == ListOf(w2, a)
  {
    RemoveFirstLists(w, b);
    assert Loose(w2, e);
    StepInv(w2, Destroy(e));
    var w' := Step(w2, Destroy(e));
    forall h | h in w2.heads
      ensures WholeOf(w', h) == WholeOf(w2, h)
    {
      HeadFilled(w2, h);
      DestroyedElsewhere(w2, e, h);
    }
    MeaningCons(w.s, ListOf(w, b));
  }

  // apr_brigade_split_line

  const LF: BucketStore.Byte := 10

  /** The fields of these buckets are what they were. */
  ghost predicate SameFields(s: Store, s': Store, xs: seq<Elem>) {
    forall x | x in xs :: x in s.bucket && x in s'.bucket && s'.bucket[x] == s.bucket[x]
  }

  /** So are the fields of all buckets that are not on `a`. */
  ghost predicate SameElsewhere(w: World, w': World, a: Elem) {
    forall x | x in w.s.bucket && x !in ListOf(w, a) :: x in w'.s.bucket && w'.s.bucket[x] == w.s.bucket[x]
  }

  lemma ElsewhereSame(w: World, w': World, a: Elem, e: Elem)
    requires e in ListOf(w, a) || e !in w.s.bucket
    requires e in w'.s.bucket && w'.s.bucket == w.s.bucket[e := w'.s.bucket[e]]
    ensures SameElsewhere(w, w', a)
  {
  }

  lemma ListElements(w: World, b: Elem, x: Elem)
    requires Inv(w) && b in w.heads && x in ListOf(w, b)
    ensures x in w.s.bucket && forall a | a in w.heads && a != b :: x !in ListOf(w, a)
  {
    BrigadeList(w, b);
    forall a | a in w.heads && a != b
      ensures x !in ListOf(w, a)
    {
      OnOneBrigade(w, a, x, b);
    }
  }

  lemma SameOnOther(w1: World, w2: World, b: Elem, a: Elem, e: Elem)
    requires Inv(w1) && Inv(w2) && b in w1.heads && a in w1.heads && a != b && b in w2.heads
    requires SameElsewhere(w1, w2, a) && ListOf(w2, b) == ListOf(w1, b) && Loose(w2, e)
    ensures SameFields(w1.s, BucketStore.Destroyed(w2.s, e), ListOf(w2, b))
  {
    LooseElsewhere(w2, b, e);
    forall x | x in ListOf(w2, b)
      ensures x in w1.s.bucket && x !in ListOf(w1, a) && x != e
    {
      ListElements(w1, b, x);
    }
  }

  lemma LiveFields(w: World, b: Elem)
    requires Inv(w) && b in w.heads
    ensures SameFields(w.s, w.s, ListOf(w, b))
  {
    BrigadeList(w, b);
  }

  /** The first bucket of `b` has gone, and the others are as they were filed.  Unless data was shared, `m`
      has gone over to the end of `a`. */
  ghost predicate HandedOver(w: World, w': World, b: Elem, a: Elem, m: Meaning) {
    && ListOf(w, b) != [] && ListOf(w', b) == ListOf(w, b)[1..] && w'.heads == w.heads
    && SameFields(w.s, w'.s, ListOf(w', b))
    && (OwnData(w, b, a) ==> OwnData(w', b, a) && Passed(w, w', b, a, m))
  }

  lemma MovedOver(w: World, b: Elem, a: Elem)
    requires Inv(w) && b in w.heads && a in w.heads && a != b && ListOf(w, b) != []
    ensures HandedOver(w, Run(w, MoveFirst(ListOf(w, b)[0], a)), b, a, Part(w.s, ListOf(w, b)[0]))
    ensures var w' := Run(w, MoveFirst(ListOf(w, b)[0], a));
            w'.s == w.s && ListOf(w', a) == ListOf(w, a) + [ListOf(w, b)[0]]
  {
    FirstMoved(w, b, a);
    LiveFields(w, b);
    if OwnData(w, b, a) {
      OwnMoved(w, Run(w, MoveFirst(ListOf(w, b)[0], a)), b, a);
    }
  }

  lemma OwnDestroyed(s: Store, e: Elem, x: Elem)
    requires BucketStore.Valid(s) && e in s.bucket && x in s.bucket && x != e && Unshared(s, e) && Unshared(s, x)
    ensures Unshared(BucketStore.Destroyed(s, e), x)
  {
    if s.bucket[x].Shared? && s.bucket[e].Shared? && s.bucket[x].data == s.bucket[e].data {
      OnlyUser(s, e, x);
    }
  }

  /** Nothing is in the way of a write to a brigade that shares no data. */
  lemma OwnClear(w: World, b: Elem, a: Elem, n: nat)
    requires Inv(w) && OwnData(w, b, a)
    ensures WriteClear(w, a, n)
  {
    if EndsInHeap(w, a) {
      assert LastOf(w, a) in ListOf(w, b) + ListOf(w, a);
      UnsharedClear(w.s, LastOf(w, a), n);
    }
  }

  lemma CopiedOver(w: World, w1: World, w2: World, b: Elem, a: Elem, e: Elem)
    requires Inv(w) && b in w.heads && a in w.heads && a != b && ListOf(w, b) != [] && e == ListOf(w, b)[0]
    requires w1 == Step(w, Link(Ring.Remove(e))) && !IsMetadata(w.s, e)
    requires Inv(w2) && WroteOnly(w1, w2, a) && SameElsewhere(w1, w2, a)
    requires WriteClear(w1, a, |Part(w.s, e).bytes|) ==> GoesOnWith(w1, w2, a, Part(w.s, e))
    ensures May(w2, Destroy(e)) && HandedOver(w, Step(w2, Destroy(e)), b, a, Part(w.s, e))
  {
    RemoveFirstLists(w, b);
    assert Loose(w2, e);
    assert ListOf(w2, b) == ListOf(w1, b) && ListOf(w1, a) == ListOf(w, a);
    SameOnOther(w1, w2, b, a, e);
    if OwnData(w, b, a) {
      OwnRemoved(w, w1, b, a);
      OwnClear(w1, b, a, |Part(w.s, e).bytes|);
      FirstCopied(w, w1, w2, b, a, e);
      OwnCopied(w1, w2, b, a, e);
    }
  }

  lemma AroundRun(w: World, first: Act, acts: seq<Act>, last: Act)
    requires May(w, first) && MayRun(Step(w, first), acts) && May(Run(Step(w, first), acts), last)
    ensures var all := [first] + acts + [last];
            MayRun(w, all) && Run(w, all) == Step(Run(Step(w, first), acts), last)
  {
    OneAct(Run(Step(w, first), acts), last);
    RunAppend(Step(w, first), acts, [last]);
    RunCons(w, first, acts + [last]);
    assert [first] + acts + [last] == [first] + (acts + [last]);
  }

  lemma OwnRemoved(w: World, w1: World, b: Elem, a: Elem)
    requires OwnData(w, b, a) && ListOf(w, b) != [] && w1.s == w.s
    requires ListOf(w1, b) == ListOf(w, b)[1..] && ListOf(w1, a) == ListOf(w, a)
    ensures OwnData(w1, b, a) && Unshared(w.s, ListOf(w, b)[0])
  {
    assert ListOf(w, b) == [ListOf(w, b)[0]] + ListOf(w, b)[1..];
    assert ListOf(w, b)[0] in ListOf(w, b) + ListOf(w, a);
  }

  /** A write keeps it that no data is shared. */
  lemma OwnWritten(w1: World, w2: World, b: Elem, a: Elem)
    requires Inv(w1) && b in w1.heads && a in w1.heads && a != b && OwnData(w1, b, a) && WroteOnly(w1, w2, a)
    ensures OwnData(w2, b, a)
  {
    BrigadeList(w1, b);
    BrigadeList(w1, a);
    forall x | x in ListOf(w2, b) + ListOf(w2, a)
      ensures Unshared(w2.s, x)
    {
      if x in ListOf(w1, b) + ListOf(w1, a) {
        assert Unshared(w1.s, x);
      } else {
        assert ListOf(w2, b) == ListOf(w1, b);
      }
    }
  }

  lemma OwnCopied(w1: World, w2: World, b: Elem, a: Elem, e: Elem)
    requires Inv(w1) && Inv(w2) && b in w1.heads && a in w1.heads && a != b && e in w1.s.bucket && Loose(w2, e)
    requires OwnData(w1, b, a) && Unshared(w1.s, e) && WroteOnly(w1, w2, a)
    ensures OwnData(Step(w2, Destroy(e)), b, a)
  {
    OwnWritten(w1, w2, b, a);
    assert Unshared(w2.s, e);
    OwnLess(w2, b, a, e);
  }

  /** So does destroying a bucket that is on no brigade. */
  lemma OwnLess(w: World, b: Elem, a: Elem, e: Elem)
    requires Inv(w) && b in w.heads && a in w.heads && Loose(w, e) && Unshared(w.s, e) && OwnData(w, b, a)
    ensures OwnData(Step(w, Destroy(e)), b, a)
  {
    var w' := Step(w, Destroy(e));
    assert ListOf(w', b) == ListOf(w, b) && ListOf(w', a) == ListOf(w, a);
    LooseElsewhere(w, b, e);
    LooseElsewhere(w, a, e);
    BrigadeList(w, b);
    BrigadeList(w, a);
    forall x | x in ListOf(w', b) + ListOf(w', a)
      ensures Unshared(w'.s, x)
    {
      OwnDestroyed(w.s, e, x);
    }
  }

  /** The first bucket split after its first line feed, and its first half moved. */
  lemma LineMoved(w: World, w1: World, b: Elem, a: Elem, e: Elem, p: nat, n: Elem)
    requires Inv(w) && b in w.heads && a in w.heads && a != b && ListOf(w, b) != [] && e == ListOf(w, b)[0]
    requires May(w, Split(e, p, n)) && w1 == Step(w, Split(e, p, n)) && e in w.s.bucket
    requires BucketStore.SplitStatus(w.s.bucket[e], p) == BucketStore.Success
    ensures b in w1.heads && a in w1.heads && ListOf(w1, b) != [] && ListOf(w1, b)[0] == e
    ensures p <= |BucketStore.Segment(w.s, e)|
    ensures var acts := [Split(e, p, n)] + MoveFirst(e, a);
            && MayRun(w, acts) && Run(w, acts) == Run(w1, MoveFirst(e, a))
            && Passed(w, Run(w, acts), b, a, Meaning(BucketStore.Segment(w.s, e)[..p], []))
            && ListOf(Run(w, acts), b) == [n] + ListOf(w, b)[1..]
  {
    BrigadeList(w, b);
    HomeIsUnique(w.m, w.L, e, b, 1);
    LiveNoHead(w, e);
    SplitList(w, e, p, n);
    SplitStep(w, e, p, n);
    NewNowhere(w, n);
    SplitHalves(w.s, e, p, n);
    SplitUnseen(w, e, p, n);
    FirstMoved(w1, b, a);
    RunCons(w, Split(e, p, n), MoveFirst(e, a));
    PassedSame(w, w1, Run(w1, MoveFirst(e, a)), b, a, Part(w1.s, e));
    NewFirst(ListOf(w, b), n);
  }

  lemma NewFirst(xs: seq<Elem>, n: Elem)
    requires xs != []
    ensures PutAfter(xs, 0, n)[1..] == [n] + xs[1..]
  {
  }

  lemma PassedSame(w: World, w1: World, w2: World, b: Elem, a: Elem, m: Meaning)
    requires SameMeanings(w, w1) && Passed(w1, w2, b, a, m) && a in w.heads && b in w.heads
    ensures Passed(w, w2, b, a, m)
  {
    forall h | h in w.heads
      ensures WholeOf(w1, h) == WholeOf(w, h)
    {
    }
  }

  lemma LineLists(w: World, w1: World, b: Elem, a: Elem, e: Elem, p: nat, n: Elem)
    requires Inv(w) && b in w.heads && a in w.heads && a != b && ListOf(w, b) != [] && e == ListOf(w, b)[0]
    requires May(w, Split(e, p, n)) && w1 == Step(w, Split(e, p, n)) && e in w.s.bucket
    requires BucketStore.SplitStatus(w.s.bucket[e], p) == BucketStore.Success
    ensures n !in w.s.bucket && w1.s == BucketStore.SplitAt(w.s, e, p, n)
    ensures ListOf(w1, b) == PutAfter(ListOf(w, b), 0, n) && ListOf(w1, a) == ListOf(w, a)
  {
    BrigadeList(w, b);
    HomeIsUnique(w.m, w.L, e, b, 1);
    LiveNoHead(w, e);
    SplitList(w, e, p, n);
    NewNowhere(w, n);
    SplitListElsewhere(w, e, p, n, a);
  }

  lemma LineFirst(w: World, w1: World, b: Elem, a: Elem, e: Elem, p: nat, n: Elem)
    requires Inv(w) && b in w.heads && a in w.heads && a != b && ListOf(w, b) != [] && e == ListOf(w, b)[0]
    requires May(w, Split(e, p, n)) && w1 == Step(w, Split(e, p, n)) && e in w.s.bucket
    requires BucketStore.SplitStatus(w.s.bucket[e], p) == BucketStore.Success
    ensures b in w1.heads && a in w1.heads && ListOf(w1, b) != [] && ListOf(w1, b)[0] == e
  {
    LineLists(w, w1, b, a, e, p, n);
  }

  /** What is shared then. */
  lemma LineShared(w: World, w1: World, b: Elem, a: Elem, e: Elem, p: nat, n: Elem)
    requires Inv(w) && b in w.heads && a in w.heads && a != b && ListOf(w, b) != [] && e == ListOf(w, b)[0]
    requires May(w, Split(e, p, n)) && w1 == Step(w, Split(e, p, n)) && Inv(w1) && e in w.s.bucket
    requires BucketStore.SplitStatus(w.s.bucket[e], p) == BucketStore.Success
    requires b in w1.heads && a in w1.heads && ListOf(w1, b) != [] && ListOf(w1, b)[0] == e && OwnData(w, b, a)
    ensures Confined(Run(w1, MoveFirst(e, a)), b, a)
  {
    LineLists(w, w1, b, a, e, p, n);
    FirstMoved(w1, b, a);
    LineConfined(w, Run(w1, MoveFirst(e, a)), b, a, e, p, n);
  }

  lemma SplitListElsewhere(w: World, e: Elem, p: nat, n: Elem, a: Elem)
    requires Inv(w) && a in w.heads && May(w, Split(e, p, n)) && e in w.s.bucket && Home(w.L, e).0 != a
    requires BucketStore.SplitStatus(w.s.bucket[e], p) == BucketStore.Success
    ensures ListOf(Step(w, Split(e, p, n)), a) == ListOf(w, a)
  {
    HeadFilled(w, a);
    NewUnlisted(w, a, n);
    SplitLists(w, e, p, n);
  }

  /** What has been passed when the loop ends: the first line with its line feed; or no line feed, with
      nothing left or the limit reached. */
  ghost predicate LineTaken(m: Meaning, rest: seq<Elem>, maxbytes: int) {
    || (m.bytes != [] && Last(m.bytes) == 10 && 10 !in m.bytes[..|m.bytes| - 1])
    || (10 !in m.bytes && (rest == [] || |m.bytes| >= maxbytes))
  }

  lemma LineEnds(m: Meaning, str: seq<BucketStore.Byte>, p: nat)
    requires LF !in m.bytes && 0 < p <= |str| && str[p - 1] == LF && LF !in str[..p - 1]
    ensures var line := Followed(m, Meaning(str[..p], []));
            line.bytes != [] && Last(line.bytes) == LF && LF !in line.bytes[..|line.bytes| - 1]
  {
    var line := m.bytes + str[..p];
    assert line[..|line| - 1] == m.bytes + str[..p - 1];
  }

  /** What the loop keeps: no line feed in what has been passed. */
  ghost predicate Lining(w: World, w': World, b: Elem, a: Elem, moved: Meaning, readbytes: int) {
    && w'.heads == w.heads && LF !in moved.bytes && |moved.bytes| == readbytes
    && (OwnData(w, b, a) ==> OwnData(w', b, a) && Passed(w, w', b, a, moved))
  }

  lemma LiningNext(w: World, w1: World, w2: World, b: Elem, a: Elem, moved: Meaning, readbytes: int, m: Meaning)
    requires Lining(w, w1, b, a, moved, readbytes) && HandedOver(w1, w2, b, a, m) && LF !in m.bytes
    ensures Lining(w, w2, b, a, Followed(moved, m), readbytes + |m.bytes|)
  {
    if OwnData(w, b, a) {
      PassedTwice(w, w1, w2, b, a, moved, m);
    }
  }

  lemma LiningLine(w: World, w1: World, w2: World, b: Elem, a: Elem, moved: Meaning, readbytes: int,
                   str: seq<BucketStore.Byte>, p: nat, maxbytes: int)
    requires Lining(w, w1, b, a, moved, readbytes) && 0 < p <= |str| && str[p - 1] == LF && LF !in str[..p - 1]
    requires Passed(w1, w2, b, a, Meaning(str[..p], []))
    ensures var line := Followed(moved, Meaning(str[..p], []));
            LineTaken(line, ListOf(w2, b), maxbytes) && (OwnData(w, b, a) ==> Passed(w, w2, b, a, line))
  {
    LineEnds(moved, str, p);
    if OwnData(w, b, a) {
      PassedTwice(w, w1, w2, b, a, moved, Meaning(str[..p], []));
    }
  }

  lemma LiningFirst(w: World, b: Elem, a: Elem)
    ensures Lining(w, w, b, a, NOTHING, 0)
  {
    PassedNothing(w, b, a);
  }

  // How far it goes.

  lemma {:induction false} SameSizes(s: Store, s': Store, xs: seq<Elem>)
    requires BucketStore.Valid(s) && BucketStore.Valid(s') && SameFields(s, s', xs)
    ensures |MeaningOf(s', xs).bytes| == |MeaningOf(s, xs).bytes|
    ensures |MeaningOf(s', xs).marks| == |MeaningOf(s, xs).marks|
  {
    if xs != [] {
      MeaningCons(s, xs);
      MeaningCons(s', xs);
      SameSizes(s, s', xs[1..]);
      assert xs[0] in xs;
      assert BucketStore.BucketOk(s, s.bucket[xs[0]]) && BucketStore.BucketOk(s', s'.bucket[xs[0]]);
    }
  }

  lemma SameFollowed(a: Meaning, b: Meaning, a': Meaning, b': Meaning)
    requires Followed(a, b) == Followed(a', b') && |b.bytes| == |b'.bytes| && |b.marks| == |b'.marks|
    ensures a == a' && b.bytes == b'.bytes
  {
    assert a.bytes == (a.bytes + b.bytes)[..|a.bytes|] && a'.bytes == (a'.bytes + b'.bytes)[..|a.bytes|];
    assert b.bytes == (a.bytes + b.bytes)[|a.bytes|..] && b'.bytes == (a'.bytes + b'.bytes)[|a.bytes|..];
    var m, m' := Shifted(b.marks, |a.bytes|), Shifted(b'.marks, |a.bytes|);
    assert a.marks == (a.marks + m)[..|a.marks|] && a'.marks == (a'.marks + m')[..|a.marks|];
  }

  /** Of the buckets `xs` the first `k` have gone, with `readbytes` bytes, and the others are as they were filed.
      The limit had not been reached before the last of those `k`. */
  ghost predicate FrontGone(s: Store, s': Store, xs: seq<Elem>, ys: seq<Elem>, k: int, readbytes: int, maxbytes: int) {
    || (k == 0 && ys == xs && SameFields(s, s', ys) && readbytes == 0)
    || (0 < k <= |xs| && ys == xs[k..] && SameFields(s, s', ys)
        && readbytes == |MeaningOf(s, xs[..k]).bytes| && !Reached(s, xs, k, maxbytes))
  }

  /** One bucket or more, but fewer than `k`, have as many bytes as the limit already. */
  ghost predicate Reached(s: Store, xs: seq<Elem>, k: int, maxbytes: int) {
    exists i {:trigger xs[..i]} | 0 < i < k && i <= |xs| :: |MeaningOf(s, xs[..i]).bytes| >= maxbytes
  }

  lemma FrontAtAll(s: Store, s': Store, xs: seq<Elem>, ys: seq<Elem>, k: int, readbytes: int, maxbytes: int)
    requires FrontGone(s, s', xs, ys, k, readbytes, maxbytes)
    ensures 0 <= k <= |xs| && ys == xs[k..] && SameFields(s, s', ys)
    ensures readbytes == |MeaningOf(s, xs[..k]).bytes| && !Reached(s, xs, k, maxbytes)
  {
    assert xs[..0] == [] && xs[0..] == xs;
  }

  lemma FrontFirst(w: World, b: Elem, maxbytes: int)
    requires Inv(w) && b in w.heads
    ensures FrontGone(w.s, w.s, ListOf(w, b), ListOf(w, b), 0, 0, maxbytes)
  {
    LiveFields(w, b);
  }

  lemma FrontAnd(s: Store, xs: seq<Elem>, k: nat)
    requires k < |xs|
    ensures MeaningOf(s, xs[..k + 1]) == Followed(MeaningOf(s, xs[..k]), Part(s, xs[k]))
  {
    assert xs[..k + 1] == xs[..k] + [xs[k]];
    MeaningConcat(s, xs[..k], [xs[k]]);
    MeaningOne(s, xs[k]);
  }

  lemma PartSize(s: Store, s': Store, x: Elem)
    requires BucketStore.Valid(s) && BucketStore.Valid(s')
    requires x in s.bucket && x in s'.bucket && s'.bucket[x] == s.bucket[x]
    ensures |Part(s', x).bytes| == |Part(s, x).bytes| && (IsMetadata(s', x) <==> IsMetadata(s, x))
    ensures IsMetadata(s, x) || Part(s, x).marks == []
  {
    assert BucketStore.BucketOk(s, s.bucket[x]) && BucketStore.BucketOk(s', s'.bucket[x]);
  }

  /** The bytes of the next bucket, by its length. */
  lemma NextSize(s: Store, s': Store, xs: seq<Elem>, ys: seq<Elem>, k: int, readbytes: int, maxbytes: int)
    requires BucketStore.Valid(s) && BucketStore.Valid(s') && ys != []
    requires FrontGone(s, s', xs, ys, k, readbytes, maxbytes)
    ensures k < |xs| && ys[0] == xs[k] && ys[1..] == xs[k + 1..] && SameFields(s, s', ys[1..])
    ensures |MeaningOf(s, xs[..k + 1]).bytes| == readbytes + |Part(s', ys[0]).bytes|
    ensures !IsMetadata(s', ys[0]) ==> MeaningOf(s, xs[..k + 1]).marks == MeaningOf(s, xs[..k]).marks
  {
    FrontAtAll(s, s', xs, ys, k, readbytes, maxbytes);
    assert ys[0] in ys;
    FrontAnd(s, xs, k);
    PartSize(s, s', ys[0]);
    assert xs[k..][1..] == xs[k + 1..];
  }

  lemma NotReachedNext(s: Store, xs: seq<Elem>, k: int, readbytes: int, maxbytes: int)
    requires 0 <= k < |xs| && !Reached(s, xs, k, maxbytes) && readbytes == |MeaningOf(s, xs[..k]).bytes|
    requires k == 0 || readbytes < maxbytes
    ensures !Reached(s, xs, k + 1, maxbytes)
  {
  }

  lemma FrontNext(s: Store, s1: Store, s2: Store, xs: seq<Elem>, ys: seq<Elem>, k: int, readbytes: int, maxbytes: int)
    requires BucketStore.Valid(s) && BucketStore.Valid(s1) && ys != []
    requires FrontGone(s, s1, xs, ys, k, readbytes, maxbytes) && (k == 0 || readbytes < maxbytes)
    requires SameFields(s1, s2, ys[1..])
    ensures FrontGone(s, s2, xs, ys[1..], k + 1, readbytes + |Part(s1, ys[0]).bytes|, maxbytes)
  {
    FrontAtAll(s, s1, xs, ys, k, readbytes, maxbytes);
    NextSize(s, s1, xs, ys, k, readbytes, maxbytes);
    NotReachedNext(s, xs, k, readbytes, maxbytes);
  }

  lemma FrontAndRest(s: Store, xs: seq<Elem>, k: nat)
    requires k <= |xs|
    ensures MeaningOf(s, xs) == Followed(MeaningOf(s, xs[..k]), MeaningOf(s, xs[k..]))
    ensures MeaningOf(s, xs[..k]).bytes <= MeaningOf(s, xs).bytes
  {
    assert xs == xs[..k] + xs[k..];
    MeaningConcat(s, xs[..k], xs[k..]);
  }

  /** What has gone over is what the first `k` buckets meant. */
  lemma FrontMeans(s: Store, s': Store, xs: seq<Elem>, ys: seq<Elem>, k: int, readbytes: int, maxbytes: int,
                   moved: Meaning)
    requires BucketStore.Valid(s) && BucketStore.Valid(s') && FrontGone(s, s', xs, ys, k, readbytes, maxbytes)
    requires MeaningOf(s, xs) == Followed(moved, MeaningOf(s', ys))
    ensures moved == MeaningOf(s, xs[..k])
  {
    FrontAtAll(s, s', xs, ys, k, readbytes, maxbytes);
    FrontAndRest(s, xs, k);
    SameSizes(s, s', ys);
    SameFollowed(MeaningOf(s, xs[..k]), MeaningOf(s, ys), moved, MeaningOf(s', ys));
  }

  /** The first `k` of the buckets `xs` have gone over when `ys` are left, and the limit had not been reached
      before the last of them.  Without a line feed they are all there are or reach the limit; with one, only
      the front of the last has gone over. */
  ghost predicate Limited(s: Store, xs: seq<Elem>, ys: seq<Elem>, moved: Meaning, k: int, maxbytes: int) {
    || (10 !in moved.bytes && 0 <= k <= |xs| && !Reached(s, xs, k, maxbytes)
        && ys == xs[k..] && |moved.bytes| == |MeaningOf(s, xs[..k]).bytes|
        && (k == |xs| || (k > 0 && |moved.bytes| >= maxbytes)))
    || (10 in moved.bytes && 0 < k <= |xs| && !Reached(s, xs, k, maxbytes)
        && ys != [] && ys[1..] == xs[k..]
        && |MeaningOf(s, xs[..k - 1]).bytes| < |moved.bytes| <= |MeaningOf(s, xs[..k]).bytes|)
  }

  /** It is the front of what the `k` buckets meant. */
  ghost predicate FrontOf(s: Store, xs: seq<Elem>, moved: Meaning, k: int) {
    && 0 <= k <= |xs|
    && moved.bytes <= MeaningOf(s, xs[..k]).bytes && moved.marks == MeaningOf(s, xs[..k]).marks
  }

  lemma PrefixOfPrefix<T>(a: seq<T>, b: seq<T>, whole: seq<T>)
    requires a <= whole && b <= whole && |a| <= |b|
    ensures a <= b
  {
  }

  /** The next bucket may still be taken. */
  lemma NextOne(s: Store, s': Store, xs: seq<Elem>, ys: seq<Elem>, k: int, readbytes: int, maxbytes: int)
    requires BucketStore.Valid(s) && BucketStore.Valid(s') && FrontGone(s, s', xs, ys, k, readbytes, maxbytes)
    requires (k == 0 || readbytes < maxbytes) && ys != []
    ensures 0 <= k < |xs| && !Reached(s, xs, k + 1, maxbytes) && ys[1..] == xs[k + 1..]
    ensures |MeaningOf(s, xs[..k]).bytes| == readbytes
    ensures |MeaningOf(s, xs[..k + 1]).bytes| == readbytes + |Part(s', ys[0]).bytes|
  {
    FrontAtAll(s, s', xs, ys, k, readbytes, maxbytes);
    NextSize(s, s', xs, ys, k, readbytes, maxbytes);
    NotReachedNext(s, xs, k, readbytes, maxbytes);
  }

  lemma FoundWithin(s: Store, xs: seq<Elem>, rest: seq<Elem>, line: Meaning, k: int, maxbytes: int)
    requires 0 <= k < |xs| && !Reached(s, xs, k + 1, maxbytes) && rest != [] && rest[1..] == xs[k + 1..]
    requires LF in line.bytes
    requires |MeaningOf(s, xs[..k]).bytes| < |line.bytes| <= |MeaningOf(s, xs[..k + 1]).bytes|
    ensures Limited(s, xs, rest, line, k + 1, maxbytes)
  {
    assert k + 1 - 1 == k;
  }

  /** The loop has ended with the line feed at the end of the first `p` bytes of the next bucket. */
  lemma LimitedLine(s: Store, s': Store, xs: seq<Elem>, ys: seq<Elem>, rest: seq<Elem>, moved: Meaning,
                    str: seq<BucketStore.Byte>, p: nat, k: int, readbytes: int, maxbytes: int)
    requires BucketStore.Valid(s) && BucketStore.Valid(s') && FrontGone(s, s', xs, ys, k, readbytes, maxbytes)
    requires (k == 0 || readbytes < maxbytes) && |moved.bytes| == readbytes && ys != []
    requires Part(s', ys[0]).bytes == str && 0 < p <= |str| && str[p - 1] == LF
    requires rest != [] && rest[1..] == ys[1..]
    ensures LF in (moved.bytes + str[..p])
    ensures Limited(s, xs, rest, Followed(moved, Meaning(str[..p], [])), k + 1, maxbytes)
  {
    NextOne(s, s', xs, ys, k, readbytes, maxbytes);
    assert (moved.bytes + str[..p])[readbytes + p - 1] == LF;
    FoundWithin(s, xs, rest, Followed(moved, Meaning(str[..p], [])), k, maxbytes);
  }

  lemma FrontLine(s: Store, s': Store, xs: seq<Elem>, ys: seq<Elem>, moved: Meaning, after: Meaning,
                  str: seq<BucketStore.Byte>, p: nat, k: int, readbytes: int, maxbytes: int)
    requires BucketStore.Valid(s) && BucketStore.Valid(s') && FrontGone(s, s', xs, ys, k, readbytes, maxbytes)
    requires ys != [] && !IsMetadata(s', ys[0]) && Part(s', ys[0]).bytes == str && p <= |str|
    requires MeaningOf(s, xs) == Followed(moved, MeaningOf(s', ys))
    requires MeaningOf(s, xs) == Followed(Followed(moved, Meaning(str[..p], [])), after)
    ensures FrontOf(s, xs, Followed(moved, Meaning(str[..p], [])), k + 1)
  {
    NextSize(s, s', xs, ys, k, readbytes, maxbytes);
    FrontMeans(s, s', xs, ys, k, readbytes, maxbytes, moved);
    FrontAndRest(s, xs, k + 1);
    PrefixOfPrefix(moved.bytes + str[..p], MeaningOf(s, xs[..k + 1]).bytes, MeaningOf(s, xs).bytes);
  }

  // Who shares what when a line has been taken.

  ghost predicate SharesData(s: Store, x: Elem, y: Elem) {
    && x in s.bucket && y in s.bucket && s.bucket[x].Shared? && s.bucket[y].Shared?
    && s.bucket[x].data == s.bucket[y].data
  }

  /** The buckets of `b` share their data with buckets of `a` only. */
  ghost predicate Confined(w: World, b: Elem, a: Elem) {
    forall x, y {:trigger SharesData(w.s, x, y)} | x in ListOf(w, b) && y in w.s.bucket && SharesData(w.s, x, y) ::
      y == x || y in ListOf(w, a)
  }

  lemma OnlyItself(s: Store, x: Elem, y: Elem)
    requires BucketStore.Valid(s) && Unshared(s, x) && SharesData(s, x, y)
    ensures y == x
  {
    OnlyUser(s, x, y);
  }

  lemma OwnConfined(w: World, b: Elem, a: Elem)
    requires Inv(w) && OwnData(w, b, a)
    ensures Confined(w, b, a)
  {
    forall x, y | x in ListOf(w, b) && y in w.s.bucket && SharesData(w.s, x, y)
      ensures y == x
    {
      assert x in ListOf(w, b) + ListOf(w, a);
      OnlyItself(w.s, x, y);
    }
  }

  // The loop.

  /** Unless data was shared: `moved` has gone from the front of `b` to the end of `a`, from the first `k`
      buckets, and the buckets that are left share data with those on `a` only. */
  ghost predicate WentOver(w: World, w': World, b: Elem, a: Elem, moved: Meaning, k: int) {
    || !OwnData(w, b, a)
    || (Passed(w, w', b, a, moved) && Confined(w', b, a) && FrontOf(w.s, ListOf(w, b), moved, k))
  }

  /** What taking a line comes to, with a line feed or without: how it ends, how far it goes, what goes over. */
  ghost predicate LineGone(w: World, w': World, b: Elem, a: Elem, moved: Meaning, k: int, maxbytes: int) {
    || (10 in moved.bytes && LineTaken(moved, ListOf(w', b), maxbytes)
        && Limited(w.s, ListOf(w, b), ListOf(w', b), moved, k, maxbytes) && WentOver(w, w', b, a, moved, k))
    || (10 !in moved.bytes && LineTaken(moved, ListOf(w', b), maxbytes)
        && Limited(w.s, ListOf(w, b), ListOf(w', b), moved, k, maxbytes) && WentOver(w, w', b, a, moved, k))
  }

  /** Since `w`, `k` buckets have gone over without a line feed, if any. */
  ghost predicate Passing(w: World, w': World, b: Elem, a: Elem, moved: Meaning, k: int, readbytes: int,
                          maxbytes: int)
  {
    || (k == 0 && w' == w && moved == NOTHING && readbytes == 0)
    || (k > 0 && Lining(w, w', b, a, moved, readbytes)
        && FrontGone(w.s, w'.s, ListOf(w, b), ListOf(w', b), k, readbytes, maxbytes))
  }

  lemma PassingAtAll(w: World, w': World, b: Elem, a: Elem, moved: Meaning, k: int, readbytes: int, maxbytes: int)
    requires Inv(w) && b in w.heads && Passing(w, w', b, a, moved, k, readbytes, maxbytes)
    ensures k >= 0 && Lining(w, w', b, a, moved, readbytes)
    ensures FrontGone(w.s, w'.s, ListOf(w, b), ListOf(w', b), k, readbytes, maxbytes)
  {
    if k == 0 {
      LiningFirst(w, b, a);
      FrontFirst(w, b, maxbytes);
    }
  }

  /** One bucket more. */
  lemma PassedOn(w: World, w1: World, w2: World, b: Elem, a: Elem, moved: Meaning, k: int, next: int, readbytes: int,
                 total: int, maxbytes: int)
    requires Inv(w) && Inv(w1) && b in w.heads && Passing(w, w1, b, a, moved, k, readbytes, maxbytes)
    requires (k == 0 || readbytes < maxbytes) && ListOf(w1, b) != []
    requires var m := Part(w1.s, ListOf(w1, b)[0]);
             HandedOver(w1, w2, b, a, m) && LF !in m.bytes && next == k + 1 && total == readbytes + |m.bytes|
    ensures Passing(w, w2, b, a, Followed(moved, Part(w1.s, ListOf(w1, b)[0])), next, total, maxbytes)
  {
    PassingAtAll(w, w1, b, a, moved, k, readbytes, maxbytes);
    LiningNext(w, w1, w2, b, a, moved, readbytes, Part(w1.s, ListOf(w1, b)[0]));
    FrontNext(w.s, w1.s, w2.s, ListOf(w, b), ListOf(w1, b), k, readbytes, maxbytes);
  }

  /** The first `p` bytes of the next bucket complete the line. */
  lemma LineDone(w: World, w1: World, w2: World, b: Elem, a: Elem, moved: Meaning, str: seq<BucketStore.Byte>, p: nat,
                 k: int, next: int, readbytes: int, maxbytes: int)
    requires Inv(w) && Inv(w1) && b in w.heads && Passing(w, w1, b, a, moved, k, readbytes, maxbytes)
    requires next == k + 1 && (k == 0 || readbytes < maxbytes) && ListOf(w1, b) != [] && ListOf(w2, b) != []
    requires Part(w1.s, ListOf(w1, b)[0]) == Meaning(str, []) && !IsMetadata(w1.s, ListOf(w1, b)[0])
    requires 0 < p <= |str| && str[p - 1] == LF && LF !in str[..p - 1]
    requires Passed(w1, w2, b, a, Meaning(str[..p], [])) && ListOf(w2, b)[1..] == ListOf(w1, b)[1..]
    requires OwnData(w1, b, a) ==> Confined(w2, b, a)
    ensures LineGone(w, w2, b, a, Followed(moved, Meaning(str[..p], [])), next, maxbytes)
  {
    PassingAtAll(w, w1, b, a, moved, k, readbytes, maxbytes);
    LiningLine(w, w1, w2, b, a, moved, readbytes, str, p, maxbytes);
    LimitedLine(w.s, w1.s, ListOf(w, b), ListOf(w1, b), ListOf(w2, b), moved, str, p, k, readbytes, maxbytes);
    if OwnData(w, b, a) {
      FrontLine(w.s, w1.s, ListOf(w, b), ListOf(w1, b), moved, WholeOf(w2, b), str, p, k, readbytes, maxbytes);
    }
  }

  lemma LimitedWhole(s: Store, s': Store, xs: seq<Elem>, ys: seq<Elem>, moved: Meaning, k: int, readbytes: int,
                     maxbytes: int)
    requires FrontGone(s, s', xs, ys, k, readbytes, maxbytes) && LF !in moved.bytes && |moved.bytes| == readbytes
    requires ys == [] || (k > 0 && readbytes >= maxbytes)
    ensures Limited(s, xs, ys, moved, k, maxbytes)
  {
    FrontAtAll(s, s', xs, ys, k, readbytes, maxbytes);
  }

  /** The loop has ended without a line feed. */
  lemma NoLine(w: World, w': World, b: Elem, a: Elem, moved: Meaning, k: int, readbytes: int, maxbytes: int)
    requires Inv(w) && Inv(w') && b in w.heads && Passing(w, w', b, a, moved, k, readbytes, maxbytes)
    requires ListOf(w', b) == [] || (k > 0 && readbytes >= maxbytes)
    ensures LineGone(w, w', b, a, moved, k, maxbytes) && LF !in moved.bytes
  {
    PassingAtAll(w, w', b, a, moved, k, readbytes, maxbytes);
    LimitedWhole(w.s, w'.s, ListOf(w, b), ListOf(w', b), moved, k, readbytes, maxbytes);
    if OwnData(w, b, a) {
      OwnConfined(w', b, a);
      FrontMeans(w.s, w'.s, ListOf(w, b), ListOf(w', b), k, readbytes, maxbytes, moved);
    }
  }

  /** After a split of `e`, which shared nothing, only its halves share data with each other. */
  lemma HalvesShare(s: Store, e: Elem, p: nat, n: Elem, x: Elem, y: Elem)
    requires BucketStore.Valid(s) && e in s.bucket && n !in s.bucket && Unshared(s, e) && x != e
    requires BucketStore.SplitStatus(s.bucket[e], p) == BucketStore.Success
    requires SharesData(BucketStore.SplitAt(s, e, p, n), x, y) && (x == n || Unshared(s, x))
    ensures y == x || (x == n && y == e)
  {
    var was, wasY := if x == n then e else x, if y == n then e else y;
    assert SharesData(s, was, wasY);
    OnlyItself(s, was, wasY);
  }

  lemma LineConfined(w: World, w2: World, b: Elem, a: Elem, e: Elem, p: nat, n: Elem)
    requires Inv(w) && OwnData(w, b, a) && ListOf(w, b) != [] && e == ListOf(w, b)[0]
    requires e in w.s.bucket && n !in w.s.bucket
    requires b in w.heads && BucketStore.SplitStatus(w.s.bucket[e], p) == BucketStore.Success
    requires w2.s == BucketStore.SplitAt(w.s, e, p, n)
    requires ListOf(w2, b) == PutAfter(ListOf(w, b), 0, n)[1..] && ListOf(w2, a) == ListOf(w, a) + [e]
    ensures Confined(w2, b, a)
  {
    var xs := ListOf(w, b);
    assert PutAfter(xs, 0, n)[1..] == [n] + xs[1..];
    assert e in xs + ListOf(w, a);
    BrigadeList(w, b);
    forall x, y | x in ListOf(w2, b) && y in w2.s.bucket && SharesData(w2.s, x, y)
      ensures y == x || y in ListOf(w2, a)
    {
      assert x != n ==> x in xs && x in xs + ListOf(w, a) && x != e;
      BrigadeList(w, b);
      assert x != e;
      HalvesShare(w.s, e, p, n, x, y);
    }
  }

  /** The buckets `xs` have gone, and none has changed. */
  ghost predicate Gone(s: Store, s': Store, xs: seq<Elem>) {
    && (forall x | x in s'.bucket :: x in s.bucket && s'.bucket[x] == s.bucket[x])
    && forall x | x in xs :: x !in s'.bucket
  }

  lemma GoneTwice(s: Store, s1: Store, s2: Store, e: Elem, rest: seq<Elem>)
    requires Gone(s, s1, [e]) && Gone(s1, s2, rest)
    ensures Gone(s, s2, [e] + rest)
  {
    assert e in [e];
  }

  lemma DestroyedGone(s: Store, e: Elem)
    requires BucketStore.Valid(s) && e in s.bucket
    ensures Gone(s, BucketStore.Destroyed(s, e), [e])
  {
  }

  lemma FirstGone(w: World, a: Elem)
    requires Inv(w) && a in w.heads && ListOf(w, a) != []
    ensures Gone(w.s, Step(w, Delete(ListOf(w, a)[0])).s, [ListOf(w, a)[0]])
  {
    HeadFilled(w, a);
    BrigadeList(w, a);
    DeleteFirst(w, a);
    DestroyedGone(w.s, ListOf(w, a)[0]);
  }

  /** Emptying a brigade: its own buckets are gone. */
  lemma {:induction false} CleanupGone(w: World, a: Elem)
    requires Inv(w) && a in w.heads
    ensures Gone(w.s, Run(w, DeleteAll(ListOf(w, a))).s, ListOf(w, a))
    decreases |ListOf(w, a)|
  {
    HeadFilled(w, a);
    var xs := ListOf(w, a);
    if xs != [] {
      DeleteFirst(w, a);
      var w1 := Step(w, Delete(xs[0]));
      FirstGone(w, a);
      CleanupGone(w1, a);
      GoneTwice(w.s, w1.s, Run(w1, DeleteAll(xs[1..])).s, xs[0], xs[1..]);
      FirstAndRest(xs);
    }
  }

  /** With the brigade emptied that held the other halves, nothing is shared any more. */
  lemma ConfinedCleaned(w: World, b: Elem, a: Elem)
    requires Inv(w) && a in w.heads && b in w.heads && a != b && Confined(w, b, a)
    ensures var w' := Run(w, DeleteAll(ListOf(w, a)));
            && MayRun(w, DeleteAll(ListOf(w, a))) && Inv(w') && w'.heads == w.heads
            && ListOf(w', b) == ListOf(w, b) && ListOf(w', a) == []
            && OwnData(w', b, a) && WholeOf(w', b) == WholeOf(w, b)
  {
    var w' := Run(w, DeleteAll(ListOf(w, a)));
    CleanupEmpties(w, a);
    CleanupGone(w, a);
    assert Kept(w, w', b);
    KeptMeans(w, w', b);
    forall x | x in ListOf(w', b) + ListOf(w', a)
      ensures Unshared(w'.s, x)
    {
      CleanedUnshared(w, w', b, a, x);
    }
  }

  lemma CleanedUnshared(w: World, w': World, b: Elem, a: Elem, x: Elem)
    requires Inv(w') && Confined(w, b, a) && x in ListOf(w, b)
    requires Gone(w.s, w'.s, ListOf(w, a))
    ensures Unshared(w'.s, x)
  {
    if x in w'.s.bucket && w'.s.bucket[x].Shared? {
      var r := w'.s.bucket[x].data;
      assert BucketStore.BucketOk(w'.s, w'.s.bucket[x]) && BucketStore.CountOk(w'.s, r);
      forall y | y in BucketStore.Users(w'.s, r)
        ensures y == x
      {
        assert SharesData(w.s, x, y);
      }
      assert BucketStore.Uses(w'.s, x, r);
      assert BucketStore.Users(w'.s, r) == {x};
    }
  }

  // Who shares what when a brigade has been parted.

  /** From the `k`th bucket on, the buckets of `b` share their data with the earlier ones only. */
  ghost predicate ConfinedAt(w: World, b: Elem, k: int) {
    && 0 <= k <= |ListOf(w, b)|
    && forall x, y {:trigger SharesData(w.s, x, y)} |
         x in ListOf(w, b)[k..] && y in w.s.bucket && SharesData(w.s, x, y) :: y == x || y in ListOf(w, b)[..k]
  }

  lemma OwnConfinedAt(w: World, b: Elem, a: Elem, k: int)
    requires Inv(w) && OwnData(w, b, a) && 0 <= k <= |ListOf(w, b)|
    ensures ConfinedAt(w, b, k)
  {
    OwnConfined(w, b, a);
    forall x, y | x in ListOf(w, b)[k..] && y in w.s.bucket && SharesData(w.s, x, y)
      ensures y == x
    {
      assert x in ListOf(w, b) + ListOf(w, a);
      OnlyItself(w.s, x, y);
    }
  }

  lemma HomeInList(w: World, b: Elem, i: nat)
    requires Inv(w) && b in w.heads && i < |ListOf(w, b)|
    ensures var e := ListOf(w, b)[i];
            InSome(w.L, e) && Home(w.L, e) == (b, i + 1) && e in w.s.bucket && e !in w.heads
  {
    BrigadeList(w, b);
    HomeIsUnique(w.m, w.L, ListOf(w, b)[i], b, i + 1);
    LiveNoHead(w, ListOf(w, b)[i]);
  }

  /** The brigade's list when one of its buckets has been split. */
  lemma SplitPlace(w: World, b: Elem, i: nat, p: nat, n: Elem)
    requires Inv(w) && b in w.heads && i < |ListOf(w, b)| && ListOf(w, b)[i] in w.s.bucket
    requires May(w, Split(ListOf(w, b)[i], p, n))
    requires BucketStore.SplitStatus(w.s.bucket[ListOf(w, b)[i]], p) == BucketStore.Success
    ensures ListOf(Step(w, Split(ListOf(w, b)[i], p, n)), b) == PutAfter(ListOf(w, b), i, n)
  {
    HomeInList(w, b, i);
    SplitList(w, ListOf(w, b)[i], p, n);
  }

  lemma PlaceInList(w: World, b: Elem, i: nat, n: Elem)
    requires Inv(w) && b in w.heads && i < |ListOf(w, b)| && ListOf(w, b)[i] == n
    ensures InSome(w.L, n) && Before(w, n) == i
  {
    PlaceOf(w, b, i);
  }

  lemma SplitConfinedAt(s: Store, s': Store, xs: seq<Elem>, i: nat, p: nat, n: Elem, x: Elem, y: Elem)
    requires BucketStore.Valid(s) && i < |xs| && xs[i] in s.bucket && n !in s.bucket && Distinct(xs)
    requires forall z | z in xs :: Unshared(s, z)
    requires BucketStore.SplitStatus(s.bucket[xs[i]], p) == BucketStore.Success
    requires s' == BucketStore.SplitAt(s, xs[i], p, n) && SharesData(s', x, y) && x in PutAfter(xs, i, n)[i + 1..]
    ensures y == x || y in PutAfter(xs, i, n)[..i + 1]
  {
    assert PutAfter(xs, i, n)[i + 1..] == [n] + xs[i + 1..];
    assert PutAfter(xs, i, n)[..i + 1][i] == xs[i];
    HalvesShare(s, xs[i], p, n, x, y);
  }

  /** After a partition, whether or not it split a bucket. */
  lemma PartitionShares(w: World, w': World, b: Elem, a: Elem, acts: seq<Act>, after: Elem)
    requires Inv(w) && Inv(w') && b in w.heads && a in w.heads && a != b && OwnData(w, b, a)
    requires MayRun(w, acts) && w' == Run(w, acts) && w'.heads == w.heads && OnList(w', b, after)
    requires acts == [] || SplitsOne(w, b, acts, after)
    ensures ConfinedAt(w', b, Before(w', after)) && ListOf(w', a) == ListOf(w, a)
  {
    if acts == [] {
      OwnConfinedAt(w, b, a, Before(w, after));
    } else {
      var i: nat :| i < |ListOf(w, b)| && ListOf(w, b)[i] == acts[0].e;
      assert acts == [Split(ListOf(w, b)[i], acts[0].point, after)];
      OneAct(w, Split(ListOf(w, b)[i], acts[0].point, after));
      SplitShares(w, w', b, a, i, acts[0].point, after);
    }
  }

  lemma SplitShares(w: World, w': World, b: Elem, a: Elem, i: nat, p: nat, n: Elem)
    requires Inv(w) && Inv(w') && b in w.heads && a in w.heads && a != b && OwnData(w, b, a)
    requires i < |ListOf(w, b)| && ListOf(w, b)[i] in w.s.bucket && May(w, Split(ListOf(w, b)[i], p, n))
    requires w' == Step(w, Split(ListOf(w, b)[i], p, n)) && w'.heads == w.heads && OnList(w', b, n)
    requires BucketStore.SplitStatus(w.s.bucket[ListOf(w, b)[i]], p) == BucketStore.Success
    ensures ConfinedAt(w', b, Before(w', n)) && ListOf(w', a) == ListOf(w, a)
  {
    SplitPlace(w, b, i, p, n);
    HomeInList(w, b, i);
    SplitListElsewhere(w, ListOf(w, b)[i], p, n, a);
    PlaceInList(w', b, i + 1, n);
    NewNowhere(w, n);
    OwnSplitAt(w, w', b, a, i, p, n);
  }

  lemma OwnSplitAt(w: World, w': World, b: Elem, a: Elem, i: nat, p: nat, n: Elem)
    requires Inv(w) && b in w.heads && OwnData(w, b, a) && i < |ListOf(w, b)| && ListOf(w, b)[i] in w.s.bucket
    requires n !in w.s.bucket && BucketStore.SplitStatus(w.s.bucket[ListOf(w, b)[i]], p) == BucketStore.Success
    requires w'.s == BucketStore.SplitAt(w.s, ListOf(w, b)[i], p, n) && ListOf(w', b) == PutAfter(ListOf(w, b), i, n)
    ensures ConfinedAt(w', b, i + 1)
  {
    BrigadeList(w, b);
    forall z | z in ListOf(w, b)
      ensures Unshared(w.s, z)
    {
      assert z in ListOf(w, b) + ListOf(w, a);
    }
    forall x, y | x in ListOf(w', b)[i + 1..] && y in w'.s.bucket && SharesData(w'.s, x, y)
      ensures y == x || y in ListOf(w', b)[..i + 1]
    {
      SplitConfinedAt(w.s, w'.s, ListOf(w, b), i, p, n, x, y);
    }
  }

  /** The second part shares its data with the first part only. */
  lemma PartsConfined(w: World, w': World, b: Elem, after: Elem, a: Elem)
    requires SplitBefore(w, w', b, after, a) && w'.s == w.s && ConfinedAt(w, b, Before(w, after))
    ensures Confined(w', a, b)
  {
  }
}
