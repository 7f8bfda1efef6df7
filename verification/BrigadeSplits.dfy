/** Brigades emptied, and parted in two at a bucket or at a byte. */
module BrigadeSplits {
  import opened RingElem
  import opened Sequences
  import opened LinkMemory
  import opened RingLists
  import Ring = RingRuns
  import BucketStore
  import opened BrigadeMeaning
  import opened BrigadeWorld
  import opened BrigadeStreams

  /** The brigade's list, and its buckets' own data, are what they were. */
  ghost predicate Kept(w: World, w': World, h: Elem) {
    && Ring.Head(w.L, h) && Ring.Head(w'.L, h)
    && Contents(w'.L, h) == Contents(w.L, h)
    && SameBuckets(w.s, w'.s, Contents(w.L, h))
  }

  /** The number of bytes of a list. */
  ghost function Bytes(s: Store, xs: seq<Elem>): nat {
    |MeaningOf(s, xs).bytes|
  }

  /** The buckets of a brigade. */
  ghost function ListOf(w: World, h: Elem): seq<Elem> {
    if Ring.Head(w.L, h) then Contents(w.L, h) else []
  }

  ghost function WholeOf(w: World, h: Elem): Meaning {
    MeaningOf(w.s, ListOf(w, h))
  }

  ghost predicate OthersKept(w: World, w': World, hs: set<Elem>) {
    forall h {:trigger Kept(w, w', h)} | h in w.heads && h !in hs :: Kept(w, w', h)
  }

  lemma KeptMeans(w: World, w': World, h: Elem)
    requires Kept(w, w', h)
    ensures Means(w', h) == Means(w, h)
  {
    MeaningFrame(w.s, w'.s, Contents(w.L, h));
  }

  lemma KeptTwice(w: World, w1: World, w2: World, hs: set<Elem>)
    requires OthersKept(w, w1, hs) && OthersKept(w1, w2, hs) && w1.heads == w.heads
    ensures OthersKept(w, w2, hs)
  {
    forall h | h in w.heads && h !in hs
      ensures Kept(w, w2, h)
    {
      assert Kept(w, w1, h) && Kept(w1, w2, h);
    }
  }

  // apr_brigade_cleanup

  function DeleteAll(xs: seq<Elem>): seq<Act> {
    if xs == [] then [] else [Delete(xs[0])] + DeleteAll(xs[1..])
  }

  lemma DeleteFirst(w: World, h: Elem)
    requires Inv(w) && h in w.heads && Ring.Head(w.L, h) && Contents(w.L, h) != []
    ensures var e := Contents(w.L, h)[0];
            && May(w, Delete(e)) && Inv(Step(w, Delete(e)))
            && Step(w, Delete(e)).heads == w.heads && Step(w, Delete(e)).m.next.Keys == w.m.next.Keys
            && Ring.Head(Step(w, Delete(e)).L, h) && Contents(Step(w, Delete(e)).L, h) == Contents(w.L, h)[1..]
            && OthersKept(w, Step(w, Delete(e)), {h})
  {
    var e := Contents(w.L, h)[0];
    BrigadeList(w, h);
    HeadFilled(w, h);
    HomeIsUnique(w.m, w.L, e, h, 1);
    NotAKey(w.m, w.L, h, 1);
    assert e !in w.heads by {
      if e in w.heads { HeadFilled(w, e); }
    }
    assert MayLink(w, Ring.Remove(e));
    StepInv(w, Delete(e));
    LinkInv(w, Ring.Remove(e));
    var w' := Step(w, Delete(e));
    assert w'.L == Cut(w.L, h, 1, 2);
    HeadFilled(w', h);
    forall k | k in w.heads && k !in {h}
      ensures Kept(w, w', k)
    {
      HeadFilled(w, k);
      HeadFilled(w', k);
      OnOneBrigade(w, k, e, h);
      DestroyedOthers(w.s, e, Contents(w.L, k));
    }
  }

  lemma DestroyedOthers(s: Store, e: Elem, xs: seq<Elem>)
    requires BucketStore.Valid(s) && e in s.bucket && e !in xs
    ensures SameBuckets(s, BucketStore.Destroyed(s, e), xs)
  {
    forall i | 0 <= i < |xs|
      ensures Part(BucketStore.Destroyed(s, e), xs[i]) == Part(s, xs[i])
    {
      DestroySegments(s, e, xs[i]);
    }
  }

  /** Deleting every bucket of a brigade, first to last: it is left empty, and no other brigade's list
      or data changes. */
  lemma {:induction false} CleanupEmpties(w: World, h: Elem)
    requires Inv(w) && h in w.heads
    ensures var w' := Run(w, DeleteAll(ListOf(w, h)));
            && MayRun(w, DeleteAll(ListOf(w, h))) && Inv(w') && w'.heads == w.heads
            && Ring.Head(w'.L, h) && Contents(w'.L, h) == []
            && OthersKept(w, w', {h})
    decreases |ListOf(w, h)|
  {
    HeadFilled(w, h);
    var xs := Contents(w.L, h);
    if xs == [] {
      forall k | k in w.heads && k !in {h}
        ensures Kept(w, w, k)
      {
        HeadFilled(w, k);
      }
    } else {
      DeleteFirst(w, h);
      var w1 := Step(w, Delete(xs[0]));
      CleanupEmpties(w1, h);
      KeptTwice(w, w1, Run(w, DeleteAll(xs)), {h});
    }
  }

  // apr_brigade_split_ex

  /** The buckets from `e` to `f` taken off, and put in front of another brigade. */
  function SplitOff(e: Elem, f: Elem, a: Elem): seq<Act> {
    [Link(Ring.Unsplice(e, f)), Link(Ring.SpliceHead(a, e, f))]
  }

  /** The tail of a brigade's list is a segment that may be taken off. */
  lemma TailSegment(w: World, b: Elem, i: int)
    requires Inv(w) && b in w.heads && Ring.Head(w.L, b) && 1 <= i < |w.L[b].nodes|
    ensures var e, f := w.L[b].nodes[i], Last(w.L[b].nodes);
            && MayLink(w, Ring.Unsplice(e, f)) && Ring.CutOut(w.L, e, f) == Cut(w.L, b, i, |w.L[b].nodes|)
            && e !in w.L && e !in w.heads
  {
    var nodes := w.L[b].nodes;
    var n := |nodes|;
    HomeIsUnique(w.m, w.L, nodes[i], b, i);
    HomeIsUnique(w.m, w.L, nodes[n - 1], b, n - 1);
    NotAKey(w.m, w.L, b, i);
    if nodes[i] in w.heads {
      HeadFilled(w, nodes[i]);
    }
  }

  lemma TailCut(w: World, b: Elem, i: int)
    requires Inv(w) && b in w.heads && Ring.Head(w.L, b) && 1 <= i < |w.L[b].nodes|
    ensures var e, f := w.L[b].nodes[i], Last(w.L[b].nodes);
            var w1 := Step(w, Link(Ring.Unsplice(e, f)));
            && May(w, Link(Ring.Unsplice(e, f))) && Inv(w1)
            && w1.s == w.s && w1.heads == w.heads && w1.m.next.Keys == w.m.next.Keys
            && w1.L == Cut(w.L, b, i, |w.L[b].nodes|)
  {
    var e, f := w.L[b].nodes[i], Last(w.L[b].nodes);
    TailSegment(w, b, i);
    LinkFilled(w, Ring.Unsplice(e, f));
    LinkStep(w, Ring.Unsplice(e, f));
  }

  lemma CutLists(L: Blocks, b: Elem, i: int)
    requires b in L && 1 <= i < |L[b].nodes| && L[b].nodes[i] !in L
    ensures var nodes, L1 := L[b].nodes, Cut(L, b, i, |L[b].nodes|);
            && L1[b] == Block(true, nodes[..i]) && L1[nodes[i]] == Block(false, nodes[i..])
            && nodes[i] in L1 && b in L1
            && forall k | k in L && k != b :: k in L1 && L1[k] == L[k]
  {
    var nodes := L[b].nodes;
    assert nodes[..i] + nodes[|nodes|..] == nodes[..i] && nodes[i..|nodes|] == nodes[i..];
  }

  lemma TailJoined(w1: World, a: Elem, e: Elem, f: Elem)
    requires Inv(w1) && a in w1.heads && e in w1.L && !w1.L[e].ring && w1.L[e].nodes != [] && Last(w1.L[e].nodes) == f
    requires Spare(w1, e)
    ensures May(w1, Link(Ring.SpliceHead(a, e, f))) && Ring.Head(w1.L, a) && a != e
    ensures var w' := Step(w1, Link(Ring.SpliceHead(a, e, f)));
            && Inv(w') && w'.s == w1.s && w'.heads == w1.heads && w'.m.next.Keys == w1.m.next.Keys
            && w'.L == Insert(w1.L, a, 1, e)
  {
    HeadFilled(w1, a);
    LinkFilled(w1, Ring.SpliceHead(a, e, f));
    LinkStep(w1, Ring.SpliceHead(a, e, f));
  }

  lemma JoinedLists(L: Blocks, b: Elem, i: int, a: Elem)
    requires b in L && 1 <= i < |L[b].nodes| && L[b].nodes[i] !in L && a != b && Ring.Head(L, a) && L[a].nodes[0] == a
    ensures var L' := Insert(Cut(L, b, i, |L[b].nodes|), a, 1, L[b].nodes[i]);
            && b in L' && L'[b] == Block(true, L[b].nodes[..i])
            && a in L' && L'[a] == Block(true, [a] + L[b].nodes[i..] + L[a].nodes[1..])
  {
    CutLists(L, b, i);
    assert L[a].nodes[..1] == [a];
  }

  lemma TailMoved(w: World, b: Elem, i: int, a: Elem)
    requires Inv(w) && b in w.heads && a in w.heads && a != b && Ring.Head(w.L, b) && 1 <= i < |w.L[b].nodes|
    requires Ring.Head(w.L, a)
    ensures var acts := SplitOff(w.L[b].nodes[i], Last(w.L[b].nodes), a);
            var w' := Run(w, acts);
            && MayRun(w, acts) && Inv(w') && w'.s == w.s && w'.heads == w.heads
            && b in w'.L && w'.L[b] == Block(true, w.L[b].nodes[..i])
            && a in w'.L && w'.L[a] == Block(true, [a] + w.L[b].nodes[i..] + Contents(w.L, a))
            && OthersKept(w, w', {a, b})
  {
    var e, f := w.L[b].nodes[i], Last(w.L[b].nodes);
    var acts := SplitOff(e, f, a);
    TailSegment(w, b, i);
    TailCut(w, b, i);
    TailSpare(w, b, i);
    TailJoined(Step(w, acts[0]), a, e, f);
    TwoActs(w, acts[0], acts[1]);
    assert BlockOk(w.m, a, w.L[a]);
    JoinedLists(w.L, b, i, a);
    OthersMoved(w, Run(w, acts), b, i, a);
  }

  lemma TailSpare(w: World, b: Elem, i: int)
    requires Inv(w) && b in w.heads && Ring.Head(w.L, b) && 1 <= i < |w.L[b].nodes|
    ensures var e, f := w.L[b].nodes[i], Last(w.L[b].nodes);
            var w1 := Step(w, Link(Ring.Unsplice(e, f)));
            && e in w1.L && w1.L[e] == Block(false, w.L[b].nodes[i..]) && Spare(w1, e)
            && Last(w1.L[e].nodes) == f
  {
    TailSegment(w, b, i);
    TailCut(w, b, i);
    HeadFilled(w, b);
    CutSpare(w, Step(w, Link(Ring.Unsplice(w.L[b].nodes[i], Last(w.L[b].nodes)))), b, i);
  }

  lemma CutSpare(w: World, w1: World, b: Elem, i: int)
    requires b in w.L && 1 <= i < |w.L[b].nodes| && w.L[b].nodes[i] !in w.L && w1.s == w.s
    requires w1.L == Cut(w.L, b, i, |w.L[b].nodes|)
    requires forall j | 1 <= j < |w.L[b].nodes| :: w.L[b].nodes[j] in w.s.bucket
    ensures var e := w.L[b].nodes[i];
            && e in w1.L && w1.L[e] == Block(false, w.L[b].nodes[i..]) && Spare(w1, e)
            && Last(w1.L[e].nodes) == Last(w.L[b].nodes)
  {
    CutLists(w.L, b, i);
  }

  lemma OthersMoved(w: World, w': World, b: Elem, i: int, a: Elem)
    requires Inv(w) && b in w.heads && a in w.heads && a != b && Ring.Head(w.L, b) && 1 <= i < |w.L[b].nodes|
    requires w.L[b].nodes[i] !in w.L && w'.s == w.s && Ring.Head(w.L, a)
    requires w'.L == Insert(Cut(w.L, b, i, |w.L[b].nodes|), a, 1, w.L[b].nodes[i])
    ensures OthersKept(w, w', {a, b})
  {
    CutLists(w.L, b, i);
    forall k | k in w.heads && k !in {a, b}
      ensures Kept(w, w', k)
    {
      HeadFilled(w, k);
    }
  }

  lemma RunCons(w: World, act: Act, rest: seq<Act>)
    ensures Run(w, [act] + rest) == Run(Step(w, act), rest)
    ensures MayRun(w, [act] + rest) <==> May(w, act) && MayRun(Step(w, act), rest)
  {
    assert ([act] + rest)[1..] == rest;
  }

  lemma OneAct(w: World, act: Act)
    requires May(w, act)
    ensures MayRun(w, [act]) && Run(w, [act]) == Step(w, act)
  {
    RunCons(w, act, []);
    assert [act] + [] == [act];
  }

  lemma TwoActs(w: World, first: Act, second: Act)
    requires May(w, first) && May(Step(w, first), second)
    ensures MayRun(w, [first, second]) && Run(w, [first, second]) == Step(Step(w, first), second)
  {
    RunCons(w, first, [second]);
    OneAct(Step(w, first), second);
    assert [first] + [second] == [first, second];
  }

  lemma {:induction false} RunAppend(w: World, x: seq<Act>, y: seq<Act>)
    requires MayRun(w, x) && MayRun(Run(w, x), y)
    ensures MayRun(w, x + y) && Run(w, x + y) == Run(Run(w, x), y)
    decreases |x|
  {
    if x == [] {
      assert x + y == y;
    } else {
      assert (x + y)[0] == x[0] && (x + y)[1..] == x[1..] + y;
      RunAppend(Step(w, x[0]), x[1..], y);
    }
  }

  /** `e` is a bucket on the list of `b`, or its sentinel. */
  ghost predicate OnList(w: World, b: Elem, e: Elem) {
    Ring.Head(w.L, b) && InSome(w.L, e) && Home(w.L, e).0 == b && 0 <= Home(w.L, e).1 < |w.L[b].nodes|
  }

  /** The brigade parted before `e`, nothing left behind when that is its sentinel: `b` keeps what
      comes before `e`, `a` gets the rest and nothing else, and no other brigade changes. */
  ghost predicate SplitBefore(w: World, w': World, b: Elem, e: Elem, a: Elem) {
    && OnList(w, b, e) && 0 <= Before(w, e) <= |Contents(w.L, b)|
    && w'.heads == w.heads + {a} && Ring.Head(w'.L, b) && Ring.Head(w'.L, a)
    && Contents(w'.L, b) == Contents(w.L, b)[..Before(w, e)] && Contents(w'.L, a) == Contents(w.L, b)[Before(w, e)..]
    && Means(w', b) == MeaningOf(w.s, Contents(w.L, b)[..Before(w, e)])
    && Means(w', a) == MeaningOf(w.s, Contents(w.L, b)[Before(w, e)..])
    && OthersKept(w, w', {a, b})
  }

  /** The second brigade is there and empty. */
  ghost predicate Emptied(w: World, w1: World, b: Elem, a: Elem) {
    && Inv(w1) && b in w.heads && a != b && w1.heads == w.heads + {a}
    && Ring.Head(w1.L, a) && Contents(w1.L, a) == []
    && OthersKept(w, w1, {a})
  }

  lemma NewEmptied(w: World, b: Elem, a: Elem)
    requires Inv(w) && b in w.heads && May(w, NewBrigade(a))
    ensures Emptied(w, Step(w, NewBrigade(a)), b, a)
    ensures MayRun(w, [NewBrigade(a)]) && Run(w, [NewBrigade(a)]) == Step(w, NewBrigade(a))
  {
    var w1 := Step(w, NewBrigade(a));
    StepInv(w, NewBrigade(a));
    AddedFilled(w, a, true);
    HeadFilled(w1, a);
    OneAct(w, NewBrigade(a));
    forall h | h in w.heads && h !in {a}
      ensures Kept(w, w1, h)
    {
      HeadFilled(w, h);
    }
  }

  lemma CleanedEmptied(w: World, b: Elem, a: Elem)
    requires Inv(w) && b in w.heads && a in w.heads && a != b
    ensures MayRun(w, DeleteAll(ListOf(w, a))) && Emptied(w, Run(w, DeleteAll(ListOf(w, a))), b, a)
  {
    CleanupEmpties(w, a);
    assert w.heads + {a} == w.heads;
  }

  /** The list of `b` node by node, before and after the second brigade was emptied. */
  lemma EmptiedList(w: World, w1: World, b: Elem, e: Elem, a: Elem)
    requires Inv(w) && Emptied(w, w1, b, a) && OnList(w, b, e)
    ensures Kept(w, w1, b) && w1.L[b].nodes == w.L[b].nodes && w.L[b].nodes[Home(w.L, e).1] == e
    ensures e == b <==> Home(w.L, e).1 == 0
    ensures SameBuckets(w.s, w1.s, Contents(w.L, b))
  {
    assert Kept(w, w1, b);
    assert BlockOk(w.m, b, w.L[b]) && BlockOk(w1.m, b, w1.L[b]);
    assert w.L[b].nodes == [b] + Contents(w.L, b) && w1.L[b].nodes == [b] + Contents(w1.L, b);
  }

  lemma SplitAtSentinel(w: World, w1: World, b: Elem, a: Elem)
    requires Inv(w) && Emptied(w, w1, b, a) && OnList(w, b, b)
    ensures SplitBefore(w, w1, b, b, a)
  {
    EmptiedList(w, w1, b, b, a);
    var xs := Contents(w.L, b);
    assert xs[..|xs|] == xs && xs[|xs|..] == [];
    KeptMeans(w, w1, b);
    forall h | h in w.heads && h !in {a, b}
      ensures Kept(w, w1, h)
    {
    }
  }

  lemma SplitAtBucket(w: World, w1: World, b: Elem, e: Elem, a: Elem)
    requires Inv(w) && Emptied(w, w1, b, a) && OnList(w, b, e) && e != b
    ensures Ring.Head(w1.L, b) && MayRun(w1, SplitOff(e, Last(w1.L[b].nodes), a))
    ensures SplitBefore(w, Run(w1, SplitOff(e, Last(w1.L[b].nodes), a)), b, e, a)
  {
    EmptiedList(w, w1, b, e, a);
    var nodes, i := w.L[b].nodes, Home(w.L, e).1;
    TailMoved(w1, b, i, a);
    assert nodes[i..] + [] == nodes[i..];
    SplitDone(w, w1, Run(w1, SplitOff(e, Last(nodes), a)), b, e, a);
  }

  lemma SplitDone(w: World, w1: World, w': World, b: Elem, e: Elem, a: Elem)
    requires Inv(w) && Emptied(w, w1, b, a) && OnList(w, b, e) && 1 <= Home(w.L, e).1
    requires w'.s == w1.s && w'.heads == w1.heads && OthersKept(w1, w', {a, b})
    requires b in w'.L && w'.L[b] == Block(true, w.L[b].nodes[..Home(w.L, e).1])
    requires a in w'.L && w'.L[a] == Block(true, [a] + w.L[b].nodes[Home(w.L, e).1..])
    ensures SplitBefore(w, w', b, e, a)
  {
    var k, xs := Home(w.L, e).1 - 1, Contents(w.L, b);
    EmptiedList(w, w1, b, e, a);
    TwoLists(w.L[b].nodes, k + 1, a);
    PartMeans(w, w1, xs, k);
    PartsMean(w', b, xs[..k]);
    PartsMean(w', a, xs[k..]);
    KeptOthers(w, w1, w', a, b);
  }

  lemma TwoLists(nodes: seq<Elem>, i: int, a: Elem)
    requires 1 <= i < |nodes|
    ensures nodes[..i] != [] && nodes[..i][1..] == nodes[1..][..i - 1]
    ensures ([a] + nodes[i..])[1..] == nodes[1..][i - 1..]
  {
  }

  lemma PartsMean(w: World, h: Elem, xs: seq<Elem>)
    requires Ring.Head(w.L, h) && Contents(w.L, h) == xs
    ensures Means(w, h) == MeaningOf(w.s, xs)
  {
  }

  lemma PartMeans(w: World, w1: World, xs: seq<Elem>, k: int)
    requires 0 <= k <= |xs| && SameBuckets(w.s, w1.s, xs)
    ensures MeaningOf(w1.s, xs[..k]) == MeaningOf(w.s, xs[..k]) && MeaningOf(w1.s, xs[k..]) == MeaningOf(w.s, xs[k..])
  {
    MeaningFrame(w.s, w1.s, xs[..k]);
    MeaningFrame(w.s, w1.s, xs[k..]);
  }

  lemma KeptOthers(w: World, w1: World, w2: World, a: Elem, b: Elem)
    requires OthersKept(w, w1, {a}) && OthersKept(w1, w2, {a, b}) && w.heads <= w1.heads
    ensures OthersKept(w, w2, {a, b})
  {
    forall h | h in w.heads && h !in {a, b}
      ensures Kept(w, w2, h)
    {
      assert Kept(w, w1, h) && Kept(w1, w2, h);
    }
  }

  // apr_brigade_partition

  /** The brigade's meaning in two parts at `after`: the first `point` bytes, with the metadata that
      stands before them all told, and the rest. */
  ghost predicate Parted(w: World, b: Elem, after: Elem, whole: Meaning, point: nat) {
    OnList(w, b, after) && PartedAt(w.s, Contents(w.L, b), Before(w, after), whole, point)
  }

  ghost predicate PartedAt(s: Store, xs: seq<Elem>, k: int, whole: Meaning, point: nat) {
    && 0 <= k <= |xs| && point <= |whole.bytes|
    && Followed(MeaningOf(s, xs[..k]), MeaningOf(s, xs[k..])) == whole
    && MeaningOf(s, xs[..k]).bytes == whole.bytes[..point] && MeaningOf(s, xs[k..]).bytes == whole.bytes[point..]
    && AllBefore(MeaningOf(s, xs[..k]).marks, point)
  }

  /** Every mark stands before the byte at `point`. */
  ghost predicate AllBefore(marks: seq<Mark>, point: nat) {
    forall i | 0 <= i < |marks| :: marks[i].at < point
  }

  ghost predicate MarksInside(m: Meaning) {
    forall i | 0 <= i < |m.marks| :: m.marks[i].at <= |m.bytes|
  }

  lemma {:induction false} MarksWithin(parts: seq<Meaning>)
    requires forall i | 0 <= i < |parts| :: MarksInside(parts[i])
    ensures MarksInside(AllFollowed(parts))
    decreases |parts|
  {
    if parts != [] {
      MarksWithin(parts[1..]);
      InsideFollowed(parts[0], AllFollowed(parts[1..]));
    }
  }

  lemma InsideFollowed(a: Meaning, b: Meaning)
    requires MarksInside(a) && MarksInside(b)
    ensures MarksInside(Followed(a, b))
  {
  }

  lemma PartInside(s: Store, e: Elem)
    ensures MarksInside(Part(s, e))
  {
  }

  /** A list whose last bucket is data: its metadata stand before its end. */
  lemma MarksBeforeData(s: Store, xs: seq<Elem>, e: Elem)
    requires !IsMetadata(s, e) && BucketStore.Segment(s, e) != []
    ensures MeaningOf(s, xs + [e]).bytes == MeaningOf(s, xs).bytes + BucketStore.Segment(s, e)
    ensures AllBefore(MeaningOf(s, xs + [e]).marks, |MeaningOf(s, xs + [e]).bytes|)
  {
    MeaningConcat(s, xs, [e]);
    MeaningOne(s, e);
    forall i | 0 <= i < |xs|
      ensures MarksInside(Parts(s, xs)[i])
    {
      PartInside(s, xs[i]);
    }
    MarksWithin(Parts(s, xs));
    DataAfter(MeaningOf(s, xs), BucketStore.Segment(s, e));
  }

  lemma DataAfter(m: Meaning, bytes: seq<BucketStore.Byte>)
    requires MarksInside(m) && bytes != []
    ensures AllBefore(Followed(m, Meaning(bytes, [])).marks, |m.bytes| + |bytes|)
  {
  }

  lemma PartedByLength(s: Store, xs: seq<Elem>, k: int, whole: Meaning, point: nat)
    requires 0 <= k <= |xs| && MeaningOf(s, xs) == whole && |MeaningOf(s, xs[..k]).bytes| == point
    requires AllBefore(MeaningOf(s, xs[..k]).marks, point)
    ensures PartedAt(s, xs, k, whole, point)
  {
    MeaningConcat(s, xs[..k], xs[k..]);
    assert xs == xs[..k] + xs[k..];
    assert whole.bytes == MeaningOf(s, xs[..k]).bytes + MeaningOf(s, xs[k..]).bytes;
  }

  /** The place of the `k`th bucket of a brigade, or of its sentinel after the last. */
  lemma PlaceOf(w: World, b: Elem, k: int)
    requires Inv(w) && b in w.heads && 0 <= k <= |ListOf(w, b)|
    ensures Ring.Head(w.L, b) && OnList(w, b, Path(w.L[b])[k + 1]) && Before(w, Path(w.L[b])[k + 1]) == k
    ensures k < |ListOf(w, b)| ==> Path(w.L[b])[k + 1] == ListOf(w, b)[k]
  {
    HeadFilled(w, b);
    var nodes := w.L[b].nodes;
    assert BlockOk(w.m, b, w.L[b]);
    HomeIsUnique(w.m, w.L, Path(w.L[b])[k + 1], b, if k + 1 < |nodes| then k + 1 else 0);
  }

  /** Nothing to split: the byte at `point` starts a bucket, or comes after all of them. */
  lemma PartedBetween(w: World, b: Elem, k: nat)
    requires Inv(w) && b in w.heads && k <= |ListOf(w, b)|
    requires k > 0 ==> !IsMetadata(w.s, ListOf(w, b)[k - 1]) && BucketStore.Segment(w.s, ListOf(w, b)[k - 1]) != []
    ensures Ring.Head(w.L, b)
    ensures var after := Path(w.L[b])[k + 1];
            Parted(w, b, after, Means(w, b), Bytes(w.s, ListOf(w, b)[..k]))
  {
    PlaceOf(w, b, k);
    DataBefore(w.s, ListOf(w, b), k);
    PartedByLength(w.s, ListOf(w, b), k, Means(w, b), Bytes(w.s, ListOf(w, b)[..k]));
  }

  /** No byte before the point: it is at the first bucket. */
  lemma PartedAtFirst(w: World, b: Elem)
    requires Inv(w) && b in w.heads
    ensures b in w.m.next && Parted(w, b, w.m.next[b], WholeOf(w, b), 0)
  {
    StandsFirst(w, b);
    PartedBetween(w, b, 0);
  }

  lemma DataBefore(s: Store, xs: seq<Elem>, k: nat)
    requires k <= |xs|
    requires k > 0 ==> !IsMetadata(s, xs[k - 1]) && BucketStore.Segment(s, xs[k - 1]) != []
    ensures AllBefore(MeaningOf(s, xs[..k]).marks, Bytes(s, xs[..k]))
  {
    if k > 0 {
      assert xs[..k] == xs[..k - 1] + [xs[k - 1]];
      MarksBeforeData(s, xs[..k - 1], xs[k - 1]);
    }
  }

  /** The brigade's list when its `k`th bucket has been split. */
  lemma SplitAtPlace(w: World, b: Elem, k: nat, p: nat, n: Elem)
    requires Inv(w) && b in w.heads && k < |ListOf(w, b)| && n !in w.m.next
    requires ListOf(w, b)[k] in w.s.bucket && 0 < p < BucketStore.Length(w.s.bucket[ListOf(w, b)[k]])
    ensures May(w, Split(ListOf(w, b)[k], p, n))
    ensures Ring.Head(Step(w, Split(ListOf(w, b)[k], p, n)).L, b)
    ensures ListOf(Step(w, Split(ListOf(w, b)[k], p, n)), b) == PutAfter(ListOf(w, b), k, n)
  {
    HeadFilled(w, b);
    var e := Contents(w.L, b)[k];
    BrigadeList(w, b);
    HomeIsUnique(w.m, w.L, e, b, k + 1);
    LiveNoHead(w, e);
    assert May(w, Split(e, p, n));
    SplitList(w, e, p, n);
  }

  /** The rest of what a split comes to. */
  lemma SplitFacts(w: World, e: Elem, p: nat, n: Elem, b: Elem)
    requires Inv(w) && May(w, Split(e, p, n)) && b in w.heads && 0 < p < BucketStore.Length(w.s.bucket[e])
    ensures var w' := Step(w, Split(e, p, n));
            && Inv(w') && w'.heads == w.heads && w'.s == BucketStore.SplitAt(w.s, e, p, n)
            && MeaningOf(w'.s, ListOf(w', b)) == MeaningOf(w.s, ListOf(w, b))
  {
    StepInv(w, Split(e, p, n));
    SplitStep(w, e, p, n);
    SplitMeans(w, e, p, n, b);
  }

  lemma PutAfterFront(xs: seq<Elem>, k: nat, n: Elem)
    requires k < |xs|
    ensures PutAfter(xs, k, n)[..k + 1] == xs[..k] + [xs[k]]
  {
  }

  lemma PartedBy(w: World, b: Elem, after: Elem, xs: seq<Elem>, k: int, whole: Meaning, point: nat)
    requires Ring.Head(w.L, b) && OnList(w, b, after) && Before(w, after) == k && ListOf(w, b) == xs
    requires PartedAt(w.s, xs, k, whole, point)
    ensures Parted(w, b, after, whole, point)
  {
  }

  /** A bucket split where the point falls. */
  lemma PartedBySplit(w: World, b: Elem, k: nat, p: nat, n: Elem, point: nat)
    requires Inv(w) && b in w.heads && k < |ListOf(w, b)| && n !in w.m.next
    requires ListOf(w, b)[k] in w.s.bucket && 0 < p < BucketStore.Length(w.s.bucket[ListOf(w, b)[k]])
    requires point == Bytes(w.s, ListOf(w, b)[..k]) + p
    ensures var w' := Step(w, Split(ListOf(w, b)[k], p, n));
            && May(w, Split(ListOf(w, b)[k], p, n)) && Inv(w') && b in w'.heads
            && ListOf(w', b) == PutAfter(ListOf(w, b), k, n)
            && Parted(w', b, n, WholeOf(w, b), point)
  {
    var xs := ListOf(w, b);
    var w' := Step(w, Split(xs[k], p, n));
    var xs' := PutAfter(xs, k, n);
    SplitAtPlace(w, b, k, p, n);
    SplitFacts(w, xs[k], p, n, b);
    PlaceOf(w', b, k + 1);
    ListDistinct(w, b, k, n);
    FirstHalf(w.s, xs[..k], xs[k], p, n);
    PutAfterFront(xs, k, n);
    PartedByLength(w'.s, xs', k + 1, WholeOf(w, b), point);
    PartedBy(w', b, n, xs', k + 1, WholeOf(w, b), point);
  }

  lemma ListDistinct(w: World, b: Elem, k: nat, n: Elem)
    requires Inv(w) && b in w.heads && k < |ListOf(w, b)| && n !in w.m.next
    ensures ListOf(w, b)[k] !in ListOf(w, b)[..k] && n !in ListOf(w, b)[..k] && n !in w.s.bucket
  {
    BrigadeList(w, b);
  }

  /** The buckets before the split one, and its first half. */
  lemma FirstHalf(s: Store, xs: seq<Elem>, e: Elem, p: nat, n: Elem)
    requires BucketStore.Valid(s) && e in s.bucket && n !in s.bucket && e !in xs && n !in xs
    requires 0 < p < BucketStore.Length(s.bucket[e])
    ensures var s' := BucketStore.SplitAt(s, e, p, n);
            && Bytes(s', xs + [e]) == Bytes(s, xs) + p
            && AllBefore(MeaningOf(s', xs + [e]).marks, Bytes(s, xs) + p)
  {
    var s' := BucketStore.SplitAt(s, e, p, n);
    SplitHalves(s, e, p, n);
    SplitSame(s, xs, e, p, n);
    MarksBeforeData(s', xs, e);
  }

  // What the loop over the buckets looks at.

  /** No brigade's meaning has changed. */
  ghost predicate SameMeanings(w: World, w': World) {
    && w'.heads == w.heads
    && forall h {:trigger WholeOf(w', h)} | h in w.heads :: WholeOf(w', h) == WholeOf(w, h)
  }

  /** A loop over the brigade stands at its `i`th bucket, or at its sentinel after the last. */
  ghost predicate Stands(w: World, b: Elem, e: Elem, i: int) {
    Ring.Head(w.L, b) && 0 <= i <= |Contents(w.L, b)| && e == Path(w.L[b])[i + 1]
  }

  /** It is `left` bytes before the point. */
  ghost predicate Reached(w: World, b: Elem, e: Elem, i: int, left: int, point: nat) {
    Stands(w, b, e, i) && left > 0 && Bytes(w.s, Contents(w.L, b)[..i]) + left == point
  }

  lemma StandsFirst(w: World, b: Elem)
    requires Inv(w) && b in w.heads
    ensures b in w.m.next && Stands(w, b, w.m.next[b], 0) && Contents(w.L, b)[..0] == []
  {
    HeadFilled(w, b);
    PathAt(w.m, w.L, b, 0);
  }

  /** The current bucket, and what comes after it. */
  lemma StandsAt(w: World, b: Elem, e: Elem, i: int)
    requires Inv(w) && b in w.heads && Stands(w, b, e, i) && e != b
    ensures i < |Contents(w.L, b)| && e == Contents(w.L, b)[i] && e in w.s.bucket && OnBrigade(w, e)
    ensures e in w.m.next && Stands(w, b, w.m.next[e], i + 1)
    ensures |BucketStore.Segment(w.s, e)| == BucketStore.Length(w.s.bucket[e])
    ensures MeaningOf(w.s, Contents(w.L, b)[..i + 1]).bytes
            == MeaningOf(w.s, Contents(w.L, b)[..i]).bytes + BucketStore.Segment(w.s, e)
    ensures BucketStore.Length(w.s.bucket[e]) > 0 ==> !IsMetadata(w.s, e)
  {
    var xs := Contents(w.L, b);
    BrigadeList(w, b);
    HeadFilled(w, b);
    assert BlockOk(w.m, b, w.L[b]);
    assert i < |xs|;
    PathAt(w.m, w.L, b, i + 1);
    HomeIsUnique(w.m, w.L, e, b, i + 1);
    assert BucketStore.BucketOk(w.s, w.s.bucket[e]);
    assert xs[..i + 1] == xs[..i] + [e];
    MeaningConcat(w.s, xs[..i], [e]);
    MeaningOne(w.s, e);
  }

  /** All buckets passed. */
  lemma StandsLast(w: World, b: Elem, i: int)
    requires Inv(w) && b in w.heads && Stands(w, b, b, i)
    ensures i == |Contents(w.L, b)| && Contents(w.L, b)[..i] == Contents(w.L, b)
  {
    BrigadeList(w, b);
    HeadFilled(w, b);
    assert BlockOk(w.m, b, w.L[b]);
  }

  /** The bytes of the first `i` buckets. */
  ghost function Front(w: World, b: Elem, i: int): seq<BucketStore.Byte> {
    if 0 <= i <= |ListOf(w, b)| then MeaningOf(w.s, ListOf(w, b)[..i]).bytes else []
  }

  /** With those of the current bucket it is a longer beginning of the stream. */
  lemma FrontMore(w: World, b: Elem, e: Elem, i: int, front: seq<BucketStore.Byte>, n: nat, k: nat)
    requires Inv(w) && b in w.heads && Stands(w, b, e, i) && e != b && n <= |BucketStore.Segment(w.s, e)|
    requires front == Front(w, b, i) && k == |front| + n
    ensures k <= |WholeOf(w, b).bytes| && front + BucketStore.Segment(w.s, e)[..n] == WholeOf(w, b).bytes[..k]
    ensures n == |BucketStore.Segment(w.s, e)| ==>
              front + BucketStore.Segment(w.s, e)[..n] == Front(w, b, i + 1)
  {
    StandsAt(w, b, e, i);
    var xs := ListOf(w, b);
    MeaningConcat(w.s, xs[..i + 1], xs[i + 1..]);
    assert xs == xs[..i + 1] + xs[i + 1..];
    FrontPart(front, BucketStore.Segment(w.s, e), MeaningOf(w.s, xs[i + 1..]).bytes, n);
  }

  lemma FrontPart<T>(a: seq<T>, b: seq<T>, c: seq<T>, n: nat)
    requires n <= |b|
    ensures a + b[..n] == (a + b + c)[..|a| + n]
  {
  }

  lemma WholeFront(w: World, b: Elem, i: int)
    requires Inv(w) && b in w.heads && Stands(w, b, b, i)
    ensures |Front(w, b, i)| == |WholeOf(w, b).bytes|
    ensures Front(w, b, i) == WholeOf(w, b).bytes[..|WholeOf(w, b).bytes|]
  {
    StandsLast(w, b, i);
    assert Front(w, b, i) == WholeOf(w, b).bytes;
  }

  /** All buckets passed: there are not so many bytes. */
  lemma ReachedEnd(w: World, b: Elem, i: int, left: int, point: nat)
    requires Inv(w) && b in w.heads && Reached(w, b, b, i, left, point)
    ensures |WholeOf(w, b).bytes| < point
  {
    StandsLast(w, b, i);
  }

  /** The point falls within the current bucket. */
  lemma ReachedInside(w: World, b: Elem, e: Elem, i: int, left: int, point: nat, n: Elem)
    requires Inv(w) && b in w.heads && Reached(w, b, e, i, left, point) && e != b && n !in w.m.next
    requires e in w.s.bucket && left < BucketStore.Length(w.s.bucket[e])
    ensures i < |ListOf(w, b)| && e == ListOf(w, b)[i]
    ensures var w' := Step(w, Split(e, left, n));
            && May(w, Split(e, left, n)) && Inv(w')
            && Parted(w', b, n, WholeOf(w, b), point)
            && ListOf(w', b) == PutAfter(ListOf(w, b), i, n)
  {
    StandsAt(w, b, e, i);
    PartedBySplit(w, b, i, left, n, point);
  }

  /** Where the split bucket leads, and that no meaning has changed. */
  lemma SplitInside(w: World, w': World, b: Elem, e: Elem, i: int, left: nat, n: Elem)
    requires Inv(w) && Inv(w') && b in w.heads && May(w, Split(e, left, n)) && w' == Step(w, Split(e, left, n))
    requires 0 <= i < |ListOf(w, b)| && e == ListOf(w, b)[i] && ListOf(w', b) == PutAfter(ListOf(w, b), i, n)
    ensures SameMeanings(w, w') && e in w'.m.next && w'.m.next[e] == n
    ensures MayRun(w, [Split(e, left, n)]) && Run(w, [Split(e, left, n)]) == w'
  {
    SplitUnseen(w, e, left, n);
    NextBucket(w', b, i);
    OneAct(w, Split(e, left, n));
  }

  /** A single split, of a bucket of `b`, with `after` the new bucket. */
  ghost predicate SplitsOne(w: World, b: Elem, acts: seq<Act>, after: Elem) {
    && |acts| == 1 && acts[0].Split? && acts[0].new_ == after
    && acts[0].e in ListOf(w, b) && acts[0].e in w.s.bucket
    && BucketStore.SplitStatus(w.s.bucket[acts[0].e], acts[0].point) == BucketStore.Success
  }

  lemma PointWithin(w: World, b: Elem, after: Elem, whole: Meaning, point: nat)
    requires Parted(w, b, after, whole, point)
    ensures point <= |whole.bytes|
  {
  }

  lemma NextBucket(w: World, b: Elem, k: nat)
    requires Inv(w) && b in w.heads && k + 1 < |ListOf(w, b)|
    ensures ListOf(w, b)[k] in w.m.next && w.m.next[ListOf(w, b)[k]] == ListOf(w, b)[k + 1]
  {
    HeadFilled(w, b);
    PathAt(w.m, w.L, b, k + 1);
  }

  lemma SplitUnseen(w: World, e: Elem, point: nat, n: Elem)
    requires Inv(w) && May(w, Split(e, point, n))
    ensures SameMeanings(w, Step(w, Split(e, point, n)))
  {
    forall h | h in w.heads
      ensures WholeOf(Step(w, Split(e, point, n)), h) == WholeOf(w, h)
    {
      SplitMeans(w, e, point, n, h);
    }
  }

  /** The point falls just after the current bucket. */
  lemma ReachedBetween(w: World, b: Elem, e: Elem, i: int, left: int, point: nat)
    requires Inv(w) && b in w.heads && Reached(w, b, e, i, left, point) && e != b
    requires e in w.s.bucket && left == BucketStore.Length(w.s.bucket[e])
    ensures e in w.m.next && Parted(w, b, w.m.next[e], WholeOf(w, b), point)
    ensures point <= |WholeOf(w, b).bytes|
  {
    StandsAt(w, b, e, i);
    PartedBetween(w, b, i + 1);
  }

  // The two together.

  /** `b` has the first `point` bytes of what it meant, with the metadata that stands before them all
      told; `a` has the rest. */
  ghost predicate InTwo(w: World, b: Elem, a: Elem, whole: Meaning, point: nat) {
    && point <= |whole.bytes|
    && WholeOf(w, b).bytes == whole.bytes[..point] && WholeOf(w, a).bytes == whole.bytes[point..]
    && Followed(WholeOf(w, b), WholeOf(w, a)) == whole && AllBefore(WholeOf(w, b).marks, point)
  }

  /** A brigade partitioned at `point`, and then split at the bucket found. */
  lemma PartitionThenSplit(w: World, w': World, b: Elem, after: Elem, a: Elem, whole: Meaning, point: nat)
    requires Parted(w, b, after, whole, point) && SplitBefore(w, w', b, after, a)
    ensures InTwo(w', b, a, whole, point)
  {
  }

  /** What the two steps did, by way of `mid`: a bucket split if need be, and the tail moved.  The other
      brigades mean what they meant. */
  ghost predicate Throughout(w: World, mid: World, w': World, b: Elem, a: Elem, parts: seq<Act>, after: Elem) {
    && Inv(mid) && MayRun(w, parts) && mid == Run(w, parts) && (parts == [] || SplitsOne(w, b, parts, after))
    && mid.heads == w.heads && w'.heads == w.heads + {a} && SplitBefore(mid, w', b, after, a)
    && forall h {:trigger WholeOf(w', h)} | h in w.heads && h != a && h != b :: WholeOf(w', h) == WholeOf(w, h)
  }

  lemma OthersThroughout(w: World, mid: World, w': World, b: Elem, a: Elem, parts: seq<Act>, after: Elem)
    requires Inv(mid) && MayRun(w, parts) && mid == Run(w, parts) && (parts == [] || SplitsOne(w, b, parts, after))
    requires SameMeanings(w, mid) && SplitBefore(mid, w', b, after, a)
    ensures Throughout(w, mid, w', b, a, parts, after)
  {
    forall h | h in w.heads && h != a && h != b
      ensures WholeOf(w', h) == WholeOf(w, h)
    {
      assert Kept(mid, w', h) && WholeOf(mid, h) == WholeOf(w, h);
      KeptMeans(mid, w', h);
    }
  }
}
