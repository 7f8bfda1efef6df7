/** Bytes written to the end of a brigade: into the block of its last bucket, or into a new one. */
module BrigadeWrites {
  import opened RingElem
  import opened Sequences
  import opened RingLists
  import Ring = RingRuns
  import BucketStore
  import opened BrigadeMeaning
  import opened BrigadeWorld
  import opened BrigadeStreams
  import opened BrigadeSplits

  // Whose bytes are written over.

  function End(b: BucketStore.Bucket): nat
    requires !b.Metadata?
  {
    b.start + b.length
  }

  /** Some of the bytes of a bucket are among the `n` bytes of its block from `at` on. */
  predicate Overlaps(b: BucketStore.Bucket, at: nat, n: nat)
    requires !b.Metadata?
  {
    b.length > 0 && n > 0 && b.start < at + n && at < End(b)
  }

  /** Another bucket has bytes among the `n` that follow those of `e`. */
  ghost predicate InTheWay(s: Store, e: Elem, n: nat, x: Elem) {
    && e in s.bucket && s.bucket[e].Shared?
    && x != e && BucketStore.Uses(s, x, s.bucket[e].data) && Overlaps(s.bucket[x], End(s.bucket[e]), n)
  }

  ghost predicate Clear(s: Store, e: Elem, n: nat) {
    forall x {:trigger InTheWay(s, e, n, x)} | x in s.bucket :: !InTheWay(s, e, n, x)
  }

  ghost predicate OthersSame(s: Store, s': Store, e: Elem) {
    forall x {:trigger Part(s', x)} | x in s.bucket && x != e :: Part(s', x) == Part(s, x)
  }

  /** The bucket has the new bytes after its own. */
  lemma ExtendedPart(s: Store, e: Elem, data: seq<BucketStore.Byte>)
    requires BucketStore.Valid(s) && BucketStore.HasRoom(s, e, |data|)
    ensures Part(BucketStore.Extended(s, e, data), e) == Followed(Part(s, e), Meaning(data, []))
  {
    var s', b := BucketStore.Extended(s, e, data), s.bucket[e];
    assert BucketStore.BucketOk(s, b) && BucketStore.BucketOk(s', s'.bucket[e]);
    SegmentIs(s, e);
    SegmentIs(s', e);
    assert BucketStore.Segment(s', e) == BucketStore.Segment(s, e) + data;
  }

  lemma NotInTheWay(s: Store, e: Elem, data: seq<BucketStore.Byte>, x: Elem)
    requires BucketStore.Valid(s) && BucketStore.HasRoom(s, e, |data|) && x in s.bucket && x != e
    requires !InTheWay(s, e, |data|, x)
    ensures Part(BucketStore.Extended(s, e, data), x) == Part(s, x)
  {
    var s' := BucketStore.Extended(s, e, data);
    assert BucketStore.BucketOk(s, s.bucket[x]);
    if !s.bucket[x].Metadata? {
      SegmentIs(s, x);
      SegmentIs(s', x);
      assert BucketStore.Segment(s', x) == BucketStore.Segment(s, x);
    }
  }

  function Flipped(b: BucketStore.Byte): (r: BucketStore.Byte)
    ensures r != b
  {
    if b == 0 then 1 else 0
  }

  /** What to write so that every byte written over is changed. */
  function AllFlipped(bytes: seq<BucketStore.Byte>, at: nat, n: nat): (r: seq<BucketStore.Byte>)
    requires at + n <= |bytes|
    ensures |r| == n && AllDifferent(bytes, at, r)
    decreases n
  {
    if n == 0 then [] else [Flipped(bytes[at])] + AllFlipped(bytes, at + 1, n - 1)
  }

  /** All bytes written are different from what was there. */
  ghost predicate AllDifferent(bytes: seq<BucketStore.Byte>, at: nat, data: seq<BucketStore.Byte>) {
    at + |data| <= |bytes| && forall i | 0 <= i < |data| :: data[i] != bytes[at + i]
  }

  /** Bytes that are all different where they overlap a slice make it a different slice. */
  lemma SliceChanged(bytes: seq<BucketStore.Byte>, at: nat, data: seq<BucketStore.Byte>, start: nat, end: nat)
    requires AllDifferent(bytes, at, data)
    requires start < end <= |bytes| && start < at + |data| && at < end && data != []
    ensures BucketStore.Overwritten(bytes, at, data)[start..end] != bytes[start..end]
  {
    var i := if at <= start then 0 else at - start;
    assert BucketStore.Overwritten(bytes, at, data)[start..end][i] != bytes[start..end][i];
  }

  lemma ChangedInTheWay(s: Store, e: Elem, data: seq<BucketStore.Byte>, x: Elem)
    requires BucketStore.Valid(s) && BucketStore.HasRoom(s, e, |data|) && InTheWay(s, e, |data|, x)
    requires AllDifferent(s.shared[s.bucket[e].data].bytes, End(s.bucket[e]), data)
    ensures Part(BucketStore.Extended(s, e, data), x) != Part(s, x)
  {
    SegmentAfter(s, e, data, x);
    SliceChanged(s.shared[s.bucket[e].data].bytes, End(s.bucket[e]), data, s.bucket[x].start, End(s.bucket[x]));
  }

  /** The bytes of another bucket on the same block, before and after. */
  lemma SegmentAfter(s: Store, e: Elem, data: seq<BucketStore.Byte>, x: Elem)
    requires BucketStore.Valid(s) && BucketStore.HasRoom(s, e, |data|) && x != e
    requires BucketStore.Uses(s, x, s.bucket[e].data)
    ensures var bytes, b := s.shared[s.bucket[e].data].bytes, s.bucket[x];
            && End(b) <= |bytes|
            && Part(s, x) == Meaning(bytes[b.start..End(b)], [])
            && Part(BucketStore.Extended(s, e, data), x)
               == Meaning(BucketStore.Overwritten(bytes, End(s.bucket[e]), data)[b.start..End(b)], [])
  {
    var s' := BucketStore.Extended(s, e, data);
    assert BucketStore.BucketOk(s, s.bucket[x]) && BucketStore.BucketOk(s', s'.bucket[x]);
    SegmentIs(s, x);
    SegmentIs(s', x);
  }

  /** Writing behind the bytes of a bucket into its block leaves every other bucket's bytes alone,
      whatever is written, exactly when no other bucket has bytes there. */
  lemma WriteSafeIff(s: Store, e: Elem, n: nat)
    requires BucketStore.Valid(s) && BucketStore.HasRoom(s, e, n)
    ensures (forall data {:trigger BucketStore.Extended(s, e, data)} | |data| == n ::
               OthersSame(s, BucketStore.Extended(s, e, data), e))
            <==> Clear(s, e, n)
  {
    if Clear(s, e, n) {
      forall data | |data| == n
        ensures OthersSame(s, BucketStore.Extended(s, e, data), e)
      {
        ClearWrite(s, e, data);
      }
    } else {
      var x :| x in s.bucket && InTheWay(s, e, n, x);
      var data := AllFlipped(s.shared[s.bucket[e].data].bytes, End(s.bucket[e]), n);
      ChangedInTheWay(s, e, data, x);
      assert !OthersSame(s, BucketStore.Extended(s, e, data), e);
    }
  }

  lemma ClearWrite(s: Store, e: Elem, data: seq<BucketStore.Byte>)
    requires BucketStore.Valid(s) && BucketStore.HasRoom(s, e, |data|) && Clear(s, e, |data|)
    ensures OthersSame(s, BucketStore.Extended(s, e, data), e)
  {
    forall x | x in s.bucket && x != e
      ensures Part(BucketStore.Extended(s, e, data), x) == Part(s, x)
    {
      NotInTheWay(s, e, data, x);
    }
  }

  /** The bucket refers to its block alone. */
  ghost predicate Unshared(s: Store, e: Elem) {
    e in s.bucket && s.bucket[e].Shared? ==>
      s.bucket[e].data in s.shared && s.shared[s.bucket[e].data].refcount == 1
  }

  lemma OnlyUser(s: Store, e: Elem, x: Elem)
    requires BucketStore.Valid(s) && e in s.bucket && s.bucket[e].Shared? && Unshared(s, e)
    requires BucketStore.Uses(s, x, s.bucket[e].data)
    ensures x == e
  {
    var r := s.bucket[e].data;
    assert BucketStore.CountOk(s, r) && BucketStore.Uses(s, e, r);
    BucketStore.OneUser(s, r, e);
    assert x in BucketStore.Users(s, r);
  }

  /** With a reference count of one there is nothing in the way. */
  lemma UnsharedClear(s: Store, e: Elem, n: nat)
    requires BucketStore.Valid(s) && Unshared(s, e)
    ensures Clear(s, e, n)
  {
    forall x | x in s.bucket
      ensures !InTheWay(s, e, n, x)
    {
      if InTheWay(s, e, n, x) {
        OnlyUser(s, e, x);
      }
    }
  }

  /** After a split the second half is in the way of the first, whatever is written there. */
  lemma SplitInTheWay(s: Store, e: Elem, point: nat, n: Elem, k: nat)
    requires BucketStore.Valid(s) && e in s.bucket && n !in s.bucket && s.bucket[e].Shared?
    requires point < s.bucket[e].length && 0 < k <= s.bucket[e].length - point
    ensures var s' := BucketStore.SplitAt(s, e, point, n);
            BucketStore.HasRoom(s', e, k) && InTheWay(s', e, k, n) && !Clear(s', e, k)
  {
    SplitFields(s, e, point, n);
    var s' := BucketStore.SplitAt(s, e, point, n);
    assert InTheWay(s', e, k, n);
  }

  // Lists.

  /** The lists of all brigades but `b` are what they were. */
  ghost predicate SameLists(w: World, w': World, b: Elem) {
    && w'.heads == w.heads
    && forall h {:trigger ListOf(w', h)} | h in w.heads && h != b :: ListOf(w', h) == ListOf(w, h)
  }

  lemma InsertTailLists(w: World, b: Elem, e: Elem)
    requires Inv(w) && b in w.heads && Loose(w, e)
    ensures May(w, Link(Ring.InsertTail(b, e)))
    ensures var w' := Step(w, Link(Ring.InsertTail(b, e)));
            Inv(w') && w'.s == w.s && SameLists(w, w', b) && ListOf(w', b) == ListOf(w, b) + [e]
  {
    var op := Ring.InsertTail(b, e);
    var w' := Step(w, Link(op));
    LinkFilled(w, op);
    LinkStep(w, op);
    HeadFilled(w, b);
    LooseSpare(w, e);
    AtTheTail(w.L[b].nodes, e);
    ListsKept(w, w', op, b);
  }

  lemma AtTheTail(nodes: seq<Elem>, e: Elem)
    requires nodes != []
    ensures (nodes[..|nodes|] + [e] + nodes[|nodes|..])[1..] == nodes[1..] + [e]
  {
  }

  /** A list macro that names one brigade leaves the lists of the others. */
  lemma ListsKept(w: World, w': World, op: Ring.Op, b: Elem)
    requires Inv(w) && MayLink(w, op) && Ring.Enabled(w.L, op)
    requires w'.L == Ring.ListStep(w.L, op) && w'.heads == w.heads
    requires forall h | h in w.heads && h != b :: h !in Ring.Named(w.L, op)
    ensures SameLists(w, w', b)
  {
    forall h | h in w.heads && h != b
      ensures ListOf(w', h) == ListOf(w, h)
    {
      HeadFilled(w, h);
      Ring.KeptFiled(w.m, w.L, op, h);
    }
  }

  lemma RemoveFirstLists(w: World, b: Elem)
    requires Inv(w) && b in w.heads && ListOf(w, b) != []
    ensures var e := ListOf(w, b)[0];
            var w' := Step(w, Link(Ring.Remove(e)));
            && May(w, Link(Ring.Remove(e)))
            && Inv(w') && w'.s == w.s && SameLists(w, w', b) && ListOf(w', b) == ListOf(w, b)[1..]
            && Loose(w', e) && e in w.s.bucket
  {
    var e := ListOf(w, b)[0];
    var op := Ring.Remove(e);
    BrigadeList(w, b);
    HomeIsUnique(w.m, w.L, e, b, 1);
    LiveNoHead(w, e);
    LinkFilled(w, op);
    RemovedLoose(w, e);
    NotAKey(w.m, w.L, b, 1);
    assert Ring.ListStep(w.L, op) == Cut(w.L, b, 1, 2);
    FirstOut(w.L[b].nodes);
    ListsKept(w, Step(w, Link(op)), op, b);
  }

  lemma FirstOut(nodes: seq<Elem>)
    requires |nodes| > 1
    ensures (nodes[..1] + nodes[2..])[1..] == nodes[1..][1..]
  {
  }

  // Meanings.

  /** The stream of `b` goes on with `m`; no other brigade's meaning changes. */
  ghost predicate GoesOnWith(w: World, w': World, b: Elem, m: Meaning) {
    && w'.heads == w.heads && WholeOf(w', b) == Followed(WholeOf(w, b), m)
    && forall h {:trigger WholeOf(w', h)} | h in w.heads && h != b :: WholeOf(w', h) == WholeOf(w, h)
  }

  lemma GoesOnTwice(w: World, w1: World, w2: World, b: Elem, m: Meaning, n: Meaning)
    requires GoesOnWith(w, w1, b, m) && GoesOnWith(w1, w2, b, n)
    ensures GoesOnWith(w, w2, b, Followed(m, n))
  {
    FollowedTwice(WholeOf(w, b), m, n);
  }

  /** A bucket inserted at the end of a brigade. */
  lemma TailGoesOn(w: World, w': World, b: Elem, e: Elem)
    requires w'.s == w.s && SameLists(w, w', b) && ListOf(w', b) == ListOf(w, b) + [e]
    ensures GoesOnWith(w, w', b, Part(w.s, e))
  {
    MeaningConcat(w.s, ListOf(w, b), [e]);
    MeaningOne(w.s, e);
  }

  /** A new bucket, on no brigade yet. */
  lemma MadeElsewhere(w: World, b: Elem, make: BucketStore.Act)
    requires Inv(w) && b in w.heads && MayMake(w, make)
    ensures var w' := Step(w, Make(make));
            && Inv(w') && w'.heads == w.heads && w'.s == BucketStore.Acted(w.s, make)
            && Loose(w', make.e) && ListOf(w', b) == ListOf(w, b)
            && GoesOnWith(w, w', b, NOTHING)
  {
    var w' := Step(w, Make(make));
    MakeStep(w, make);
    BucketStore.ActValid(w.s, make);
    AddedInv(w, make.e, make.e, make.e, true, w'.s);
    forall h | h in w.heads
      ensures WholeOf(w', h) == WholeOf(w, h) && ListOf(w', h) == ListOf(w, h)
    {
      MakeMeans(w, make, h);
      HeadFilled(w, h);
      NewUnlisted(w, h, make.e);
    }
    NothingFollowed(WholeOf(w, b));
  }

  /** A bucket made, and inserted at the end of a brigade. */
  function NewTail(b: Elem, make: BucketStore.Act): seq<Act>
    requires make.MakeShared? || make.MakeSimple?
  {
    [Make(make), Link(Ring.InsertTail(b, make.e))]
  }

  lemma NewTailGoesOn(w: World, b: Elem, make: BucketStore.Act)
    requires Inv(w) && b in w.heads && MayMake(w, make) && (make.MakeShared? || make.MakeSimple?)
    ensures var w' := Run(w, NewTail(b, make));
            && MayRun(w, NewTail(b, make)) && Inv(w') && w'.s == BucketStore.Acted(w.s, make)
            && ListOf(w', b) == ListOf(w, b) + [make.e]
            && GoesOnWith(w, w', b, Part(w'.s, make.e))
  {
    var w1 := Step(w, Make(make));
    MadeElsewhere(w, b, make);
    InsertTailLists(w1, b, make.e);
    var w2 := Step(w1, Link(Ring.InsertTail(b, make.e)));
    TailGoesOn(w1, w2, b, make.e);
    GoesOnTwice(w, w1, w2, b, NOTHING, Part(w2.s, make.e));
    NothingFollowed(Part(w2.s, make.e));
    TwoActs(w, Make(make), Link(Ring.InsertTail(b, make.e)));
  }

  lemma NewTailKeys(w: World, b: Elem, make: BucketStore.Act)
    requires Inv(w) && b in w.heads && MayMake(w, make) && (make.MakeShared? || make.MakeSimple?)
    ensures Run(w, NewTail(b, make)).m.next.Keys == w.m.next.Keys + {make.e}
  {
    var w1 := Step(w, Make(make));
    MadeElsewhere(w, b, make);
    InsertTailLists(w1, b, make.e);
    LinkStep(w1, Ring.InsertTail(b, make.e));
    TwoActs(w, Make(make), Link(Ring.InsertTail(b, make.e)));
  }

  /** Bytes put into the block of a brigade's last bucket. */
  lemma ExtendGoesOn(w: World, b: Elem, e: Elem, data: seq<BucketStore.Byte>)
    requires Inv(w) && b in w.heads && ListOf(w, b) != [] && Last(ListOf(w, b)) == e
    requires BucketStore.HasRoom(w.s, e, |data|)
    ensures var w' := Step(w, Extend(e, data));
            && May(w, Extend(e, data)) && Inv(w') && w'.heads == w.heads && w'.s == BucketStore.Extended(w.s, e, data)
            && ListOf(w', b) == ListOf(w, b)
            && (Clear(w.s, e, |data|) ==> GoesOnWith(w, w', b, Meaning(data, [])))
  {
    var w' := Step(w, Extend(e, data));
    ExtendInv(w, e, data);
    if Clear(w.s, e, |data|) {
      ExtendClear(w, w', b, e, data);
    }
  }

  lemma ExtendClear(w: World, w': World, b: Elem, e: Elem, data: seq<BucketStore.Byte>)
    requires Inv(w) && b in w.heads && ListOf(w, b) != [] && Last(ListOf(w, b)) == e
    requires BucketStore.HasRoom(w.s, e, |data|) && Clear(w.s, e, |data|)
    requires w' == w.(s := BucketStore.Extended(w.s, e, data))
    ensures GoesOnWith(w, w', b, Meaning(data, []))
  {
    EndExtended(w, b, e, data);
    forall h | h in w.heads && h != b
      ensures WholeOf(w', h) == WholeOf(w, h)
    {
      OtherExtended(w, b, h, e, data);
    }
  }

  lemma EndExtended(w: World, b: Elem, e: Elem, data: seq<BucketStore.Byte>)
    requires Inv(w) && b in w.heads && ListOf(w, b) != [] && Last(ListOf(w, b)) == e
    requires BucketStore.HasRoom(w.s, e, |data|) && Clear(w.s, e, |data|)
    ensures MeaningOf(BucketStore.Extended(w.s, e, data), ListOf(w, b)) == Followed(WholeOf(w, b), Meaning(data, []))
  {
    LastExtended(w.s, ListsEnd(w, b), e, data);
    AllButLast(ListOf(w, b));
  }

  lemma OtherExtended(w: World, b: Elem, h: Elem, e: Elem, data: seq<BucketStore.Byte>)
    requires Inv(w) && b in w.heads && h in w.heads && h != b && e in ListOf(w, b)
    requires BucketStore.HasRoom(w.s, e, |data|) && Clear(w.s, e, |data|)
    ensures MeaningOf(BucketStore.Extended(w.s, e, data), ListOf(w, h)) == WholeOf(w, h)
  {
    ClearWrite(w.s, e, data);
    ListElsewhere(w, b, h, e);
    MeaningFrame(w.s, BucketStore.Extended(w.s, e, data), ListOf(w, h));
  }

  /** The list of a brigade but for its last bucket. */
  ghost function ListsEnd(w: World, b: Elem): (xs: seq<Elem>)
    requires Inv(w) && b in w.heads && ListOf(w, b) != []
    ensures forall i | 0 <= i < |xs| :: xs[i] in w.s.bucket && xs[i] != Last(ListOf(w, b))
  {
    BrigadeList(w, b);
    ListOf(w, b)[..|ListOf(w, b)| - 1]
  }

  lemma ListElsewhere(w: World, b: Elem, h: Elem, e: Elem)
    requires Inv(w) && b in w.heads && h in w.heads && h != b && e in ListOf(w, b)
    ensures forall i | 0 <= i < |ListOf(w, h)| :: ListOf(w, h)[i] in w.s.bucket && ListOf(w, h)[i] != e
  {
    BrigadeList(w, b);
    BrigadeList(w, h);
    OnOneBrigade(w, h, e, b);
  }

  lemma LastExtended(s: Store, xs: seq<Elem>, e: Elem, data: seq<BucketStore.Byte>)
    requires BucketStore.Valid(s) && BucketStore.HasRoom(s, e, |data|) && Clear(s, e, |data|)
    requires forall i | 0 <= i < |xs| :: xs[i] in s.bucket && xs[i] != e
    ensures MeaningOf(BucketStore.Extended(s, e, data), xs + [e])
            == Followed(MeaningOf(s, xs + [e]), Meaning(data, []))
  {
    var s' := BucketStore.Extended(s, e, data);
    ClearWrite(s, e, data);
    MeaningFrame(s, s', xs);
    ExtendedPart(s, e, data);
    MeaningConcat(s, xs, [e]);
    MeaningConcat(s', xs, [e]);
    MeaningOne(s, e);
    MeaningOne(s', e);
    FollowedTwice(MeaningOf(s, xs), Part(s, e), Meaning(data, []));
  }

  // apr_brigade_write

  /** `APR_BUCKET_BUFF_SIZE` */
  const BUFF_SIZE: nat := 8000

  /** The brigade ends in a bucket that may be written into. */
  ghost predicate EndsInHeap(w: World, b: Elem) {
    ListOf(w, b) != [] && LastOf(w, b) in w.s.bucket && w.s.bucket[LastOf(w, b)].Shared?
  }

  ghost function LastOf(w: World, b: Elem): Elem
    requires ListOf(w, b) != []
  {
    Last(ListOf(w, b))
  }

  /** How many bytes may be written without a block of that size. */
  ghost function Remaining(w: World, b: Elem): int {
    if !EndsInHeap(w, b) then BUFF_SIZE
    else
      var bucket := w.s.bucket[LastOf(w, b)];
      |BucketStore.Base(w.s, bucket)| - End(bucket)
  }

  /** A write of `n` bytes into the last bucket's block, if that is where it goes, finds nothing in its way. */
  ghost predicate WriteClear(w: World, b: Elem, n: nat) {
    !EndsInHeap(w, b) || n > Remaining(w, b) || Clear(w.s, LastOf(w, b), n)
  }

  /** What a finished write comes to. */
  ghost predicate Wrote(w: World, w': World, b: Elem, data: seq<BucketStore.Byte>) {
    WriteClear(w, b, |data|) ==> GoesOnWith(w, w', b, Meaning(data, []))
  }

  /** A bucket is to be made with just this data. */
  ghost predicate MakesOwn(make: BucketStore.Act, data: seq<BucketStore.Byte>) {
    || (make.MakeShared? && make == BucketStore.MakeShared(make.e, make.r, data, 0, |data|))
    || (make.MakeSimple? && make == BucketStore.MakeSimple(make.e, make.d, data))
  }

  lemma OwnPart(s: Store, make: BucketStore.Act, data: seq<BucketStore.Byte>)
    requires BucketStore.Valid(s) && BucketStore.Possible(s, make) && MakesOwn(make, data)
    ensures Part(BucketStore.Acted(s, make), make.e) == Meaning(data, [])
  {
    var s' := BucketStore.Acted(s, make);
    BucketStore.ActValid(s, make);
    assert BucketStore.BucketOk(s', s'.bucket[make.e]);
    SegmentIs(s', make.e);
  }

  /** Too much for the room there is: a bucket of its own for the data. */
  lemma WroteOwn(w: World, b: Elem, make: BucketStore.Act, data: seq<BucketStore.Byte>)
    requires Inv(w) && b in w.heads && MayMake(w, make) && MakesOwn(make, data)
    ensures MayRun(w, NewTail(b, make)) && GoesOnWith(w, Run(w, NewTail(b, make)), b, Meaning(data, []))
  {
    NewTailGoesOn(w, b, make);
    OwnPart(w.s, make, data);
  }

  /** A new, empty block at the end of the brigade, with room for the data. */
  lemma BufferAdded(w: World, b: Elem, e: Elem, r: BucketStore.Id, block: seq<BucketStore.Byte>, n: nat)
    requires Inv(w) && b in w.heads && MayMake(w, BucketStore.MakeShared(e, r, block, 0, 0)) && n <= |block|
    ensures var w' := Run(w, NewTail(b, BucketStore.MakeShared(e, r, block, 0, 0)));
            && Inv(w') && ListOf(w', b) == ListOf(w, b) + [e] && Last(ListOf(w', b)) == e
            && BucketStore.HasRoom(w'.s, e, n) && Clear(w'.s, e, n)
            && GoesOnWith(w, w', b, NOTHING)
  {
    var make := BucketStore.MakeShared(e, r, block, 0, 0);
    var w' := Run(w, NewTail(b, make));
    NewTailGoesOn(w, b, make);
    assert BucketStore.BucketOk(w'.s, w'.s.bucket[e]);
    UnsharedClear(w'.s, e, n);
  }

  /** The data put into the last bucket's block, be it new or not. */
  lemma WroteInto(w: World, w1: World, b: Elem, e: Elem, data: seq<BucketStore.Byte>)
    requires Inv(w1) && b in w1.heads && ListOf(w1, b) != [] && Last(ListOf(w1, b)) == e
    requires BucketStore.HasRoom(w1.s, e, |data|) && GoesOnWith(w, w1, b, NOTHING) && WroteOnly(w, w1, b)
    requires WriteClear(w, b, |data|) ==> Clear(w1.s, e, |data|)
    ensures var w' := Step(w1, Extend(e, data));
            && May(w1, Extend(e, data)) && Wrote(w, w', b, data) && WroteOnly(w, w', b)
  {
    var w' := Step(w1, Extend(e, data));
    ExtendGoesOn(w1, b, e, data);
    WroteOnlyExtend(w1, b, e, data);
    WroteOnlyTwice(w, w1, w', b);
    NothingFollowed(Meaning(data, []));
    if WriteClear(w, b, |data|) {
      GoesOnTwice(w, w1, w', b, NOTHING, Meaning(data, []));
    }
  }

  lemma NothingYet(w: World, b: Elem)
    ensures GoesOnWith(w, w, b, NOTHING) && WroteOnly(w, w, b)
  {
    NothingFollowed(WholeOf(w, b));
  }

  /** The last bucket of a brigade, as its sentinel has it. */
  lemma LastBucket(w: World, b: Elem)
    requires Inv(w) && b in w.heads && ListOf(w, b) != []
    ensures b in w.m.prev && w.m.prev[b] == LastOf(w, b) && LastOf(w, b) in w.s.bucket
    ensures var bucket := w.s.bucket[LastOf(w, b)];
            bucket.Shared? ==>
              && bucket.data in w.s.shared
              && Remaining(w, b) == |w.s.shared[bucket.data].bytes| - End(bucket) >= 0
  {
    BrigadeList(w, b);
    PathAt(w.m, w.L, b, 0);
    assert BucketStore.BucketOk(w.s, w.s.bucket[LastOf(w, b)]);
  }

  // What else a write does.

  ghost predicate OwnKept(s: Store, s': Store) {
    forall x {:trigger Unshared(s', x)} | x in s.bucket && Unshared(s, x) :: x in s'.bucket && Unshared(s', x)
  }

  ghost predicate StillLoose(w: World, w': World) {
    forall x {:trigger Loose(w', x)} | x in w.s.bucket && Loose(w, x) :: Loose(w', x)
  }

  /** The list of `b` may get a bucket more, which shares its data with none; no other list changes,
      buckets that are on no brigade stay so, and what was not shared is not shared. */
  ghost predicate WroteOnly(w: World, w': World, b: Elem) {
    && SameLists(w, w', b) && StillLoose(w, w') && OwnKept(w.s, w'.s)
    && forall x {:trigger Unshared(w'.s, x)} | x in ListOf(w', b) :: x in ListOf(w, b) || Unshared(w'.s, x)
  }

  lemma WroteOnlyTwice(w: World, w1: World, w2: World, b: Elem)
    requires Inv(w1) && b in w1.heads && WroteOnly(w, w1, b) && WroteOnly(w1, w2, b)
    ensures WroteOnly(w, w2, b)
  {
    forall x | x in w.s.bucket && Unshared(w.s, x)
      ensures x in w2.s.bucket && Unshared(w2.s, x)
    {
      assert Unshared(w1.s, x) && Unshared(w2.s, x);
    }
    forall x | x in w.s.bucket && Loose(w, x)
      ensures Loose(w2, x)
    {
      assert Loose(w1, x);
    }
    BrigadeList(w1, b);
    forall x | x in ListOf(w2, b)
      ensures x in ListOf(w, b) || Unshared(w2.s, x)
    {
      if x in ListOf(w1, b) && x !in ListOf(w, b) {
        assert Unshared(w1.s, x);
      }
    }
  }

  lemma WroteOnlyTail(w: World, b: Elem, make: BucketStore.Act)
    requires Inv(w) && b in w.heads && MayMake(w, make) && (make.MakeShared? || make.MakeSimple?)
    ensures WroteOnly(w, Run(w, NewTail(b, make)), b)
  {
    var w1, w2 := Step(w, Make(make)), Run(w, NewTail(b, make));
    NewTailGoesOn(w, b, make);
    OwnMade(w.s, make);
    MadeElsewhere(w, b, make);
    MadeLists(w, make);
    InsertTailLists(w1, b, make.e);
    TwoActs(w, Make(make), Link(Ring.InsertTail(b, make.e)));
    TailLoose(w, w1, w2, b, make);
  }

  lemma TailLoose(w: World, w1: World, w2: World, b: Elem, make: BucketStore.Act)
    requires Inv(w) && MayMake(w, make) && w1 == Step(w, Make(make)) && Inv(w1) && b in w1.heads && Loose(w1, make.e)
    requires w2 == Step(w1, Link(Ring.InsertTail(b, make.e)))
    ensures StillLoose(w, w2)
  {
    MadeLoose(w, make);
    InsertLoose(w1, b, make.e);
    AddedNew(w.m, w.L, make.e);
    forall x | x in w.s.bucket && Loose(w, x)
      ensures Loose(w2, x)
    {
      assert Loose(w1, x);
    }
  }

  lemma OwnMade(s: Store, make: BucketStore.Act)
    requires BucketStore.Valid(s) && BucketStore.Possible(s, make) && (make.MakeShared? || make.MakeSimple?)
    ensures OwnKept(s, BucketStore.Acted(s, make)) && Unshared(BucketStore.Acted(s, make), make.e)
  {
  }

  lemma MadeLists(w: World, make: BucketStore.Act)
    requires Inv(w) && MayMake(w, make)
    ensures Step(w, Make(make)).heads == w.heads
    ensures forall h | h in w.heads :: ListOf(Step(w, Make(make)), h) == ListOf(w, h)
  {
    forall h | h in w.heads
      ensures ListOf(Step(w, Make(make)), h) == ListOf(w, h)
    {
      MadeElsewhere(w, h, make);
    }
  }

  lemma MadeLoose(w: World, make: BucketStore.Act)
    requires Inv(w) && MayMake(w, make)
    ensures StillLoose(w, Step(w, Make(make)))
  {
    AddedNew(w.m, w.L, make.e);
  }

  lemma InsertLoose(w: World, b: Elem, e: Elem)
    requires Inv(w) && b in w.heads && Loose(w, e)
    ensures forall x | Loose(w, x) && x != e :: Loose(Step(w, Link(Ring.InsertTail(b, e))), x)
  {
    var op := Ring.InsertTail(b, e);
    InsertTailLists(w, b, e);
    LinkFilled(w, op);
    forall x | Loose(w, x) && x != e
      ensures Loose(Step(w, Link(op)), x)
    {
      LiveNoHead(w, x);
      Ring.KeptFiled(w.m, w.L, op, x);
    }
  }

  lemma WroteOnlyExtend(w: World, b: Elem, e: Elem, data: seq<BucketStore.Byte>)
    requires Inv(w) && b in w.heads && BucketStore.HasRoom(w.s, e, |data|)
    ensures WroteOnly(w, Step(w, Extend(e, data)), b)
  {
  }
}
