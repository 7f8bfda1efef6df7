/** What a list of buckets means: a stream of bytes, and where in it the metadata buckets stand. */
module BrigadeMeaning {
  import opened RingElem
  import opened Sequences
  import opened BucketStore
  import RingSweep

  /** A metadata bucket and the number of bytes before it. */
  datatype Mark = Mark(bucket: Elem, at: nat)

  datatype Meaning = Meaning(bytes: seq<Byte>, marks: seq<Mark>)

  const NOTHING := Meaning([], [])

  /** All marks moved `n` bytes on. */
  function Shifted(marks: seq<Mark>, n: nat): (r: seq<Mark>)
    ensures |r| == |marks|
    ensures forall i | 0 <= i < |marks| :: r[i] == Mark(marks[i].bucket, marks[i].at + n)
  {
    seq(|marks|, i requires 0 <= i < |marks| => Mark(marks[i].bucket, marks[i].at + n))
  }

  /** One meaning followed by another. */
  function Followed(a: Meaning, b: Meaning): Meaning {
    Meaning(a.bytes + b.bytes, a.marks + Shifted(b.marks, |a.bytes|))
  }

  lemma NothingFollowed(a: Meaning)
    ensures Followed(NOTHING, a) == a && Followed(a, NOTHING) == a
  {
    assert Shifted(a.marks, 0) == a.marks && Shifted([], |a.bytes|) == [];
  }

  lemma FollowedTwice(a: Meaning, b: Meaning, c: Meaning)
    ensures Followed(Followed(a, b), c) == Followed(a, Followed(b, c))
  {
    ShiftedTwice(b.marks, c.marks, |a.bytes|, |b.bytes|);
    Associative(a.bytes, b.bytes, c.bytes);
    Associative(a.marks, Shifted(b.marks, |a.bytes|), Shifted(c.marks, |a.bytes| + |b.bytes|));
  }

  lemma ShiftedTwice(b: seq<Mark>, c: seq<Mark>, m: nat, n: nat)
    ensures Shifted(b + Shifted(c, n), m) == Shifted(b, m) + Shifted(c, m + n)
  {
  }

  /** Meanings, one after the other. */
  function AllFollowed(parts: seq<Meaning>): Meaning {
    if parts == [] then NOTHING else Followed(parts[0], AllFollowed(parts[1..]))
  }

  lemma {:induction false} AllConcat(a: seq<Meaning>, b: seq<Meaning>)
    ensures AllFollowed(a + b) == Followed(AllFollowed(a), AllFollowed(b))
    decreases |a|
  {
    if a == [] {
      assert a + b == b;
      NothingFollowed(AllFollowed(b));
    } else {
      assert (a + b)[0] == a[0] && (a + b)[1..] == a[1..] + b;
      AllConcat(a[1..], b);
      FollowedTwice(a[0], AllFollowed(a[1..]), AllFollowed(b));
    }
  }

  lemma AllOfOne(m: Meaning)
    ensures AllFollowed([m]) == m
  {
    assert [m][1..] == [];
    NothingFollowed(m);
  }

  // Buckets.

  ghost predicate IsMetadata(s: Store, e: Elem) {
    e in s.bucket && s.bucket[e].Metadata?
  }

  /** What one bucket means. */
  ghost function Part(s: Store, e: Elem): Meaning {
    if IsMetadata(s, e) then Meaning([], [Mark(e, 0)]) else Meaning(Segment(s, e), [])
  }

  ghost function Parts(s: Store, xs: seq<Elem>): (r: seq<Meaning>)
    ensures |r| == |xs| && forall i | 0 <= i < |xs| :: r[i] == Part(s, xs[i])
  {
    seq(|xs|, i requires 0 <= i < |xs| => Part(s, xs[i]))
  }

  ghost function MeaningOf(s: Store, xs: seq<Elem>): Meaning {
    AllFollowed(Parts(s, xs))
  }

  /** The meaning of a list in two parts is the meanings of the parts, one after the other. */
  lemma MeaningConcat(s: Store, xs: seq<Elem>, ys: seq<Elem>)
    ensures MeaningOf(s, xs + ys) == Followed(MeaningOf(s, xs), MeaningOf(s, ys))
  {
    assert Parts(s, xs + ys) == Parts(s, xs) + Parts(s, ys);
    AllConcat(Parts(s, xs), Parts(s, ys));
  }

  lemma MeaningOne(s: Store, x: Elem)
    ensures MeaningOf(s, [x]) == Part(s, x)
  {
    assert Parts(s, [x]) == [Part(s, x)];
    AllOfOne(Part(s, x));
  }

  lemma MeaningCons(s: Store, xs: seq<Elem>)
    requires xs != []
    ensures MeaningOf(s, xs) == Followed(Part(s, xs[0]), MeaningOf(s, xs[1..]))
  {
    assert xs == [xs[0]] + xs[1..];
    MeaningConcat(s, [xs[0]], xs[1..]);
    MeaningOne(s, xs[0]);
  }

  /** The buckets of a list are not concerned by a change of the store. */
  ghost predicate SameBuckets(s: Store, s': Store, xs: seq<Elem>) {
    forall i {:trigger xs[i]} | 0 <= i < |xs| :: Part(s', xs[i]) == Part(s, xs[i])
  }

  lemma MeaningFrame(s: Store, s': Store, xs: seq<Elem>)
    requires SameBuckets(s, s', xs)
    ensures MeaningOf(s', xs) == MeaningOf(s, xs)
  {
    assert Parts(s', xs) == Parts(s, xs);
  }

  // Split.

  lemma SliceOfSlice<T>(t: seq<T>, from: nat, n: nat, k: nat)
    requires from + n <= |t| && k <= n
    ensures t[from..from + n][..k] == t[from..from + k]
    ensures t[from..from + n][k..] == t[from + k..from + n]
  {
  }

  lemma SplitFields(s: Store, a: Elem, point: nat, b: Elem)
    requires Valid(s) && a in s.bucket && b !in s.bucket
    requires SplitStatus(s.bucket[a], point) == Success
    ensures var s', whole := SplitAt(s, a, point, b), s.bucket[a];
            && a in s'.bucket && b in s'.bucket
            && s'.bucket[a] == whole.(length := point)
            && s'.bucket[b] == whole.(start := whole.start + point, length := whole.length - point)
            && Base(s', s'.bucket[a]) == Base(s', s'.bucket[b]) == Base(s, whole)
            && BucketOk(s', s'.bucket[a]) && BucketOk(s', s'.bucket[b]) && BucketOk(s, whole)
  {
    assert BucketOk(s, s.bucket[a]);
  }

  lemma SegmentIs(s: Store, e: Elem)
    requires e in s.bucket && !s.bucket[e].Metadata? && BucketOk(s, s.bucket[e])
    ensures var b := s.bucket[e];
            b.start + b.length <= |Base(s, b)| && Segment(s, e) == Base(s, b)[b.start..b.start + b.length]
  {
  }

  /** A split divides the bytes of the bucket at the point. */
  lemma SplitHalves(s: Store, a: Elem, point: nat, b: Elem)
    requires Valid(s) && a in s.bucket && b !in s.bucket
    requires SplitStatus(s.bucket[a], point) == Success
    ensures var s' := SplitAt(s, a, point, b);
            && |Segment(s, a)| == Length(s.bucket[a]) >= point
            && Segment(s', a) == Segment(s, a)[..point] && Segment(s', b) == Segment(s, a)[point..]
            && !IsMetadata(s', a) && !IsMetadata(s', b) && !IsMetadata(s, a)
  {
    var s' := SplitAt(s, a, point, b);
    SplitFields(s, a, point, b);
    SegmentIs(s, a);
    SegmentIs(s', a);
    SegmentIs(s', b);
    SliceOfSlice(Base(s, s.bucket[a]), s.bucket[a].start, s.bucket[a].length, point);
  }

  /** A split leaves every other bucket's bytes alone. */
  lemma SplitOthers(s: Store, a: Elem, point: nat, b: Elem, e: Elem)
    requires Valid(s) && a in s.bucket && b !in s.bucket && e != a && e != b
    ensures Part(SplitAt(s, a, point, b), e) == Part(s, e)
  {
    if e in s.bucket {
      assert BucketOk(s, s.bucket[e]);
    }
    assert BucketOk(s, s.bucket[a]);
  }

  /** The list with `n` put in just after the `k`th bucket. */
  function PutAfter(xs: seq<Elem>, k: nat, n: Elem): seq<Elem>
    requires k < |xs|
  {
    xs[..k + 1] + [n] + xs[k + 1..]
  }

  lemma SplitSame(s: Store, xs: seq<Elem>, a: Elem, point: nat, b: Elem)
    requires Valid(s) && a in s.bucket && b !in s.bucket && a !in xs && b !in xs
    ensures MeaningOf(SplitAt(s, a, point, b), xs) == MeaningOf(s, xs)
  {
    forall i | 0 <= i < |xs|
      ensures Part(SplitAt(s, a, point, b), xs[i]) == Part(s, xs[i])
    {
      SplitOthers(s, a, point, b, xs[i]);
    }
    MeaningFrame(s, SplitAt(s, a, point, b), xs);
  }

  /** The two halves in a row mean what the bucket meant. */
  lemma HalvesMean(s: Store, a: Elem, point: nat, b: Elem)
    requires Valid(s) && a in s.bucket && b !in s.bucket
    requires SplitStatus(s.bucket[a], point) == Success
    ensures MeaningOf(SplitAt(s, a, point, b), [a, b]) == Part(s, a)
  {
    var s', seg := SplitAt(s, a, point, b), Segment(s, a);
    SplitHalves(s, a, point, b);
    MeaningCons(s', [a, b]);
    assert [a, b][1..] == [b];
    MeaningOne(s', b);
    assert seg[..point] + seg[point..] == seg;
  }

  /** Splitting a bucket, wherever it is in range, changes no brigade's meaning. */
  lemma SplitKeepsMeaning(s: Store, xs: seq<Elem>, k: nat, point: nat, b: Elem)
    requires Valid(s) && Distinct(xs) && k < |xs| && xs[k] in s.bucket && b !in s.bucket && b !in xs
    requires SplitStatus(s.bucket[xs[k]], point) == Success
    ensures MeaningOf(SplitAt(s, xs[k], point, b), PutAfter(xs, k, b)) == MeaningOf(s, xs)
  {
    var a, u, v, s' := xs[k], xs[..k], xs[k + 1..], SplitAt(s, xs[k], point, b);
    assert xs == u + [a] + v && PutAfter(xs, k, b) == u + [a, b] + v;
    assert a !in u && a !in v;
    SplitSame(s, u, a, point, b);
    SplitSame(s, v, a, point, b);
    HalvesMean(s, a, point, b);
    MeaningOne(s, a);
    ThreeParts(s, u, [a], v);
    ThreeParts(s', u, [a, b], v);
  }

  lemma ThreeParts(s: Store, u: seq<Elem>, v: seq<Elem>, w: seq<Elem>)
    ensures MeaningOf(s, u + v + w) == Followed(Followed(MeaningOf(s, u), MeaningOf(s, v)), MeaningOf(s, w))
  {
    MeaningConcat(s, u, v);
    MeaningConcat(s, u + v, w);
  }

  // Copy and destroy.

  /** A copy has the same bytes, and no other bucket changes. */
  lemma CopySegments(s: Store, a: Elem, b: Elem, e: Elem)
    requires Valid(s) && a in s.bucket && b !in s.bucket && e != b
    ensures var s' := Copied(s, a, b);
            && Segment(s', b) == Segment(s, a) && (IsMetadata(s', b) <==> IsMetadata(s, a))
            && Part(s', e) == Part(s, e)
  {
    assert BucketOk(s, s.bucket[a]);
    if e in s.bucket {
      assert BucketOk(s, s.bucket[e]);
    }
  }

  /** Destroying a bucket changes no other bucket's bytes, though they may share its resource. */
  lemma DestroySegments(s: Store, a: Elem, e: Elem)
    requires Valid(s) && a in s.bucket && e != a
    ensures Part(Destroyed(s, a), e) == Part(s, e)
  {
    DestroyedValid(s, a);
    if e in s.bucket {
      assert BucketOk(s, s.bucket[e]);
      assert BucketOk(Destroyed(s, a), Destroyed(s, a).bucket[e]);
      assert BucketOk(s, s.bucket[a]);
    }
  }

  // Removing buckets.

  /** A bucket with no bytes that is not metadata either. */
  ghost predicate Idle(s: Store, e: Elem) {
    !IsMetadata(s, e) && Segment(s, e) == []
  }

  lemma IdleIff(s: Store, e: Elem)
    ensures Idle(s, e) <==> Part(s, e) == NOTHING
  {
  }

  /** What is left when the chosen buckets go, first bucket first. */
  lemma KeptCons(xs: seq<Elem>, drop: Elem -> bool)
    requires xs != []
    ensures xs == [xs[0]] + xs[1..]
    ensures RingSweep.Kept(xs, drop)
            == if drop(xs[0]) then RingSweep.Kept(xs[1..], drop) else [xs[0]] + RingSweep.Kept(xs[1..], drop)
  {
  }

  /** All the dropped buckets are idle. */
  ghost predicate DropsIdle(s: Store, xs: seq<Elem>, drop: Elem -> bool) {
    forall i | 0 <= i < |xs| && drop(xs[i]) :: Idle(s, xs[i])
  }

  lemma DropsIdleCons(s: Store, xs: seq<Elem>, drop: Elem -> bool)
    requires xs != []
    ensures DropsIdle(s, xs, drop) <==> (drop(xs[0]) ==> Idle(s, xs[0])) && DropsIdle(s, xs[1..], drop)
  {
    assert forall i | 1 <= i < |xs| :: xs[i] == xs[1..][i - 1];
  }

  /** The number of bytes and marks. */
  function Weight(m: Meaning): nat {
    |m.bytes| + |m.marks|
  }

  lemma WeightFollowed(a: Meaning, b: Meaning)
    ensures Weight(Followed(a, b)) == Weight(a) + Weight(b)
    ensures Weight(a) == 0 <==> a == NOTHING
  {
  }

  /** Dropping buckets loses bytes or marks, unless they are all idle. */
  lemma {:induction false} KeptLess(s: Store, xs: seq<Elem>, drop: Elem -> bool)
    ensures Weight(MeaningOf(s, RingSweep.Kept(xs, drop))) <= Weight(MeaningOf(s, xs))
    ensures Weight(MeaningOf(s, RingSweep.Kept(xs, drop))) == Weight(MeaningOf(s, xs)) ==> DropsIdle(s, xs, drop)
    decreases |xs|
  {
    if xs != [] {
      var x, rest := xs[0], xs[1..];
      var kept := RingSweep.Kept(rest, drop);
      KeptLess(s, rest, drop);
      KeptCons(xs, drop);
      DropsIdleCons(s, xs, drop);
      IdleIff(s, x);
      MeaningCons(s, xs);
      WeightFollowed(Part(s, x), MeaningOf(s, rest));
      if !drop(x) {
        FrontKept(s, x, kept);
        WeightFollowed(Part(s, x), MeaningOf(s, kept));
      }
    }
  }

  lemma FrontKept(s: Store, x: Elem, kept: seq<Elem>)
    ensures MeaningOf(s, [x] + kept) == Followed(Part(s, x), MeaningOf(s, kept))
  {
    MeaningCons(s, [x] + kept);
    assert ([x] + kept)[1..] == kept;
  }

  lemma {:induction false} KeptSame(s: Store, xs: seq<Elem>, drop: Elem -> bool)
    requires DropsIdle(s, xs, drop)
    ensures MeaningOf(s, RingSweep.Kept(xs, drop)) == MeaningOf(s, xs)
    decreases |xs|
  {
    if xs != [] {
      var x, rest := xs[0], xs[1..];
      KeptCons(xs, drop);
      DropsIdleCons(s, xs, drop);
      KeptSame(s, rest, drop);
      MeaningCons(s, xs);
      if drop(x) {
        IdleIff(s, x);
        NothingFollowed(MeaningOf(s, rest));
      } else {
        FrontKept(s, x, RingSweep.Kept(rest, drop));
      }
    }
  }

  /** Buckets may be taken out of a brigade without changing its meaning exactly when each of them
      is empty and contains no metadata. */
  lemma SafeToRemoveIff(s: Store, xs: seq<Elem>, drop: Elem -> bool)
    ensures MeaningOf(s, RingSweep.Kept(xs, drop)) == MeaningOf(s, xs)
            <==> DropsIdle(s, xs, drop)
  {
    KeptLess(s, xs, drop);
    if DropsIdle(s, xs, drop) {
      KeptSame(s, xs, drop);
    }
  }
}
