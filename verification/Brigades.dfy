/** Buckets and brigades on the elements themselves: the macros and functions of `apr_buckets.h`. */
module Brigades {
  import opened RingElem
  import opened LinkMemory
  import opened RingLists
  import Ring = RingRuns
  import RingMacros
  import opened BucketStore
  import opened BrigadeMeaning
  import World = BrigadeWorld
  import Splits = BrigadeSplits
  import Writes = BrigadeWrites
  import Lines = BrigadeLines

  /** The one link field of a bucket. */
  const LINK: Link := "link"

  /** Where buckets live: their links are in the elements, their other fields are filed here. */
  class BucketHeap {
    var bucket: map<Elem, Bucket>
    var shared: map<Id, Resource>
    var fixed: map<Id, seq<Byte>>
    var nextId: Id
    ghost var world: World.World

    /** The elements there are: sentinels and buckets, freed ones too. */
    ghost var elems: set<Elem>

    ghost predicate Valid()
      reads this, elems
    {
      && world.m.next.Keys <= elems
      && World.Inv(world)
      && RingMacros.Holds(LINK, world.m)
      && Filed(world.s)
    }

    /** The fields hold the buckets and resources of `s`. */
    ghost predicate Filed(s: Store)
      reads this
    {
      && bucket == s.bucket && shared == s.shared && fixed == s.fixed
      && (forall r | r in s.shared :: r < nextId)
      && (forall r | r in s.fixed :: r < nextId)
      && (forall r | r in s.freed :: r < nextId)
    }

    constructor ()
      ensures Valid() && world == World.World(Memory(map[], map[]), map[], Store(map[], map[], map[], []), {})
    {
      bucket, shared, fixed, nextId := map[], map[], map[], 0;
      world := World.World(Memory(map[], map[]), map[], Store(map[], map[], map[], []), {});
      elems := {};
    }

    /** What the links hold when a new element has been added to the others. */
    lemma AddedHolds(e: Elem, next: Elem, prev: Elem)
      requires RingMacros.Holds(LINK, world.m) && e !in world.m.next
      requires LINK in e.entry && e.entry[LINK] == Entry(next, prev)
      ensures RingMacros.Holds(LINK, Memory(world.m.next[e := next], world.m.prev[e := prev]))
    {
      var m' := Memory(world.m.next[e := next], world.m.prev[e := prev]);
      forall x | x in m'.next
        ensures RingMacros.Has(x, LINK, m')
      {
        if x != e {
          assert RingMacros.Has(x, LINK, world.m);
        }
      }
    }

    /** A new element, its links initialized: `APR_BUCKET_INIT`, or `APR_RING_INIT` for a head. */
    method NewElem() returns (e: Elem)
      requires World.Inv(world) && RingMacros.Holds(LINK, world.m)
      ensures fresh(e) && RingMacros.Holds(LINK, World.Grown(world, e).m)
      ensures LINK in e.entry && e.entry[LINK] == Entry(e, e)
      ensures e !in world.m.next && e !in world.s.bucket
    {
      e := new Elem({LINK});
      ghost var x := e.entry[LINK];
      AddedHolds(e, x.next, x.prev);
      RingMacros.ElemInit(e, LINK, Memory(world.m.next[e := x.next], world.m.prev[e := x.prev]));
      assert Selfed(Memory(world.m.next[e := x.next], world.m.prev[e := x.prev]), e) == World.Grown(world, e).m;
      assert RingMacros.Has(e, LINK, World.Grown(world, e).m);
      World.AddedFilled(world, e, true);
    }

    /** A new element, its links those of another: the struct assignment of `apr_bucket_simple_copy`. */
    method CloneElem(a: Elem) returns (e: Elem)
      requires World.Inv(world) && RingMacros.Holds(LINK, world.m) && a in world.m.next
      ensures fresh(e) && RingMacros.Holds(LINK, World.Cloned(world, a, e).m)
      ensures LINK in a.entry && LINK in e.entry && e.entry[LINK] == a.entry[LINK]
      ensures e !in world.m.next && e !in world.s.bucket
    {
      assert RingMacros.Has(a, LINK, world.m);
      e := new Elem.CopyOf(a);
      AddedHolds(e, world.m.next[a], world.m.prev[a]);
      World.AddedFilled(world, e, false);
    }

    /** The elements and fields hold `w` by now. */
    ghost method Commit(w: World.World)
      requires w.m.next.Keys == world.m.next.Keys <= elems
      requires World.Inv(w) && RingMacros.Holds(LINK, w.m) && Filed(w.s)
      modifies this`world
      ensures Valid() && world == w && elems == old(elems)
    {
      world := w;
    }

    /** The same with a new element. */
    ghost method CommitNew(e: Elem, w: World.World)
      requires world.m.next.Keys <= elems && w.m.next.Keys == world.m.next.Keys + {e}
      requires World.Inv(w) && RingMacros.Holds(LINK, w.m) && Filed(w.s)
      modifies this`world, this`elems
      ensures Valid() && world == w && elems == old(elems) + {e}
    {
      elems, world := elems + {e}, w;
    }

    method NewBrigade() returns (h: Elem)
      requires Valid()
      modifies this`world, this`elems
      ensures Valid() && fresh(h) && elems == old(elems) + {h} && World.May(old(world), World.NewBrigade(h))
      ensures world == World.Step(old(world), World.NewBrigade(h))
      ensures LINK in h.entry && h.entry[LINK] == Entry(h, h)
    {
      h := NewElem();
      World.StepInv(world, World.NewBrigade(h));
      CommitNew(h, World.Step(world, World.NewBrigade(h)));
    }

    // Buckets made.

    /** `apr_bucket_shared_make`: the bucket's own fields, and a reference count of 1. */
    method SharedMake(e: Elem, bytes: seq<Byte>, start: nat, length: nat, ghost s: Store, ghost m: Memory)
      requires Filed(s) && e !in s.bucket && RingMacros.Holds(LINK, m)
      modifies this`bucket, this`shared, this`nextId
      ensures Filed(SharedMade(s, e, old(nextId), bytes, start, length)) && RingMacros.Holds(LINK, m)
      ensures bucket == old(bucket)[e := Shared(start, length, old(nextId))]
      ensures shared == old(shared)[old(nextId) := Resource(bytes, 1)]
    {
      bucket := bucket[e := Shared(start, length, nextId)];
      shared := shared[nextId := Resource(bytes, 1)];
      nextId := nextId + 1;
    }

    /** `apr_bucket_immortal_make`: the same for data that is not counted. */
    method ImmortalMake(e: Elem, bytes: seq<Byte>, ghost s: Store, ghost m: Memory)
      requires Filed(s) && e !in s.bucket && RingMacros.Holds(LINK, m)
      modifies this`bucket, this`fixed, this`nextId
      ensures Filed(SimpleMade(s, e, old(nextId), bytes)) && RingMacros.Holds(LINK, m)
      ensures bucket == old(bucket)[e := Simple(0, |bytes|, old(nextId))]
      ensures fixed == old(fixed)[old(nextId) := bytes]
    {
      fixed := fixed[nextId := bytes];
      bucket := bucket[e := Simple(0, |bytes|, nextId)];
      nextId := nextId + 1;
    }

    /** A heap bucket over the first `length` bytes of a block of its own, which is counted once.  It has
        the whole block, or, when the block is a buffer to be written into, none of it yet. */
    method HeapCreate(bytes: seq<Byte>, length: nat) returns (e: Elem)
      requires Valid() && length <= |bytes|
      modifies this
      ensures Valid() && fresh(e) && elems == old(elems) + {e}
      ensures World.May(old(world), World.Make(MakeShared(e, old(nextId), bytes, 0, length)))
      ensures world == World.Step(old(world), World.Make(MakeShared(e, old(nextId), bytes, 0, length)))
      ensures bucket == old(bucket)[e := Shared(0, length, old(nextId))] && fixed == old(fixed)
      ensures old(nextId) !in old(shared) && shared == old(shared)[old(nextId) := Resource(bytes, 1)]
    {
      e := NewElem();
      ghost var make := MakeShared(e, nextId, bytes, 0, length);
      World.MakeStep(world, make);
      SharedMake(e, bytes, 0, length, world.s, World.Grown(world, e).m);
      CommitNew(e, World.Step(world, World.Make(make)));
    }

    /** An immortal or transient bucket: its data is not counted. */
    method SimpleCreate(bytes: seq<Byte>) returns (e: Elem)
      requires Valid()
      modifies this
      ensures Valid() && fresh(e) && elems == old(elems) + {e}
      ensures World.May(old(world), World.Make(MakeSimple(e, old(nextId), bytes)))
      ensures world == World.Step(old(world), World.Make(MakeSimple(e, old(nextId), bytes)))
      ensures bucket == old(bucket)[e := Simple(0, |bytes|, old(nextId))] && shared == old(shared)
      ensures old(nextId) !in old(fixed) && fixed == old(fixed)[old(nextId) := bytes]
    {
      e := NewElem();
      ghost var make := MakeSimple(e, nextId, bytes);
      World.MakeStep(world, make);
      ImmortalMake(e, bytes, world.s, World.Grown(world, e).m);
      CommitNew(e, World.Step(world, World.Make(make)));
    }

    /** An EOS or FLUSH bucket. */
    method MetadataCreate(name: string) returns (e: Elem)
      requires Valid()
      modifies this
      ensures Valid() && fresh(e) && elems == old(elems) + {e}
      ensures World.May(old(world), World.Make(MakeMetadata(e, name)))
      ensures world == World.Step(old(world), World.Make(MakeMetadata(e, name)))
      ensures bucket == old(bucket)[e := Metadata(name)] && shared == old(shared) && fixed == old(fixed)
      ensures LINK in e.entry && e.entry[LINK] == Entry(e, e)
    {
      e := NewElem();
      ghost var act := World.Make(MakeMetadata(e, name));
      World.MakeStep(world, MakeMetadata(e, name));
      bucket := bucket[e := Metadata(name)];
      CommitNew(e, World.Step(world, act));
    }

    // The list macros.

    method InsertHead(h: Elem, e: Elem)
      requires Valid() && World.May(world, World.Link(Ring.InsertHead(h, e)))
      modifies this`world, elems
      ensures Valid() && elems == old(elems) && world == World.Step(old(world), World.Link(Ring.InsertHead(h, e)))
    {
      ghost var act := World.Link(Ring.InsertHead(h, e));
      World.LinkStep(world, Ring.InsertHead(h, e));
      RingMacros.InsertHead(h, e, LINK, world.m);
      Commit(World.Step(world, act));
    }

    method InsertTail(h: Elem, e: Elem)
      requires Valid() && World.May(world, World.Link(Ring.InsertTail(h, e)))
      modifies this`world, elems
      ensures Valid() && elems == old(elems) && world == World.Step(old(world), World.Link(Ring.InsertTail(h, e)))
      ensures bucket == old(bucket) && shared == old(shared) && fixed == old(fixed)
    {
      ghost var act := World.Link(Ring.InsertTail(h, e));
      World.LinkStep(world, Ring.InsertTail(h, e));
      RingMacros.InsertTail(h, e, LINK, world.m);
      Commit(World.Step(world, act));
    }

    method InsertBefore(a: Elem, e: Elem)
      requires Valid() && World.May(world, World.Link(Ring.InsertBefore(a, e)))
      modifies this`world, elems
      ensures Valid() && elems == old(elems) && world == World.Step(old(world), World.Link(Ring.InsertBefore(a, e)))
    {
      ghost var act := World.Link(Ring.InsertBefore(a, e));
      World.LinkStep(world, Ring.InsertBefore(a, e));
      RingMacros.InsertBefore(a, e, LINK, world.m);
      Commit(World.Step(world, act));
    }

    method InsertAfter(a: Elem, e: Elem)
      requires Valid() && World.May(world, World.Link(Ring.InsertAfter(a, e)))
      modifies this`world, elems
      ensures Valid() && elems == old(elems) && world == World.Step(old(world), World.Link(Ring.InsertAfter(a, e)))
    {
      ghost var act := World.Link(Ring.InsertAfter(a, e));
      World.LinkStep(world, Ring.InsertAfter(a, e));
      RingMacros.InsertAfter(a, e, LINK, world.m);
      Commit(World.Step(world, act));
    }

    method Remove(e: Elem)
      requires Valid() && World.May(world, World.Link(Ring.Remove(e)))
      modifies this`world, elems
      ensures Valid() && elems == old(elems) && world == World.Step(old(world), World.Link(Ring.Remove(e)))
    {
      ghost var act := World.Link(Ring.Remove(e));
      World.LinkStep(world, Ring.Remove(e));
      RingMacros.Remove(e, LINK, world.m);
      Commit(World.Step(world, act));
    }

    method Concat(a: Elem, b: Elem)
      requires Valid() && World.May(world, World.Link(Ring.Concat(a, b)))
      modifies this`world, elems
      ensures Valid() && elems == old(elems) && world == World.Step(old(world), World.Link(Ring.Concat(a, b)))
    {
      ghost var act := World.Link(Ring.Concat(a, b));
      World.ConcatStep(world, a, b);
      RingMacros.Concat(a, b, LINK, world.m);
      Commit(World.Step(world, act));
    }

    method Prepend(a: Elem, b: Elem)
      requires Valid() && World.May(world, World.Link(Ring.Prepend(a, b)))
      modifies this`world, elems
      ensures Valid() && elems == old(elems) && world == World.Step(old(world), World.Link(Ring.Prepend(a, b)))
    {
      ghost var act := World.Link(Ring.Prepend(a, b));
      World.ConcatStep(world, a, b);
      RingMacros.Prepend(a, b, LINK, world.m);
      Commit(World.Step(world, act));
    }

    // apr_bucket_shared_destroy, apr_bucket_destroy, apr_bucket_delete

    /** Decrements the reference count; true when it is now zero. */
    method SharedDestroy(r: Id) returns (zero: bool)
      requires r in shared && shared[r].refcount > 0
      modifies this`shared
      ensures shared == old(shared)[r := old(shared)[r].(refcount := old(shared)[r].refcount - 1)]
      ensures zero <==> old(shared)[r].refcount == 1
    {
      shared := shared[r := shared[r].(refcount := shared[r].refcount - 1)];
      zero := shared[r].refcount == 0;
    }

    /** The type's destroy function, then the bucket's own memory. */
    method FreeBucket(e: Elem, ghost s: Store, ghost m: Memory)
      requires RingMacros.Holds(LINK, m) && Filed(s) && BucketStore.Valid(s) && e in s.bucket
      modifies this`bucket, this`shared
      ensures Filed(BucketStore.Destroyed(s, e)) && RingMacros.Holds(LINK, m)
    {
      assert BucketOk(s, bucket[e]);
      if bucket[e].Shared? {
        var r := bucket[e].data;
        assert CountOk(s, r);
        var zero := SharedDestroy(r);
        if zero {
          shared := shared - {r};
          assert shared == s.shared - {r};
        }
      }
      bucket := bucket - {e};
    }

    method Destroy(e: Elem)
      requires Valid() && World.May(world, World.Destroy(e))
      modifies this`bucket, this`shared, this`world
      ensures Valid() && world == World.Step(old(world), World.Destroy(e))
      ensures world.m == old(world.m) && elems == old(elems) && bucket == old(bucket) - {e}
    {
      World.StepInv(world, World.Destroy(e));
      OneGone(world.s, e);
      FreeBucket(e, world.s, world.m);
      Commit(World.Step(world, World.Destroy(e)));
    }

    method Delete(e: Elem)
      requires Valid() && World.May(world, World.Delete(e))
      modifies this`bucket, this`shared, this`world, elems
      ensures Valid() && elems == old(elems) && world == World.Step(old(world), World.Delete(e))
      ensures bucket == old(bucket) - {e}
    {
      World.RemovedLoose(world, e);
      Remove(e);
      Destroy(e);
    }

    // apr_bucket_shared_copy, apr_bucket_shared_split

    /** The bucket structure duplicated as `b`, the reference count incremented. */
    method Duplicate(a: Elem, b: Elem, ghost s: Store, ghost m: Memory)
      requires RingMacros.Holds(LINK, m) && Filed(s) && BucketStore.Valid(s) && a in s.bucket && b !in s.bucket
      modifies this`bucket, this`shared
      ensures Filed(Copied(s, a, b)) && RingMacros.Holds(LINK, m)
      ensures bucket == old(bucket)[b := old(bucket)[a]]
    {
      assert BucketOk(s, bucket[a]);
      if bucket[a].Shared? {
        var r := bucket[a].data;
        shared := shared[r := shared[r].(refcount := shared[r].refcount + 1)];
      }
      bucket := bucket[b := bucket[a]];
    }

    method Copy(a: Elem) returns (b: Elem)
      requires Valid() && a in bucket
      modifies this`bucket, this`shared, this`world, this`elems
      ensures Valid() && fresh(b) && elems == old(elems) + {b} && World.May(old(world), World.Copy(a, b))
      ensures world == World.Step(old(world), World.Copy(a, b))
      ensures bucket == old(bucket)[b := old(bucket)[a]]
      ensures LINK in a.entry && LINK in b.entry && b.entry[LINK] == a.entry[LINK] == old(a.entry)[LINK]
    {
      b := CloneElem(a);
      World.StepInv(world, World.Copy(a, b));
      Duplicate(a, b, world.s, World.Cloned(world, a, b).m);
      CommitNew(b, World.Step(world, World.Copy(a, b)));
    }

    /** `a` keeps the bytes before `point`, a new bucket after it gets the rest. */
    method Split(a: Elem, point: nat) returns (status: Status, b: Elem)
      requires Valid() && a in bucket && World.OnBrigade(world, a)
      modifies this`bucket, this`shared, this`world, this`elems, elems
      ensures Valid() && status == SplitStatus(old(bucket)[a], point)
      ensures status == EInval <==> !old(bucket)[a].Metadata? && point > old(bucket)[a].length
      ensures status == ENotImpl <==> old(bucket)[a].Metadata?
      ensures status == Success <==> !old(bucket)[a].Metadata? && point <= old(bucket)[a].length
      ensures status != Success ==> world == old(world)
      ensures status == Success ==> fresh(b) && World.May(old(world), World.Split(a, point, b))
      ensures status == Success ==> world == World.Step(old(world), World.Split(a, point, b))
      ensures elems == if status == Success then old(elems) + {b} else old(elems)
    {
      if bucket[a].Metadata? {
        return ENotImpl, a;
      }
      if point > bucket[a].length {
        return EInval, a;
      }
      status := Success;
      b := SplitInTwo(a, point);
    }

    /** A copy of `a`, on no brigade yet, and the bytes divided between the two. */
    method Halve(a: Elem, point: nat) returns (b: Elem)
      requires Valid() && a in bucket && SplitStatus(bucket[a], point) == Success
      modifies this`bucket, this`shared
      ensures fresh(b) && World.MayClone(world, a, b)
      ensures Filed(SplitAt(world.s, a, point, b)) && RingMacros.Holds(LINK, World.Cloned(world, a, b).m)
    {
      b := CloneElem(a);
      Divide(a, point, b, world.s, World.Cloned(world, a, b).m);
    }

    /** `APR_BUCKET_INSERT_AFTER` of a bucket just made: only links change. */
    method LinkAfter(a: Elem, b: Elem, ghost s: Store, ghost m: Memory)
      requires Filed(s) && RingMacros.Holds(LINK, m)
      requires a in m.next && b in m.next && m.next[a] in m.next && a != b && m.next[a] != b
      modifies m.next.Keys
      ensures Filed(s) && world == old(world) && elems == old(elems)
      ensures RingMacros.Holds(LINK, Joined(m, a, b, b, m.next[a]))
    {
      RingMacros.InsertAfter(a, b, LINK, m);
    }

    method SplitInTwo(a: Elem, point: nat) returns (b: Elem)
      requires Valid() && a in bucket && World.OnBrigade(world, a) && SplitStatus(bucket[a], point) == Success
      modifies this`bucket, this`shared, this`world, this`elems, elems
      ensures Valid() && fresh(b) && World.May(old(world), World.Split(a, point, b))
      ensures world == World.Step(old(world), World.Split(a, point, b))
      ensures elems == old(elems) + {b}
    {
      b := Halve(a, point);
      World.SplitStep(world, a, point, b);
      LinkAfter(a, b, SplitAt(world.s, a, point, b), World.Cloned(world, a, b).m);
      CommitNew(b, World.Step(world, World.Split(a, point, b)));
    }

    /** The bytes of `a` from `point` on go to a duplicate `b` of it. */
    method Divide(a: Elem, point: nat, b: Elem, ghost s: Store, ghost m: Memory)
      requires RingMacros.Holds(LINK, m) && Filed(s) && BucketStore.Valid(s) && a in s.bucket && b !in s.bucket
      requires SplitStatus(s.bucket[a], point) == Success
      modifies this`bucket, this`shared
      ensures Filed(SplitAt(s, a, point, b)) && RingMacros.Holds(LINK, m)
    {
      var whole := bucket[a];
      Duplicate(a, b, s, m);
      bucket := bucket[a := whole.(length := point)];
      bucket := bucket[b := whole.(start := whole.start + point, length := whole.length - point)];
    }

    // apr_brigade_cleanup, apr_brigade_split_ex

    lemma HeadRing(h: Elem)
      requires Valid() && h in world.heads
      ensures h in world.m.next && IsRing(world.m, h, Splits.ListOf(world, h))
      ensures world.m.next[h] in world.m.next && world.m.prev[h] in world.m.next
    {
      World.HeadFilled(world, h);
      Ring.HeadDenotes(world.m, world.L, h);
      PathAt(world.m, world.L, h, 0);
      assert BlockOk(world.m, h, world.L[h]);
      assert Path(world.L[h])[1] in world.L[h].nodes;
    }

    /** `APR_BRIGADE_EMPTY` */
    method IsEmpty(b: Elem) returns (empty: bool)
      requires Valid() && b in world.heads
      ensures empty <==> Splits.ListOf(world, b) == []
    {
      HeadRing(b);
      empty := RingMacros.IsEmpty(b, LINK, world.m, Splits.ListOf(world, b));
    }

    /** The first bucket of a brigade that is not empty. */
    lemma FirstBucket(h: Elem)
      requires Valid() && h in world.heads && Splits.ListOf(world, h) != []
      ensures h in world.m.next && world.m.next[h] == Splits.ListOf(world, h)[0]
    {
      World.HeadFilled(world, h);
      PathAt(world.m, world.L, h, 0);
    }

    /** `while (!APR_BRIGADE_EMPTY(b))` the first bucket is deleted. */
    method Cleanup(b: Elem)
      requires Valid() && b in world.heads
      modifies this`bucket, this`shared, this`world, elems
      ensures Valid() && elems == old(elems)
      ensures world == World.Run(old(world), Splits.DeleteAll(Splits.ListOf(old(world), b)))
    {
      while true
        invariant Valid() && b in world.heads
        invariant World.Run(world, Splits.DeleteAll(Splits.ListOf(world, b)))
                  == World.Run(old(world), Splits.DeleteAll(Splits.ListOf(old(world), b)))
        decreases |Splits.ListOf(world, b)|
      {
        var empty := IsEmpty(b);
        if empty {
          break;
        }
        FirstBucket(b);
        var e := RingMacros.Next(b, LINK, world.m);
        World.HeadFilled(world, b);
        Splits.DeleteFirst(world, b);
        Delete(e);
      }
    }

    method Unsplice(e: Elem, f: Elem)
      requires Valid() && World.May(world, World.Link(Ring.Unsplice(e, f)))
      modifies this`world, elems
      ensures Valid() && elems == old(elems) && world == World.Step(old(world), World.Link(Ring.Unsplice(e, f)))
    {
      World.LinkStep(world, Ring.Unsplice(e, f));
      RingMacros.Unsplice(e, f, LINK, world.m);
      Commit(World.Step(world, World.Link(Ring.Unsplice(e, f))));
    }

    method SpliceHead(h: Elem, e: Elem, f: Elem)
      requires Valid() && World.May(world, World.Link(Ring.SpliceHead(h, e, f)))
      modifies this`world, elems
      ensures Valid() && elems == old(elems) && world == World.Step(old(world), World.Link(Ring.SpliceHead(h, e, f)))
    {
      World.LinkStep(world, Ring.SpliceHead(h, e, f));
      RingMacros.SpliceHead(h, e, f, LINK, world.m);
      Commit(World.Step(world, World.Link(Ring.SpliceHead(h, e, f))));
    }

    /** A brigade for the second half: a new one, or the one given, emptied first if need be. */
    method SecondBrigade(b: Elem, given: Elem?) returns (a: Elem, ghost acts: seq<World.Act>)
      requires Valid() && b in world.heads && (given != null ==> given in world.heads && given != b)
      modifies this`bucket, this`shared, this`world, this`elems, elems
      ensures Valid() && (if given == null then fresh(a) else a == given)
      ensures World.MayRun(old(world), acts) && world == World.Run(old(world), acts)
      ensures Splits.Emptied(old(world), world, b, a) && (given == null ==> world.s == old(world.s))
      ensures forall x | x in elems :: x in old(elems) || fresh(x)
    {
      if given == null {
        a := NewBrigade();
        acts := [World.NewBrigade(a)];
        Splits.NewEmptied(old(world), b, a);
      } else {
        a := given;
        Splits.CleanedEmptied(world, b, a);
        acts := Splits.DeleteAll(Splits.ListOf(world, a));
        var empty := IsEmpty(a);
        if !empty {
          Cleanup(a);
        }
      }
    }

    /** The buckets from `e` on go from `b` to `a`, which has been emptied since `w`. */
    method MoveTail(b: Elem, e: Elem, a: Elem, ghost w: World.World) returns (ghost off: seq<World.Act>)
      requires Valid() && World.Inv(w) && Splits.Emptied(w, world, b, a) && Splits.OnList(w, b, e) && e != b
      modifies this`world, elems
      ensures Valid() && elems == old(elems) && World.MayRun(old(world), off) && world == World.Run(old(world), off)
      ensures world.s == old(world.s)
      ensures Splits.SplitBefore(w, world, b, e, a)
    {
      Splits.SplitAtBucket(w, world, b, e, a);
      HeadRing(b);
      World.HeadFilled(world, b);
      PathAt(world.m, world.L, b, 0);
      var f := RingMacros.Prev(b, LINK, world.m);
      off := Splits.SplitOff(e, f, a);
      Unsplice(e, f);
      SpliceHead(a, e, f);
      Splits.TwoActs(old(world), off[0], off[1]);
    }

    /** The buckets from `e` on go from `b` to `a`; none do when `e` is the sentinel of `b`. */
    method SplitEx(b: Elem, e: Elem, given: Elem?) returns (a: Elem, ghost acts: seq<World.Act>)
      requires Valid() && b in world.heads && Splits.OnList(world, b, e)
      requires given != null ==> given in world.heads && given != b
      modifies this`bucket, this`shared, this`world, this`elems, elems
      ensures Valid() && (if given == null then fresh(a) else a == given)
      ensures World.MayRun(old(world), acts) && world == World.Run(old(world), acts)
      ensures Splits.SplitBefore(old(world), world, b, e, a) && (given == null ==> world.s == old(world.s))
      ensures forall x | x in elems :: x in old(elems) || fresh(x)
    {
      a, acts := SecondBrigade(b, given);
      if e != b {
        ghost var off := MoveTail(b, e, a, old(world));
        Splits.RunAppend(old(world), acts, off);
        acts := acts + off;
      } else {
        Splits.SplitAtSentinel(old(world), world, b, a);
      }
    }

    // apr_brigade_partition

    /** The bucket split where the point falls within it. */
    method PartWithin(b: Elem, e: Elem, left: nat, ghost i: int, ghost point: nat)
      returns (after: Elem, ghost acts: seq<World.Act>)
      requires Valid() && b in world.heads && Splits.Reached(world, b, e, i, left, point) && e != b
      requires e in bucket && left < Length(bucket[e])
      modifies this`bucket, this`shared, this`world, this`elems, elems
      ensures Valid() && Splits.SameMeanings(old(world), world)
      ensures World.MayRun(old(world), acts) && world == World.Run(old(world), acts)
      ensures Splits.SplitsOne(old(world), b, acts, after)
      ensures forall x | x in elems :: x in old(elems) || fresh(x)
      ensures point <= |Splits.WholeOf(old(world), b).bytes|
      ensures Splits.Parted(world, b, after, Splits.WholeOf(old(world), b), point)
    {
      Splits.StandsAt(world, b, e, i);
      var status, n := Split(e, left);
      assert status == Success;
      assert forall x | x in elems :: x in old(elems) || fresh(x);
      Splits.ReachedInside(old(world), b, e, i, left, point, n);
      Splits.PointWithin(world, b, n, Splits.WholeOf(old(world), b), point);
      Splits.SplitInside(old(world), world, b, e, i, left, n);
      after := RingMacros.Next(e, LINK, world.m);
      acts := [World.Split(e, left, n)];
    }

    /** The first bucket after `point` bytes, split off where the point falls within a bucket. */
    method Partition(b: Elem, point: int) returns (status: Status, after: Elem, ghost acts: seq<World.Act>)
      requires Valid() && b in world.heads
      modifies this`bucket, this`shared, this`world, this`elems, elems
      ensures Valid() && Splits.SameMeanings(old(world), world)
      ensures World.MayRun(old(world), acts) && world == World.Run(old(world), acts)
      ensures acts == [] || Splits.SplitsOne(old(world), b, acts, after)
      ensures forall x | x in elems :: x in old(elems) || fresh(x)
      ensures acts == [] ==> world == old(world)
      ensures status == if point < 0 then EInval
                        else if point <= |Splits.WholeOf(old(world), b).bytes| then Success
                        else Incomplete
      ensures status == Success ==> Splits.Parted(world, b, after, Splits.WholeOf(old(world), b), point)
      ensures status != Success ==> acts == [] && after == b
    {
      acts := [];
      if point < 0 {
        return EInval, b, [];
      }
      HeadRing(b);
      if point == 0 {
        Splits.PartedAtFirst(world, b);
        after := RingMacros.Next(b, LINK, world.m);
        return Success, after, [];
      }
      var point64 := point;
      var e := RingMacros.Next(b, LINK, world.m);
      Splits.StandsFirst(world, b);
      ghost var i := 0;
      while e != b
        invariant Valid() && world == old(world) && elems == old(elems)
        invariant Splits.Reached(world, b, e, i, point64, point)
        decreases |Splits.ListOf(world, b)| - i
      {
        Splits.StandsAt(world, b, e, i);
        var length := Length(bucket[e]);
        if point64 < length {
          after, acts := PartWithin(b, e, point64, i, point);
          return Success, after, acts;
        }
        if point64 == length {
          Splits.ReachedBetween(world, b, e, i, point64, point);
          after := RingMacros.Next(e, LINK, world.m);
          return Success, after, [];
        }
        point64 := point64 - length;
        e := RingMacros.Next(e, LINK, world.m);
        i := i + 1;
      }
      Splits.ReachedEnd(world, b, i, point64, point);
      return Incomplete, b, [];
    }

    /** The brigade split at the bucket that a partition has found. */
    method SplitParted(b: Elem, after: Elem, given: Elem?, ghost whole: Meaning, ghost point: nat) returns (a: Elem)
      requires Valid() && b in world.heads && (given != null ==> given in world.heads && given != b)
      requires Splits.Parted(world, b, after, whole, point)
      modifies this`bucket, this`shared, this`world, this`elems, elems
      ensures Valid() && (if given == null then fresh(a) else a == given)
      ensures Splits.SplitBefore(old(world), world, b, after, a) && (given == null ==> world.s == old(world.s))
      ensures Splits.InTwo(world, b, a, whole, point)
      ensures forall x | x in elems :: x in old(elems) || fresh(x)
    {
      ghost var acts;
      a, acts := SplitEx(b, after, given);
      Splits.PartitionThenSplit(old(world), world, b, after, a, whole, point);
    }

    /** Partition, and split at the bucket found: the first `point` bytes stay, the rest goes to `a`. */
    method PartitionAndSplit(b: Elem, point: int, given: Elem?)
      returns (status: Status, a: Elem, ghost mid: World.World, ghost parts: seq<World.Act>, ghost after: Elem)
      requires Valid() && b in world.heads && (given != null ==> given in world.heads && given != b)
      modifies this`bucket, this`shared, this`world, this`elems, elems
      ensures Valid()
      ensures status == if point < 0 then EInval
                        else if point <= |Splits.WholeOf(old(world), b).bytes| then Success
                        else Incomplete
      ensures status != Success ==> world == old(world)
      ensures status == Success ==> if given == null then fresh(a) else a == given
      ensures status == Success ==> Splits.InTwo(world, b, a, Splits.WholeOf(old(world), b), point)
      ensures status == Success ==> Splits.Throughout(old(world), mid, world, b, a, parts, after)
      ensures status == Success && given == null ==> world.s == mid.s
      ensures forall x | x in elems :: x in old(elems) || fresh(x)
    {
      var place;
      status, place, parts := Partition(b, point);
      mid, after, a := world, place, b;
      if status == Success {
        a := SplitParted(b, place, given, Splits.WholeOf(old(world), b), point);
        assert forall x | x in elems :: x in old(elems) || fresh(x);
        Splits.OthersThroughout(old(world), mid, world, b, a, parts, place);
      }
    }

    // apr_brigade_write

    /** Memory for a buffer; what it holds is not known. */
    method NewBlock(n: nat) returns (block: seq<Byte>)
      ensures |block| == n
    {
      block := seq(n, _ => 0);
    }

    /** `memcpy` to behind the bucket's own bytes, which then are more. */
    method PutFields(e: Elem, data: seq<Byte>, ghost s: Store, ghost m: Memory)
      requires Filed(s) && HasRoom(s, e, |data|) && RingMacros.Holds(LINK, m)
      modifies this`bucket, this`shared
      ensures Filed(Extended(s, e, data)) && RingMacros.Holds(LINK, m)
      ensures Put(old(bucket), old(shared), bucket, shared, e, data)
    {
      var r := bucket[e].data;
      var at := bucket[e].start + bucket[e].length;
      shared := shared[r := shared[r].(bytes := Overwritten(shared[r].bytes, at, data))];
      bucket := bucket[e := Shared(bucket[e].start, bucket[e].length + |data|, r)];
    }

    method PutBytes(e: Elem, data: seq<Byte>)
      requires Valid() && HasRoom(world.s, e, |data|)
      modifies this`bucket, this`shared, this`world
      ensures Valid() && world == World.Step(old(world), World.Extend(e, data))
      ensures world.m == old(world.m) && elems == old(elems)
      ensures Put(old(bucket), old(shared), bucket, shared, e, data)
    {
      World.ExtendInv(world, e, data);
      PutFields(e, data, world.s, world.m);
      Commit(World.Step(world, World.Extend(e, data)));
    }

    /** A new heap bucket at the end of a brigade. */
    method HeapTail(b: Elem, bytes: seq<Byte>, length: nat) returns (e: Elem)
      requires Valid() && b in world.heads && length <= |bytes|
      modifies this, elems
      ensures Valid() && fresh(e) && elems == old(elems) + {e}
      ensures Splits.ListOf(world, b) == Splits.ListOf(old(world), b) + [e]
      ensures World.MayMake(old(world), MakeShared(e, old(nextId), bytes, 0, length))
      ensures world == World.Run(old(world), Writes.NewTail(b, MakeShared(e, old(nextId), bytes, 0, length)))
      ensures bucket == old(bucket)[e := Shared(0, length, old(nextId))] && fixed == old(fixed)
      ensures old(nextId) !in old(shared) && shared == old(shared)[old(nextId) := Resource(bytes, 1)]
    {
      ghost var r := nextId;
      e := HeapCreate(bytes, length);
      InsertNew(b, MakeShared(e, r, bytes, 0, length), old(world));
      InsertTail(b, e);
    }

    /** A new transient bucket at the end of a brigade. */
    method SimpleTail(b: Elem, bytes: seq<Byte>) returns (e: Elem)
      requires Valid() && b in world.heads
      modifies this, elems
      ensures Valid() && fresh(e) && elems == old(elems) + {e}
      ensures Splits.ListOf(world, b) == Splits.ListOf(old(world), b) + [e]
      ensures World.MayMake(old(world), MakeSimple(e, old(nextId), bytes))
      ensures world == World.Run(old(world), Writes.NewTail(b, MakeSimple(e, old(nextId), bytes)))
      ensures bucket == old(bucket)[e := Simple(0, |bytes|, old(nextId))] && shared == old(shared)
      ensures old(nextId) !in old(fixed) && fixed == old(fixed)[old(nextId) := bytes]
    {
      ghost var d := nextId;
      e := SimpleCreate(bytes);
      InsertNew(b, MakeSimple(e, d, bytes), old(world));
      InsertTail(b, e);
    }

    /** The new bucket may be inserted, which makes the two steps one run. */
    lemma InsertNew(b: Elem, make: BucketStore.Act, w: World.World)
      requires World.Inv(w) && b in w.heads && World.MayMake(w, make) && (make.MakeShared? || make.MakeSimple?)
      requires world == World.Step(w, World.Make(make))
      ensures World.May(world, World.Link(Ring.InsertTail(b, make.e)))
      ensures World.Step(world, World.Link(Ring.InsertTail(b, make.e))) == World.Run(w, Writes.NewTail(b, make))
      ensures Splits.ListOf(World.Run(w, Writes.NewTail(b, make)), b) == Splits.ListOf(w, b) + [make.e]
    {
      Writes.MadeElsewhere(w, b, make);
      Writes.InsertTailLists(world, b, make.e);
      Splits.TwoActs(w, World.Make(make), World.Link(Ring.InsertTail(b, make.e)));
    }

    /** The last bucket of a brigade, with the room there is behind its bytes; the size of a new
        buffer when it is not one to write into. */
    method Room(b: Elem) returns (e: Elem, remaining: int, buffered: bool)
      requires Valid() && b in world.heads
      ensures remaining == Writes.Remaining(world, b) && (buffered <==> Writes.EndsInHeap(world, b))
      ensures Splits.ListOf(world, b) != [] ==> e == Writes.LastOf(world, b) && e in bucket
      ensures buffered <==> Splits.ListOf(world, b) != [] && bucket[e].Shared?
      ensures buffered ==> bucket[e].data in shared
      ensures remaining == if buffered
                           then |shared[bucket[e].data].bytes| - (bucket[e].start + bucket[e].length)
                           else 8000
      ensures remaining >= 0 && (buffered ==> HasRoom(world.s, e, remaining))
    {
      HeadRing(b);
      e := RingMacros.Prev(b, LINK, world.m);
      remaining, buffered := Writes.BUFF_SIZE, false;
      var empty := IsEmpty(b);
      if !empty {
        Writes.LastBucket(world, b);
        if bucket[e].Shared? {
          remaining := |shared[bucket[e].data].bytes| - (bucket[e].length + bucket[e].start);
          buffered := true;
        }
      }
    }

    /** More bytes than there is room for: a bucket of their own. */
    method WriteOwn(b: Elem, flush: bool, str: seq<Byte>) returns (ghost e: Elem, ghost acts: seq<World.Act>)
      requires Valid() && b in world.heads
      modifies this, elems
      ensures Valid() && World.MayRun(old(world), acts) && world == World.Run(old(world), acts)
      ensures fresh(e) && Splits.ListOf(world, b) == Splits.ListOf(old(world), b) + [e]
      ensures flush ==>
                && bucket == old(bucket)[e := Simple(0, |str|, old(nextId))] && shared == old(shared)
                && old(nextId) !in old(fixed) && fixed == old(fixed)[old(nextId) := str]
      ensures !flush ==>
                && bucket == old(bucket)[e := Shared(0, |str|, old(nextId))] && fixed == old(fixed)
                && old(nextId) !in old(shared) && shared == old(shared)[old(nextId) := Resource(str, 1)]
      ensures Writes.Wrote(old(world), world, b, str) && Writes.WroteOnly(old(world), world, b)
      ensures forall x | x in elems :: x in old(elems) || fresh(x)
    {
      ghost var id := nextId;
      ghost var make;
      if flush {
        var x := SimpleTail(b, str);
        make, e := MakeSimple(x, id, str), x;
      } else {
        var x := HeapTail(b, str, |str|);
        make, e := MakeShared(x, id, str, 0, |str|), x;
      }
      acts := Writes.NewTail(b, make);
      Writes.WroteOwn(old(world), b, make, str);
      Writes.WroteOnlyTail(old(world), b, make);
      Writes.NewTailKeys(old(world), b, make);
    }

    /** A new buffer at the end of a brigade. */
    method AddBuffer(b: Elem, ghost n: nat) returns (e: Elem, ghost acts: seq<World.Act>)
      requires Valid() && b in world.heads && n <= Writes.BUFF_SIZE
      modifies this, elems
      ensures Valid() && World.MayRun(old(world), acts) && world == World.Run(old(world), acts)
      ensures fresh(e) && Splits.ListOf(world, b) == Splits.ListOf(old(world), b) + [e] && b in world.heads
      ensures bucket == old(bucket)[e := Shared(0, 0, old(nextId))] && fixed == old(fixed)
      ensures old(nextId) !in old(shared) && old(nextId) in shared && |shared[old(nextId)].bytes| == 8000
      ensures shared == old(shared)[old(nextId) := Resource(shared[old(nextId)].bytes, 1)]
      ensures HasRoom(world.s, e, n) && Writes.Clear(world.s, e, n)
      ensures Writes.GoesOnWith(old(world), world, b, NOTHING) && Writes.WroteOnly(old(world), world, b)
      ensures forall x | x in elems :: x in old(elems) || fresh(x)
    {
      var block := NewBlock(Writes.BUFF_SIZE);
      ghost var r := nextId;
      e := HeapTail(b, block, 0);
      acts := Writes.NewTail(b, MakeShared(e, r, block, 0, 0));
      Writes.NewTailGoesOn(old(world), b, MakeShared(e, r, block, 0, 0));
      Writes.BufferAdded(old(world), b, e, r, block, n);
      Writes.WroteOnlyTail(old(world), b, MakeShared(e, r, block, 0, 0));
      Writes.NewTailKeys(old(world), b, MakeShared(e, r, block, 0, 0));
    }

    /** The bytes put into the last bucket's block, after what has been done since `w`. */
    method WriteInto(b: Elem, e: Elem, str: seq<Byte>, ghost w: World.World, ghost done: seq<World.Act>)
      returns (ghost acts: seq<World.Act>)
      requires Valid() && World.MayRun(w, done) && world == World.Run(w, done)
      requires b in world.heads && Splits.ListOf(world, b) != [] && Writes.LastOf(world, b) == e
      requires HasRoom(world.s, e, |str|)
      requires Writes.GoesOnWith(w, world, b, NOTHING) && Writes.WroteOnly(w, world, b)
      requires Writes.WriteClear(w, b, |str|) ==> Writes.Clear(world.s, e, |str|)
      modifies this`bucket, this`shared, this`world
      ensures Valid() && acts == done + [World.Extend(e, str)]
      ensures World.MayRun(w, acts) && world == World.Run(w, acts) && world.m == old(world.m) && elems == old(elems)
      ensures Writes.Wrote(w, world, b, str) && Writes.WroteOnly(w, world, b)
      ensures Put(old(bucket), old(shared), bucket, shared, e, str) && fixed == old(fixed)
      ensures Splits.ListOf(world, b) == Splits.ListOf(old(world), b)
    {
      ghost var put := World.Extend(e, str);
      Writes.WroteInto(w, world, b, e, str);
      Splits.OneAct(world, put);
      Splits.RunAppend(w, done, [put]);
      PutBytes(e, str);
      acts := done + [put];
    }

    /** The bytes put into a new buffer. */
    method WriteNew(b: Elem, str: seq<Byte>) returns (ghost e: Elem, ghost acts: seq<World.Act>)
      requires Valid() && b in world.heads && |str| <= Writes.BUFF_SIZE
      modifies this, elems
      ensures Valid() && World.MayRun(old(world), acts) && world == World.Run(old(world), acts)
      ensures fresh(e) && Splits.ListOf(world, b) == Splits.ListOf(old(world), b) + [e]
      ensures bucket == old(bucket)[e := Shared(0, |str|, old(nextId))] && fixed == old(fixed)
      ensures old(nextId) !in old(shared) && old(nextId) in shared && shared[old(nextId)].refcount == 1
      ensures |shared[old(nextId)].bytes| == 8000 && shared[old(nextId)].bytes[..|str|] == str
      ensures shared == old(shared)[old(nextId) := shared[old(nextId)]]
      ensures Writes.Wrote(old(world), world, b, str) && Writes.WroteOnly(old(world), world, b)
      ensures forall x | x in elems :: x in old(elems) || fresh(x)
    {
      var x;
      x, acts := AddBuffer(b, |str|);
      ghost var buckets, blocks, r := bucket, shared, old(nextId);
      acts := WriteInto(b, x, str, old(world), acts);
      PutInBuffer(old(bucket), old(shared), buckets, blocks, bucket, shared, x, r, str);
      e := x;
    }

    /** `apr_brigade_write`: the bytes go into the last bucket's block if there is room, else into a new
        buffer, or a bucket of their own when they are too many.  A flush function, if there is one, is
        to be called then. */
    method Write(b: Elem, flush: bool, str: seq<Byte>)
      returns (flushed: bool, ghost e: Elem, ghost inHeap: bool, ghost room: int, ghost acts: seq<World.Act>)
      requires Valid() && b in world.heads
      modifies this, elems
      ensures Valid() && World.MayRun(old(world), acts) && world == World.Run(old(world), acts)
      ensures Writes.Wrote(old(world), world, b, str) && Writes.WroteOnly(old(world), world, b)
      ensures forall x | x in elems :: x in old(elems) || fresh(x)
      // Whether the brigade ends in a heap bucket, and how much room there is.
      ensures var xs := Splits.ListOf(old(world), b);
              inHeap <==> xs != [] && xs[|xs| - 1] in old(bucket) && old(bucket)[xs[|xs| - 1]].Shared?
      ensures inHeap ==>
                var was := old(bucket)[Splits.ListOf(old(world), b)[|Splits.ListOf(old(world), b)| - 1]];
                was.data in old(shared) && room == |old(shared)[was.data].bytes| - (was.start + was.length)
      ensures !inHeap ==> room == 8000
      ensures flushed <==> flush && |str| > room
      // Too much: a transient bucket over just the bytes when there is a flush function, else a heap bucket.
      ensures |str| > room ==> fresh(e) && Splits.ListOf(world, b) == Splits.ListOf(old(world), b) + [e]
      ensures |str| > room && flush ==>
                && bucket == old(bucket)[e := Simple(0, |str|, old(nextId))] && shared == old(shared)
                && old(nextId) !in old(fixed) && fixed == old(fixed)[old(nextId) := str]
      ensures |str| > room && !flush ==>
                && bucket == old(bucket)[e := Shared(0, |str|, old(nextId))] && fixed == old(fixed)
                && old(nextId) !in old(shared) && shared == old(shared)[old(nextId) := Resource(str, 1)]
      // Room enough, but not in a last bucket: a new buffer.
      ensures |str| <= room && !inHeap ==>
                && fresh(e) && Splits.ListOf(world, b) == Splits.ListOf(old(world), b) + [e] && fixed == old(fixed)
                && bucket == old(bucket)[e := Shared(0, |str|, old(nextId))]
                && old(nextId) !in old(shared) && old(nextId) in shared
                && shared == old(shared)[old(nextId) := shared[old(nextId)]] && shared[old(nextId)].refcount == 1
                && |shared[old(nextId)].bytes| == 8000 && shared[old(nextId)].bytes[..|str|] == str
      // Room in the last bucket's block: there, behind the bucket's own bytes.
      ensures |str| <= room && inHeap ==>
                && Splits.ListOf(world, b) == Splits.ListOf(old(world), b) && fixed == old(fixed)
                && e == Splits.ListOf(world, b)[|Splits.ListOf(world, b)| - 1]
                && Put(old(bucket), old(shared), bucket, shared, e, str) && acts == [World.Extend(e, str)]
    {
      var last, remaining, buffered := Room(b);
      inHeap, room := buffered, remaining;
      if |str| > remaining {
        e, acts := WriteOwn(b, flush, str);
        flushed := flush;
      } else if !buffered {
        e, acts := WriteNew(b, str);
        flushed := false;
      } else {
        Writes.NothingYet(world, b);
        acts := WriteInto(b, last, str, world, []);
        e, flushed := last, false;
      }
    }

    // apr_bucket_read, apr_brigade_flatten

    /** The bytes of a bucket; a metadata bucket has none. */
    method Read(e: Elem) returns (str: seq<Byte>)
      requires Valid() && e in bucket
      ensures str == Segment(world.s, e) && |str| == Length(bucket[e])
    {
      assert BucketOk(world.s, bucket[e]);
      match bucket[e]
      case Shared(start, length, data) => str := shared[data].bytes[start..start + length];
      case Simple(start, length, data) => str := fixed[data][start..start + length];
      case Metadata(_) => str := [];
    }

    /** `memcpy` of the first `n` bytes to position `at`. */
    method CopyIn(c: array<Byte>, at: nat, str: seq<Byte>, n: nat)
      requires n <= |str| && at + n <= c.Length
      modifies c
      ensures c[..] == old(c[..at]) + str[..n] + old(c[at + n..])
    {
      forall k | 0 <= k < n {
        c[at + k] := str[k];
      }
    }

    /** As much of the bucket as fits, copied behind what is there already. */
    method CopyBucket(e: Elem, c: array<Byte>, actual: nat, len: nat, ghost front: seq<Byte>, ghost was: seq<Byte>)
      returns (n: nat)
      requires Valid() && e in bucket && |front| == actual <= len <= c.Length
      requires |was| == c.Length && c[..] == Over(front, was)
      modifies c
      ensures Valid() && RingMacros.Holds(LINK, world.m)
      ensures n == (if Length(bucket[e]) + actual > len then len - actual else Length(bucket[e]))
      ensures n <= |Segment(world.s, e)| == Length(bucket[e]) && actual + n <= c.Length
      ensures c[..] == Over(front + Segment(world.s, e)[..n], was)
    {
      var str := Read(e);
      n := |str|;
      if n + actual > len {
        n := len - actual;
      }
      CopiedOver(front, was, str, n);
      CopyIn(c, actual, str, n);
    }

    /** `apr_brigade_flatten`: the first `len` bytes of the brigade, or all there are. */
    method Flatten(b: Elem, c: array<Byte>, len: nat) returns (actual: nat)
      requires Valid() && b in world.heads && len <= c.Length
      modifies c
      ensures actual == if len <= |Splits.WholeOf(world, b).bytes| then len else |Splits.WholeOf(world, b).bytes|
      ensures c[..] == Over(Splits.WholeOf(world, b).bytes[..actual], old(c[..]))
    {
      actual := 0;
      Splits.StandsFirst(world, b);
      var e := RingMacros.Next(b, LINK, world.m);
      ghost var i, was, front := 0, c[..], [];
      while e != b
        invariant Splits.Stands(world, b, e, i) && front == Splits.Front(world, b, i)
        invariant |front| == actual <= len && (i > 0 ==> actual < len)
        invariant c[..] == Over(front, was)
        decreases |Splits.ListOf(world, b)| - i
      {
        Splits.StandsAt(world, b, e, i);
        var n := CopyBucket(e, c, actual, len, front, was);
        actual := actual + n;
        Splits.FrontMore(world, b, e, i, front, n, actual);
        front := front + Segment(world.s, e)[..n];
        if actual >= len {
          return;
        }
        e := RingMacros.Next(e, LINK, world.m);
        i := i + 1;
      }
      Splits.WholeFront(world, b, i);
    }

    // apr_brigade_length, apr_brigade_pflatten

    method BrigadeLength(b: Elem) returns (total: nat)
      requires Valid() && b in world.heads
      ensures total == |Splits.WholeOf(world, b).bytes|
    {
      total := 0;
      Splits.StandsFirst(world, b);
      var e := RingMacros.Next(b, LINK, world.m);
      ghost var i := 0;
      while e != b
        invariant Splits.Stands(world, b, e, i) && |Splits.Front(world, b, i)| == total
        decreases |Splits.ListOf(world, b)| - i
      {
        Splits.StandsAt(world, b, e, i);
        total := total + Length(bucket[e]);
        Splits.FrontMore(world, b, e, i, Splits.Front(world, b, i), Length(bucket[e]), total);
        e := RingMacros.Next(e, LINK, world.m);
        i := i + 1;
      }
      Splits.WholeFront(world, b, i);
    }

    method Pflatten(b: Elem) returns (c: array<Byte>)
      requires Valid() && b in world.heads
      ensures fresh(c) && c[..] == Splits.WholeOf(world, b).bytes
    {
      var total := BrigadeLength(b);
      c := new Byte[total];
      var actual := Flatten(b, c, total);
      OverAll(Splits.WholeOf(world, b).bytes, c[..], actual);
    }

    // apr_brigade_split_line

    /** `memchr` for a line feed. */
    method FindLF(str: seq<Byte>) returns (pos: nat)
      ensures pos <= |str| && 10 !in str[..pos]
      ensures if pos < |str| then str[pos] == 10 else 10 !in str
    {
      pos := 0;
      while pos < |str| && str[pos] != Lines.LF
        invariant pos <= |str| && Lines.LF !in str[..pos]
      {
        pos := pos + 1;
      }
    }

    /** The first bucket moved as it is. */
    method MoveFirst(b: Elem, a: Elem, e: Elem) returns (ghost acts: seq<World.Act>)
      requires Valid() && b in world.heads && a in world.heads && a != b
      requires Splits.ListOf(world, b) != [] && e == Splits.ListOf(world, b)[0]
      modifies this`world, elems
      ensures Valid() && elems == old(elems) && acts == Lines.MoveFirst(e, a)
      ensures World.MayRun(old(world), acts) && world == World.Run(old(world), acts)
    {
      Lines.MayMoveFirst(world, b, a);
      Remove(e);
      InsertTail(a, e);
      acts := Lines.MoveFirst(e, a);
    }

    /** A write that is left out when there is nothing to write. */
    method WriteAny(a: Elem, str: seq<Byte>) returns (ghost acts: seq<World.Act>)
      requires Valid() && a in world.heads
      modifies this, elems
      ensures Valid() && World.MayRun(old(world), acts) && world == World.Run(old(world), acts)
      ensures Writes.Wrote(old(world), world, a, str) && Writes.WroteOnly(old(world), world, a)
      ensures Lines.SameElsewhere(old(world), world, a)
      ensures forall x | x in elems :: x in old(elems) || fresh(x)
    {
      if |str| > 0 {
        var flushed;
        ghost var e, inHeap, room;
        flushed, e, inHeap, room, acts := Write(a, false, str);
        Lines.ElsewhereSame(old(world), world, a, e);
      } else {
        acts := [];
        Writes.NothingYet(world, a);
      }
    }

    /** The bytes of the first bucket written to the other brigade, and the bucket destroyed. */
    method CopyFirst(b: Elem, a: Elem, e: Elem, str: seq<Byte>) returns (ghost acts: seq<World.Act>)
      requires Valid() && b in world.heads && a in world.heads && a != b
      requires Splits.ListOf(world, b) != [] && e == Splits.ListOf(world, b)[0]
      requires Part(world.s, e) == Meaning(str, [])
      modifies this, elems
      ensures Valid() && World.MayRun(old(world), acts) && world == World.Run(old(world), acts)
      ensures Lines.HandedOver(old(world), world, b, a, Meaning(str, [])) && e !in bucket
      ensures forall x | x in elems :: x in old(elems) || fresh(x)
    {
      Lines.MayRemoveFirst(world, b);
      Remove(e);
      ghost var w1 := world;
      acts := WriteAny(a, str);
      assert forall x | x in elems :: x in old(elems) || fresh(x);
      Lines.CopiedOver(old(world), w1, world, b, a, e);
      Lines.AroundRun(old(world), World.Link(Ring.Remove(e)), acts, World.Destroy(e));
      Destroy(e);
      acts := [World.Link(Ring.Remove(e))] + acts + [World.Destroy(e)];
    }

    /** A bucket without a line feed: moved if it is metadata or large, else its bytes are copied. */
    method PassFirst(b: Elem, a: Elem, e: Elem, str: seq<Byte>) returns (ghost acts: seq<World.Act>)
      requires Valid() && b in world.heads && a in world.heads && a != b && e in bucket
      requires Splits.ListOf(world, b) != [] && e == Splits.ListOf(world, b)[0] && str == Segment(world.s, e)
      modifies this, elems
      ensures Valid() && World.MayRun(old(world), acts) && world == World.Run(old(world), acts)
      ensures Lines.HandedOver(old(world), world, b, a, Part(old(world).s, e))
      ensures old(bucket)[e].Metadata? || |str| > 2000 ==>
                world.s == old(world).s && Splits.ListOf(world, a) == Splits.ListOf(old(world), a) + [e]
      ensures !old(bucket)[e].Metadata? && |str| <= 2000 ==> e !in bucket
      ensures forall x | x in elems :: x in old(elems) || fresh(x)
    {
      if bucket[e].Metadata? || |str| > Writes.BUFF_SIZE / 4 {
        Lines.MovedOver(world, b, a);
        acts := MoveFirst(b, a, e);
      } else {
        acts := CopyFirst(b, a, e, str);
      }
    }

    /** A bucket with a line feed: split just after it, and the first half moved. */
    method TakeLine(b: Elem, a: Elem, e: Elem, p: nat) returns (ghost n: Elem, ghost acts: seq<World.Act>)
      requires Valid() && b in world.heads && a in world.heads && a != b && e in bucket
      requires Splits.ListOf(world, b) != [] && e == Splits.ListOf(world, b)[0] && p <= |Segment(world.s, e)|
      requires !bucket[e].Metadata?
      modifies this, elems
      ensures Valid() && World.MayRun(old(world), acts) && world == World.Run(old(world), acts)
      ensures Lines.Passed(old(world), world, b, a, Meaning(Segment(old(world).s, e)[..p], []))
      ensures Lines.OwnData(old(world), b, a) ==> Lines.Confined(world, b, a)
      ensures fresh(n) && Splits.ListOf(world, b) == [n] + Splits.ListOf(old(world), b)[1..]
      ensures forall x | x in elems :: x in old(elems) || fresh(x)
    {
      Lines.FirstOn(world, b);
      var status, half := Split(e, p);
      n := half;
      assert forall x | x in elems :: x in old(elems) || fresh(x);
      assert status == Success;
      ghost var w1 := world;
      Lines.LineFirst(old(world), w1, b, a, e, p, n);
      acts := MoveFirst(b, a, e);
      Lines.LineMoved(old(world), w1, b, a, e, p, n);
      if Lines.OwnData(old(world), b, a) {
        Lines.LineShared(old(world), w1, b, a, e, p, n);
      }
      acts := [World.Split(e, p, n)] + acts;
    }

    /** The first bucket of a brigade, and its bytes. */
    method ReadFirst(b: Elem) returns (e: Elem, str: seq<Byte>)
      requires Valid() && b in world.heads && Splits.ListOf(world, b) != []
      ensures e == Splits.ListOf(world, b)[0] && e in bucket
      ensures str == Segment(world.s, e) && |str| == Length(bucket[e])
      ensures Part(world.s, e).bytes == str && (bucket[e].Metadata? ==> str == [])
    {
      FirstBucket(b);
      Lines.FirstOn(world, b);
      e := RingMacros.Next(b, LINK, world.m);
      str := Read(e);
    }

    /** The line that is complete with this bucket, after what has been done since `w`. */
    method EndLine(b: Elem, a: Elem, e: Elem, str: seq<Byte>, pos: nat, ghost maxbytes: int, ghost readbytes: int,
                   ghost k: nat, ghost next: nat, ghost w: World.World, ghost moved: Meaning,
                   ghost done: seq<World.Act>)
      returns (ghost line: Meaning, ghost acts: seq<World.Act>)
      requires Valid() && b in world.heads && a in world.heads && a != b && e in bucket && !bucket[e].Metadata?
      requires Splits.ListOf(world, b) != [] && e == Splits.ListOf(world, b)[0] && str == Segment(world.s, e)
      requires pos < |str| && str[pos] == Lines.LF && Lines.LF !in str[..pos] && next == k + 1
      requires World.Inv(w) && b in w.heads && World.MayRun(w, done) && world == World.Run(w, done)
      requires Lines.Passing(w, world, b, a, moved, k, readbytes, maxbytes) && (k == 0 || readbytes < maxbytes)
      modifies this, elems
      ensures Valid() && World.MayRun(w, acts) && world == World.Run(w, acts)
      ensures Lines.LineGone(w, world, b, a, line, next, maxbytes)
      ensures Splits.ListOf(world, b) != [] && fresh(Splits.ListOf(world, b)[0])
      ensures forall x | x in elems :: x in old(elems) || fresh(x)
    {
      ghost var n;
      n, acts := TakeLine(b, a, e, pos + 1);
      Lines.LineDone(w, old(world), world, b, a, moved, str, pos + 1, k, next, readbytes, maxbytes);
      Splits.RunAppend(w, done, acts);
      acts := done + acts;
      line := Followed(moved, Meaning(str[..pos + 1], []));
    }

    /** The line goes on after this bucket. */
    method GoOnLine(b: Elem, a: Elem, e: Elem, str: seq<Byte>, ghost maxbytes: int, ghost readbytes: int,
                    ghost total: int, ghost k: nat, ghost next: nat, ghost w: World.World, ghost moved: Meaning,
                    ghost done: seq<World.Act>)
      returns (ghost line: Meaning, ghost acts: seq<World.Act>)
      requires Valid() && b in world.heads && a in world.heads && a != b && e in bucket && Lines.LF !in str
      requires Splits.ListOf(world, b) != [] && e == Splits.ListOf(world, b)[0]
      requires str == Segment(world.s, e) && Part(world.s, e).bytes == str
      requires next == k + 1 && total == readbytes + |str|
      requires World.Inv(w) && b in w.heads && World.MayRun(w, done) && world == World.Run(w, done)
      requires Lines.Passing(w, world, b, a, moved, k, readbytes, maxbytes) && (k == 0 || readbytes < maxbytes)
      modifies this, elems
      ensures Valid() && World.MayRun(w, acts) && world == World.Run(w, acts)
      ensures world.heads == old(world).heads
      ensures Lines.Passing(w, world, b, a, line, next, total, maxbytes)
      ensures |Splits.ListOf(world, b)| < old(|Splits.ListOf(world, b)|)
      ensures forall x | x in elems :: x in old(elems) || fresh(x)
    {
      ghost var m := Part(world.s, e);
      acts := PassFirst(b, a, e, str);
      Lines.PassedOn(w, old(world), world, b, a, moved, k, next, readbytes, total, maxbytes);
      Splits.RunAppend(w, done, acts);
      acts := done + acts;
      line := Followed(moved, m);
    }

    /** One bucket of the line, or what is still wanting of it. */
    method TakeFirst(b: Elem, a: Elem, ghost maxbytes: int, ghost readbytes: int, ghost k: nat, ghost w: World.World,
                     ghost moved: Meaning, ghost done: seq<World.Act>)
      returns (found: bool, len: nat, ghost total: int, ghost next: nat, ghost line: Meaning,
               ghost acts: seq<World.Act>)
      requires Valid() && b in world.heads && a in world.heads && a != b && Splits.ListOf(world, b) != []
      requires World.Inv(w) && b in w.heads && World.MayRun(w, done) && world == World.Run(w, done)
      requires Lines.Passing(w, world, b, a, moved, k, readbytes, maxbytes) && (k == 0 || readbytes < maxbytes)
      modifies this, elems
      ensures Valid() && World.MayRun(w, acts) && world == World.Run(w, acts)
      ensures next == k + 1 && total == readbytes + len
      ensures found ==>
                && Lines.LineGone(w, world, b, a, line, next, maxbytes)
                && Splits.ListOf(world, b) != [] && fresh(Splits.ListOf(world, b)[0])
      ensures !found ==>
                && world.heads == old(world).heads
                && Lines.Passing(w, world, b, a, line, next, total, maxbytes)
                && |Splits.ListOf(world, b)| < old(|Splits.ListOf(world, b)|)
      ensures forall x | x in elems :: x in old(elems) || fresh(x)
    {
      var e, str := ReadFirst(b);
      var pos := FindLF(str);
      len, total, next := |str|, readbytes + |str|, k + 1;
      if pos < |str| {
        line, acts := EndLine(b, a, e, str, pos, maxbytes, readbytes, k, next, w, moved, done);
        found := true;
        return;
      }
      line, acts := GoOnLine(b, a, e, str, maxbytes, readbytes, total, k, next, w, moved, done);
      found := false;
    }

    /** `apr_brigade_split_line`: what comes up to the first line feed goes from `b` to the end of `a`, bucket
        by bucket.  There is no more than one bucket once the limit has been reached: `k` is the number of
        buckets that were taken, the last of them in part when there is a line feed. */
    method SplitLine(a: Elem, b: Elem, maxbytes: int)
      returns (ghost moved: Meaning, ghost k: nat, ghost acts: seq<World.Act>)
      requires Valid() && b in world.heads && a in world.heads && a != b
      modifies this, elems
      ensures Valid() && World.MayRun(old(world), acts) && world == World.Run(old(world), acts)
      ensures Lines.LineGone(old(world), world, b, a, moved, k, maxbytes)
      ensures forall x | x in elems :: x in old(elems) || fresh(x)
      ensures 10 in moved.bytes ==> Splits.ListOf(world, b) != [] && fresh(Splits.ListOf(world, b)[0])
    {
      ghost var w, total := world, 0;
      var readbytes := 0;
      moved, k, acts := NOTHING, 0, [];
      while true
        invariant Valid() && world.heads == w.heads
        invariant World.MayRun(w, acts) && world == World.Run(w, acts)
        invariant Lines.Passing(w, world, b, a, moved, k, total, maxbytes)
        invariant total == readbytes && (k == 0 || total < maxbytes)
        invariant forall x | x in elems :: x in old(elems) || fresh(x)
        decreases |Splits.ListOf(world, b)|
      {
        var empty := IsEmpty(b);
        if empty {
          Lines.NoLine(w, world, b, a, moved, k, total, maxbytes);
          return;
        }
        var found, len;
        found, len, total, k, moved, acts := TakeFirst(b, a, maxbytes, total, k, w, moved, acts);
        if found {
          return;
        }
        readbytes := readbytes + len;
        if readbytes >= maxbytes {
          Lines.NoLine(w, world, b, a, moved, k, total, maxbytes);
          return;
        }
      }
    }
  }

  lemma OneGone(s: Store, e: Elem)
    requires e in s.bucket
    ensures BucketStore.Destroyed(s, e).bucket == s.bucket - {e}
  {
  }

  /** The bytes are behind those that the bucket had, in its block, and nothing else has changed. */
  ghost predicate Put(buckets: map<Elem, Bucket>, blocks: map<Id, Resource>,
                      buckets': map<Elem, Bucket>, blocks': map<Id, Resource>, e: Elem, str: seq<Byte>)
  {
    && e in buckets && buckets[e].Shared? && buckets[e].data in blocks
    && var was := buckets[e];
       var at, block := was.start + was.length, blocks[was.data];
       && at + |str| <= |block.bytes|
       && buckets' == buckets[e := Shared(was.start, was.length + |str|, was.data)]
       && blocks' == blocks[was.data := Resource(block.bytes[..at] + str + block.bytes[at + |str|..], block.refcount)]
  }

  /** Bytes put into a buffer made for them. */
  lemma PutInBuffer(buckets: map<Elem, Bucket>, blocks: map<Id, Resource>,
                    made: map<Elem, Bucket>, madeBlocks: map<Id, Resource>,
                    buckets': map<Elem, Bucket>, blocks': map<Id, Resource>, e: Elem, r: Id, str: seq<Byte>)
    requires made == buckets[e := Shared(0, 0, r)] && r in madeBlocks
    requires madeBlocks == blocks[r := Resource(madeBlocks[r].bytes, 1)]
    requires Put(made, madeBlocks, buckets', blocks', e, str)
    ensures buckets' == buckets[e := Shared(0, |str|, r)]
    ensures r in blocks' && blocks' == blocks[r := blocks'[r]] && blocks'[r].refcount == 1
    ensures |blocks'[r].bytes| == |madeBlocks[r].bytes| && blocks'[r].bytes[..|str|] == str
  {
  }

  /** The beginning of an array's contents overwritten. */
  function Over(front: seq<Byte>, was: seq<Byte>): seq<Byte>
    requires |front| <= |was|
  {
    front + was[|front|..]
  }

  lemma OverAll(front: seq<Byte>, was: seq<Byte>, n: nat)
    requires |front| == |was| == n
    ensures front[..n] == front && Over(front[..n], was) == front
  {
  }

  /** Some bytes more copied behind those that are there already. */
  lemma CopiedOver(front: seq<Byte>, was: seq<Byte>, str: seq<Byte>, n: nat)
    requires n <= |str| && |front| + n <= |was|
    ensures var now := Over(front, was);
            now[..|front|] + str[..n] + now[|front| + n..] == Over(front + str[..n], was)
  {
  }
}
