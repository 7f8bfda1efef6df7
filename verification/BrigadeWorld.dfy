/** Brigades: rings of buckets, and the buckets' data, together. */
module BrigadeWorld {
  import opened RingElem
  import opened Sequences
  import opened LinkMemory
  import opened RingLists
  import Ring = RingRuns
  import RingMacros
  import BucketStore
  import opened BrigadeMeaning

  type Store = BucketStore.Store

  /** The links of all buckets and brigade heads, the lists they form, the buckets' other fields
      with their data, and the sentinels of the brigades. */
  datatype World = World(m: Memory, L: Blocks, s: Store, heads: set<Elem>)

  /** Every brigade is a ring of live buckets around its sentinel. */
  ghost predicate Filled(L: Blocks, heads: set<Elem>, live: set<Elem>) {
    forall h {:trigger FilledAt(L, h, live)} | h in heads :: FilledAt(L, h, live)
  }

  ghost predicate FilledAt(L: Blocks, h: Elem, live: set<Elem>) {
    Ring.Head(L, h) && h !in live && forall i | 1 <= i < |L[h].nodes| :: L[h].nodes[i] in live
  }

  ghost predicate Inv(w: World) {
    && Rep(w.m, w.L)
    && BucketStore.Valid(w.s)
    && Filled(w.L, w.heads, w.s.bucket.Keys)
    && w.s.bucket.Keys <= w.m.next.Keys
  }

  /** What a brigade means. */
  ghost function Means(w: World, h: Elem): Meaning
    requires h in w.L && w.L[h].nodes != []
  {
    MeaningOf(w.s, Contents(w.L, h))
  }

  datatype Act =
    | NewBrigade(h: Elem)
    | Make(make: BucketStore.Act)
    | Link(op: Ring.Op)
    | Split(e: Elem, point: nat, new_: Elem)
    | Copy(e: Elem, new_: Elem)
    | Destroy(e: Elem)
    | Delete(e: Elem)
    | Extend(e: Elem, data: seq<BucketStore.Byte>)

  ghost predicate OnBrigade(w: World, e: Elem) {
    Ring.OnRing(w.L, e) && Home(w.L, e).0 in w.heads
  }

  /** A bucket that is on no brigade. */
  ghost predicate Loose(w: World, e: Elem) {
    e in w.s.bucket && e in w.L && |w.L[e].nodes| == 1
  }

  /** A detached sequence of buckets. */
  ghost predicate Spare(w: World, c: Elem) {
    c in w.L && forall i | 0 <= i < |w.L[c].nodes| :: w.L[c].nodes[i] in w.s.bucket
  }

  /** A bucket linked to itself. */
  ghost predicate Alone(w: World, e: Elem) {
    e in w.s.bucket && Ring.Alone(w.L, e)
  }

  /** The list macros of brigades: they work on brigades and on live buckets. */
  ghost predicate MayLink(w: World, op: Ring.Op) {
    || (op.InsertHead? && op.h in w.heads && Loose(w, op.nep))
    || (op.InsertTail? && op.h in w.heads && Loose(w, op.nep))
    || (op.InsertBefore? && OnBrigade(w, op.lep) && Loose(w, op.nep))
    || (op.InsertAfter? && OnBrigade(w, op.lep) && Loose(w, op.nep))
    || (op.SpliceHead? && op.h in w.heads && Ring.Chain(w.L, op.ep1, op.epN) && Spare(w, op.ep1))
    || (op.Unsplice? && OnBrigade(w, op.ep1) && Ring.Inner(w.L, op.ep1, op.epN))
    || (op.Remove? && OnBrigade(w, op.e) && op.e !in w.heads)
    || (op.Remove? && Alone(w, op.e))
    || (op.Concat? && op.h1 in w.heads && op.h2 in w.heads && op.h1 != op.h2)
    || (op.Prepend? && op.h1 in w.heads && op.h2 in w.heads && op.h1 != op.h2)
  }

  ghost predicate MayMake(w: World, make: BucketStore.Act) {
    (make.MakeShared? || make.MakeSimple? || make.MakeMetadata?)
    && make.e !in w.m.next && BucketStore.Possible(w.s, make)
  }

  ghost predicate MayClone(w: World, e: Elem, n: Elem) {
    e in w.s.bucket && e in w.m.next && e in w.m.prev && n !in w.m.next
  }

  ghost predicate May(w: World, act: Act) {
    || (act.NewBrigade? && act.h !in w.m.next)
    || (act.Make? && MayMake(w, act.make))
    || (act.Link? && MayLink(w, act.op))
    || (act.Split? && MayClone(w, act.e, act.new_) && OnBrigade(w, act.e))
    || (act.Copy? && MayClone(w, act.e, act.new_))
    || (act.Destroy? && Loose(w, act.e))
    || (act.Delete? && MayLink(w, Ring.Remove(act.e)))
    || (act.Extend? && BucketStore.HasRoom(w.s, act.e, |act.data|))
  }

  /** A new element, with these pointers. */
  ghost function Added(w: World, e: Elem, next: Elem, prev: Elem, ring: bool): World {
    w.(m := Memory(w.m.next[e := next], w.m.prev[e := prev]), L := w.L[e := Block(ring, [e])])
  }

  /** A new element, its links pointing at itself. */
  ghost function Grown(w: World, e: Elem): World {
    Added(w, e, e, e, true)
  }

  /** A new element with the pointers that `e` has: nothing points back at it. */
  ghost function Cloned(w: World, e: Elem, n: Elem): World
    requires e in w.m.next && e in w.m.prev
  {
    Added(w, n, w.m.next[e], w.m.prev[e], false)
  }

  ghost function Relinked(w: World, op: Ring.Op): World {
    w.(m := Ring.MemStep(w.m, op), L := Ring.ListStep(w.L, op))
  }

  /** Only meant for acts that `May` happen. */
  ghost function Step(w: World, act: Act): World {
    if !May(w, act) then w else
    match act
    case NewBrigade(h) => Grown(w, h).(heads := w.heads + {h})
    case Make(make) => Grown(w, make.e).(s := BucketStore.Acted(w.s, make))
    case Link(op) => Relinked(w, op)
    case Split(e, point, n) =>
      if BucketStore.SplitStatus(w.s.bucket[e], point) != BucketStore.Success then w
      else Relinked(Cloned(w, e, n), Ring.InsertAfter(e, n)).(s := BucketStore.SplitAt(w.s, e, point, n))
    case Copy(e, n) => Cloned(w, e, n).(s := BucketStore.Copied(w.s, e, n))
    case Destroy(e) => w.(s := BucketStore.Destroyed(w.s, e))
    case Delete(e) =>
      if e !in w.s.bucket then w else Relinked(w, Ring.Remove(e)).(s := BucketStore.Destroyed(w.s, e))
    case Extend(e, data) => w.(s := BucketStore.Extended(w.s, e, data))
  }

  // Lists and live buckets.

  lemma AddedBlock(m: Memory, L: Blocks, e: Elem, next: Elem, prev: Elem, k: Elem)
    requires Rep(m, L) && e !in m.next && k in L
    ensures k != e && e !in L[k].nodes && BlockOk(Memory(m.next[e := next], m.prev[e := prev]), k, L[k])
  {
    assert BlockOk(m, k, L[k]);
    LinkedFrame(m, Memory(m.next[e := next], m.prev[e := prev]), Path(L[k]));
  }

  lemma AddedNew(m: Memory, L: Blocks, e: Elem)
    requires Rep(m, L) && e !in m.next
    ensures e !in L && !InSome(L, e) && forall k | k in L :: e !in L[k].nodes
  {
    forall k | k in L
      ensures k != e && e !in L[k].nodes
    {
      assert BlockOk(m, k, L[k]);
    }
  }

  lemma AddedBlocks(m: Memory, L: Blocks, e: Elem, next: Elem, prev: Elem, ring: bool)
    requires Rep(m, L) && e !in m.next && (ring ==> next == prev == e)
    ensures var m', L' := Memory(m.next[e := next], m.prev[e := prev]), L[e := Block(ring, [e])];
            forall k {:trigger BlockOk(m', k, L'[k])} | k in L' :: BlockOk(m', k, L'[k])
  {
    var m': Memory := Memory(m.next[e := next], m.prev[e := prev]);
    var L': Blocks := L[e := Block(ring, [e])];
    forall k | k in L'
      ensures BlockOk(m', k, L'[k])
    {
      if k != e {
        AddedBlock(m, L, e, next, prev, k);
      }
    }
  }

  lemma AddedRep(m: Memory, L: Blocks, e: Elem, next: Elem, prev: Elem, ring: bool)
    requires Rep(m, L) && e !in m.next && (ring ==> next == prev == e)
    ensures e !in L && !InSome(L, e)
    ensures Rep(Memory(m.next[e := next], m.prev[e := prev]), L[e := Block(ring, [e])])
  {
    AddedNew(m, L, e);
    AddedBlocks(m, L, e, next, prev, ring);
    AddedApart(m, L, e, ring);
    var m': Memory := Memory(m.next[e := next], m.prev[e := prev]);
    var L': Blocks := L[e := Block(ring, [e])];
    forall x | x in m'.next
      ensures InSome(L', x)
    {
      AddedSome(m, L, e, ring, x);
    }
  }

  lemma AddedApart(m: Memory, L: Blocks, e: Elem, ring: bool)
    requires Rep(m, L) && e !in L && forall k | k in L :: e !in L[k].nodes
    ensures var L': Blocks := L[e := Block(ring, [e])];
            forall j, k {:trigger Disjoint(L'[j].nodes, L'[k].nodes)} | j in L' && k in L' && j != k ::
              Disjoint(L'[j].nodes, L'[k].nodes)
  {
    var L': Blocks := L[e := Block(ring, [e])];
    forall j, k | j in L' && k in L' && j != k
      ensures Disjoint(L'[j].nodes, L'[k].nodes)
    {
      if j != e && k != e {
        assert Disjoint(L[j].nodes, L[k].nodes);
      }
    }
  }

  lemma AddedSome(m: Memory, L: Blocks, e: Elem, ring: bool, x: Elem)
    requires Rep(m, L) && e !in L && (x in m.next || x == e)
    ensures InSome(L[e := Block(ring, [e])], x)
  {
    var L': Blocks := L[e := Block(ring, [e])];
    if x == e {
      assert x in L'[e].nodes;
    } else {
      assert InSome(L, x);
      var k: Elem :| k in L && x in L[k].nodes;
      assert x in L'[k].nodes;
    }
  }

  lemma AddedFilled(w: World, e: Elem, ring: bool)
    requires Inv(w) && e !in w.m.next
    ensures Filled(w.L[e := Block(ring, [e])], w.heads, w.s.bucket.Keys + {e})
    ensures e !in w.heads && e !in w.s.bucket && e !in w.L
  {
    AddedRep(w.m, w.L, e, e, e, true);
    var L': Blocks := w.L[e := Block(ring, [e])];
    forall h | h in w.heads
      ensures h != e && FilledAt(L', h, w.s.bucket.Keys + {e})
      ensures FilledAt(L', h, w.s.bucket.Keys)
    {
      assert FilledAt(w.L, h, w.s.bucket.Keys);
    }
  }

  lemma InsertFilled(L: Blocks, heads: set<Elem>, live: set<Elem>, r: Elem, j: int, c: Elem)
    requires Filled(L, heads, live) && r in heads && r in L && c in L && c !in heads
    requires (forall i | 0 <= i < |L[c].nodes| :: L[c].nodes[i] in live) && 1 <= j <= |L[r].nodes|
    ensures Filled(Insert(L, r, j, c), heads, live)
  {
    var L': Blocks := Insert(L, r, j, c);
    forall h | h in heads
      ensures FilledAt(L', h, live)
    {
      assert FilledAt(L, h, live);
      if h == r {
        InsertedLive(L[r].nodes, j, L[c].nodes, live);
      }
    }
  }

  lemma InsertedLive(nodes: seq<Elem>, j: int, more: seq<Elem>, live: set<Elem>)
    requires 1 <= j <= |nodes| && (forall i | 1 <= i < |nodes| :: nodes[i] in live)
    requires forall i | 0 <= i < |more| :: more[i] in live
    ensures var nodes' := nodes[..j] + more + nodes[j..];
            nodes'[0] == nodes[0] && forall i | 1 <= i < |nodes'| :: nodes'[i] in live
  {
    var nodes' := nodes[..j] + more + nodes[j..];
    assert forall i | 1 <= i < |nodes'| ::
        nodes'[i] == if i < j then nodes[i] else if i < j + |more| then more[i - j] else nodes[i - |more|];
  }

  lemma CutFilled(L: Blocks, heads: set<Elem>, live: set<Elem>, r: Elem, i: int, j: int)
    requires Filled(L, heads, live) && r in heads && r in L && 1 <= i < j <= |L[r].nodes|
    ensures Filled(Cut(L, r, i, j), heads, live)
  {
    var nodes, L' := L[r].nodes, Cut(L, r, i, j);
    assert FilledAt(L, r, live);
    forall h | h in heads
      ensures FilledAt(L', h, live)
    {
      assert FilledAt(L, h, live);
      if h == r {
        var nodes' := L'[r].nodes;
        assert nodes' == nodes[..i] + nodes[j..];
        assert forall k | 1 <= k < |nodes'| :: nodes'[k] == if k < i then nodes[k] else nodes[k + j - i];
      }
    }
  }

  lemma MoveFilled(L: Blocks, heads: set<Elem>, live: set<Elem>, a: Elem, j: int, b: Elem)
    requires Filled(L, heads, live) && a in heads && b in heads && a != b
    requires a in L && b in L && L[b].nodes != [] && 1 <= j <= |L[a].nodes|
    ensures Filled(Move(L, a, j, b), heads, live)
  {
    var L': Blocks := Move(L, a, j, b);
    assert FilledAt(L, a, live) && FilledAt(L, b, live);
    forall h | h in heads
      ensures FilledAt(L', h, live)
    {
      assert FilledAt(L, h, live);
      if h == a {
        var n1, n2, nodes' := L[a].nodes, L[b].nodes[1..], L'[a].nodes;
        assert nodes' == n1[..j] + n2 + n1[j..];
        assert forall i | 0 <= i < |n2| :: n2[i] == L[b].nodes[i + 1];
        assert forall i | 1 <= i < |nodes'| ::
            nodes'[i] == if i < j then n1[i] else if i < j + |n2| then n2[i - j] else n1[i - |n2|];
      }
    }
  }

  /** A bucket that is alone in its block is on no brigade. */
  lemma LessFilled(m: Memory, L: Blocks, heads: set<Elem>, live: set<Elem>, e: Elem)
    requires Rep(m, L) && Filled(L, heads, live) && e in live && e in L && |L[e].nodes| == 1
    ensures Filled(L, heads, live - {e})
  {
    assert BlockOk(m, e, L[e]);
    forall h | h in heads
      ensures FilledAt(L, h, live - {e})
    {
      assert FilledAt(L, h, live);
      assert Disjoint(L[h].nodes, L[e].nodes);
    }
  }

  // The list macros.

  lemma EndLinkFilled(w: World, op: Ring.Op)
    requires Inv(w) && MayLink(w, op) && (op.InsertHead? || op.InsertTail?)
    ensures Ring.Enabled(w.L, op)
    ensures Filled(Ring.ListStep(w.L, op), w.heads, w.s.bucket.Keys)
  {
    LooseSpare(w, op.nep);
    HeadFilled(w, op.h);
    InsertFilled(w.L, w.heads, w.s.bucket.Keys, op.h, if op.InsertHead? then 1 else |w.L[op.h].nodes|, op.nep);
  }

  lemma PlaceLinkFilled(w: World, op: Ring.Op)
    requires Inv(w) && MayLink(w, op) && (op.InsertBefore? || op.InsertAfter?)
    ensures Ring.Enabled(w.L, op)
    ensures Filled(Ring.ListStep(w.L, op), w.heads, w.s.bucket.Keys)
  {
    var (r, i) := Home(w.L, op.lep);
    LooseSpare(w, op.nep);
    HeadFilled(w, r);
    var j := if op.InsertAfter? then i + 1 else if i == 0 then |w.L[r].nodes| else i;
    InsertFilled(w.L, w.heads, w.s.bucket.Keys, r, j, op.nep);
  }

  lemma LooseSpare(w: World, e: Elem)
    requires Inv(w) && Loose(w, e)
    ensures w.L[e].nodes == [e] && Spare(w, e) && e !in w.heads
  {
    assert BlockOk(w.m, e, w.L[e]);
    if e in w.heads {
      HeadFilled(w, e);
    }
  }

  lemma SpareNoHead(w: World, c: Elem)
    requires Inv(w) && Spare(w, c)
    ensures c !in w.heads && c in w.s.bucket && w.L[c].nodes != []
  {
    assert BlockOk(w.m, c, w.L[c]);
    if c in w.heads {
      HeadFilled(w, c);
    }
  }

  /** Where on its brigade a bucket stands. */
  lemma BucketHome(w: World, e: Elem)
    requires Inv(w) && OnBrigade(w, e) && e !in w.heads
    ensures var (r, i) := Home(w.L, e);
            Ring.Head(w.L, r) && 1 <= i < |w.L[r].nodes| && w.L[r].nodes[i] == e && e in w.s.bucket && e !in w.L
  {
    var (r, i) := Home(w.L, e);
    HeadFilled(w, r);
    assert BlockOk(w.m, r, w.L[r]);
    NotAKey(w.m, w.L, r, i);
  }

  lemma CutLinkFilled(w: World, op: Ring.Op)
    requires Inv(w) && MayLink(w, op) && (op.Unsplice? || op.Remove?)
    ensures Ring.Enabled(w.L, op)
    ensures Filled(Ring.ListStep(w.L, op), w.heads, w.s.bucket.Keys)
  {
    match op
    case Unsplice(ep1, epN) =>
      var (r, i) := Home(w.L, ep1);
      HeadFilled(w, r);
      CutFilled(w.L, w.heads, w.s.bucket.Keys, r, i, Home(w.L, epN).1 + 1);
    case Remove(e) =>
      if Alone(w, e) {
        HomeIsUnique(w.m, w.L, e, e, 0);
      } else {
        var (r, i) := Home(w.L, e);
        BucketHome(w, e);
        CutFilled(w.L, w.heads, w.s.bucket.Keys, r, i, i + 1);
      }
  }

  lemma WholeLinkFilled(w: World, op: Ring.Op)
    requires Inv(w) && MayLink(w, op) && (op.SpliceHead? || op.Concat? || op.Prepend?)
    ensures Ring.Enabled(w.L, op)
    ensures Filled(Ring.ListStep(w.L, op), w.heads, w.s.bucket.Keys)
  {
    var live := w.s.bucket.Keys;
    match op
    case SpliceHead(h, ep1, epN) =>
      HeadFilled(w, h);
      SpareNoHead(w, ep1);
      InsertFilled(w.L, w.heads, live, h, 1, ep1);
    case Concat(a, b) =>
      HeadFilled(w, a);
      HeadFilled(w, b);
      MoveFilled(w.L, w.heads, live, a, |w.L[a].nodes|, b);
    case Prepend(a, b) =>
      HeadFilled(w, a);
      HeadFilled(w, b);
      MoveFilled(w.L, w.heads, live, a, 1, b);
  }

  /** A list macro on brigades is one the ring macros allow, and leaves every brigade a ring of
      live buckets. */
  lemma LinkFilled(w: World, op: Ring.Op)
    requires Inv(w) && MayLink(w, op)
    ensures Ring.Enabled(w.L, op)
    ensures Filled(Ring.ListStep(w.L, op), w.heads, w.s.bucket.Keys)
  {
    if op.InsertHead? || op.InsertTail? {
      EndLinkFilled(w, op);
    } else if op.InsertBefore? || op.InsertAfter? {
      PlaceLinkFilled(w, op);
    } else if op.Unsplice? || op.Remove? {
      CutLinkFilled(w, op);
    } else {
      WholeLinkFilled(w, op);
    }
  }

  lemma HeadFilled(w: World, h: Elem)
    requires Inv(w) && h in w.heads
    ensures Ring.Head(w.L, h) && h !in w.s.bucket
    ensures forall i | 1 <= i < |w.L[h].nodes| :: w.L[h].nodes[i] in w.s.bucket
  {
    assert FilledAt(w.L, h, w.s.bucket.Keys);
  }

  lemma LinkInv(w: World, op: Ring.Op)
    requires Inv(w) && MayLink(w, op)
    ensures Inv(Relinked(w, op)) && Relinked(w, op).m.next.Keys == w.m.next.Keys
  {
    LinkFilled(w, op);
    Ring.StepRefines(w.m, w.L, op);
  }

  // Buckets made, copied, split, destroyed.

  /** A new bucket, on no brigade yet. */
  lemma AddedInv(w: World, e: Elem, next: Elem, prev: Elem, ring: bool, s': Store)
    requires Inv(w) && e !in w.m.next && BucketStore.Valid(s') && s'.bucket.Keys == w.s.bucket.Keys + {e}
    requires ring ==> next == prev == e
    ensures Inv(Added(w, e, next, prev, ring).(s := s'))
    ensures Loose(Added(w, e, next, prev, ring).(s := s'), e)
  {
    AddedRep(w.m, w.L, e, next, prev, ring);
    AddedFilled(w, e, ring);
  }

  lemma MakeInv(w: World, make: BucketStore.Act)
    requires Inv(w) && MayMake(w, make)
    ensures Inv(Step(w, Make(make)))
  {
    BucketStore.ActValid(w.s, make);
    AddedInv(w, make.e, make.e, make.e, true, BucketStore.Acted(w.s, make));
  }

  lemma CopyInv(w: World, e: Elem, n: Elem)
    requires Inv(w) && May(w, Copy(e, n))
    ensures Inv(Step(w, Copy(e, n)))
  {
    BucketStore.CopiedValid(w.s, e, n);
    AddedInv(w, n, w.m.next[e], w.m.prev[e], false, BucketStore.Copied(w.s, e, n));
  }

  /** Inside a split: the bucket is copied and the bytes are divided, but the copy is on no brigade. */
  ghost function Divided(w: World, e: Elem, point: nat, n: Elem): World
    requires MayClone(w, e, n)
  {
    Cloned(w, e, n).(s := BucketStore.SplitAt(w.s, e, point, n))
  }

  /** After a split the new bucket is there, and may be inserted after the old one. */
  lemma SplitReady(w: World, e: Elem, point: nat, n: Elem)
    requires Inv(w) && May(w, Split(e, point, n))
    requires BucketStore.SplitStatus(w.s.bucket[e], point) == BucketStore.Success
    ensures var g := Divided(w, e, point, n);
            && Inv(g) && MayLink(g, Ring.InsertAfter(e, n))
            && InSome(w.L, e) && InSome(g.L, e) && Home(g.L, e) == Home(w.L, e)
            && Step(w, Split(e, point, n)) == Relinked(g, Ring.InsertAfter(e, n))
  {
    var g := Divided(w, e, point, n);
    BucketStore.SplitAtValid(w.s, e, point, n);
    AddedInv(w, n, w.m.next[e], w.m.prev[e], false, g.s);
    var (r, i) := Home(w.L, e);
    AddedRep(w.m, w.L, n, w.m.next[e], w.m.prev[e], false);
    HomeIsUnique(g.m, g.L, e, r, i);
  }

  lemma SplitInv(w: World, e: Elem, point: nat, n: Elem)
    requires Inv(w) && May(w, Split(e, point, n))
    ensures Inv(Step(w, Split(e, point, n)))
  {
    if BucketStore.SplitStatus(w.s.bucket[e], point) == BucketStore.Success {
      SplitReady(w, e, point, n);
      LinkInv(Divided(w, e, point, n), Ring.InsertAfter(e, n));
    }
  }

  lemma DestroyInv(w: World, e: Elem)
    requires Inv(w) && Loose(w, e)
    ensures Inv(w.(s := BucketStore.Destroyed(w.s, e)))
  {
    assert BucketStore.BucketOk(w.s, w.s.bucket[e]);
    BucketStore.DestroyedValid(w.s, e);
    LessFilled(w.m, w.L, w.heads, w.s.bucket.Keys, e);
  }

  /** A removed bucket is live, and on no brigade any more. */
  lemma RemovedLoose(w: World, e: Elem)
    requires Inv(w) && MayLink(w, Ring.Remove(e))
    ensures e in w.s.bucket
    ensures Inv(Relinked(w, Ring.Remove(e))) && Loose(Relinked(w, Ring.Remove(e)), e)
  {
    LinkInv(w, Ring.Remove(e));
    LinkFilled(w, Ring.Remove(e));
    if !Alone(w, e) {
      BucketHome(w, e);
      var (r, i) := Home(w.L, e);
      assert Ring.ListStep(w.L, Ring.Remove(e)) == Cut(w.L, r, i, i + 1);
    }
  }

  lemma StepInv(w: World, act: Act)
    requires Inv(w) && May(w, act)
    ensures Inv(Step(w, act))
  {
    match act
    case NewBrigade(h) =>
      AddedRep(w.m, w.L, h, h, h, true);
      AddedFilled(w, h, true);
      NewBrigadeFilled(w, h);
    case Make(make) => MakeInv(w, make);
    case Link(op) => LinkInv(w, op);
    case Split(e, point, n) => SplitInv(w, e, point, n);
    case Copy(e, n) => CopyInv(w, e, n);
    case Destroy(e) => DestroyInv(w, e);
    case Delete(e) =>
      RemovedLoose(w, e);
      DestroyInv(Relinked(w, Ring.Remove(e)), e);
    case Extend(e, data) => ExtendInv(w, e, data);
  }

  lemma ExtendInv(w: World, e: Elem, data: seq<BucketStore.Byte>)
    requires Inv(w) && May(w, Extend(e, data))
    ensures Inv(Step(w, Extend(e, data)))
  {
    BucketStore.ExtendedValid(w.s, e, data);
    assert Step(w, Extend(e, data)).s.bucket.Keys == w.s.bucket.Keys;
  }

  lemma NewBrigadeFilled(w: World, h: Elem)
    requires Inv(w) && h !in w.m.next
    ensures Filled(Grown(w, h).L, w.heads + {h}, w.s.bucket.Keys)
  {
    AddedFilled(w, h, true);
    var live, L': Blocks := w.s.bucket.Keys, Grown(w, h).L;
    forall x | x in w.heads + {h}
      ensures FilledAt(L', x, live)
    {
      if x != h {
        assert FilledAt(L', x, live + {h});
        HeadFilled(w, x);
        assert FilledAt(w.L, x, live);
      }
    }
  }

  /** All that the list macros need to be carried out on the elements. */
  lemma LinkStep(w: World, op: Ring.Op)
    requires Inv(w) && May(w, Link(op))
    ensures Ring.Safe(w.m, op) && Inv(Step(w, Link(op)))
    ensures Step(w, Link(op)).m == Ring.MemStep(w.m, op) && Step(w, Link(op)).m.next.Keys == w.m.next.Keys
    ensures Step(w, Link(op)).s == w.s
  {
    LinkFilled(w, op);
    LinkInv(w, op);
    Ring.StepRefines(w.m, w.L, op);
  }

  /** All that making a bucket comes to. */
  lemma MakeStep(w: World, make: BucketStore.Act)
    requires Inv(w) && MayMake(w, make)
    ensures Inv(Step(w, Make(make))) && Step(w, Make(make)).m == Grown(w, make.e).m
    ensures Step(w, Make(make)).s == BucketStore.Acted(w.s, make)
  {
    MakeInv(w, make);
  }

  lemma ConcatStep(w: World, a: Elem, b: Elem)
    requires Inv(w) && a in w.heads && b in w.heads && a != b
    ensures RingMacros.Apart(w.m, a, b)
    ensures Inv(Step(w, Link(Ring.Concat(a, b)))) && Step(w, Link(Ring.Concat(a, b))).s == w.s
    ensures Step(w, Link(Ring.Concat(a, b))).m == RingMacros.Concatenated(w.m, a, b)
    ensures Inv(Step(w, Link(Ring.Prepend(a, b)))) && Step(w, Link(Ring.Prepend(a, b))).s == w.s
    ensures Step(w, Link(Ring.Prepend(a, b))).m == RingMacros.Prepended(w.m, a, b)
    ensures Step(w, Link(Ring.Concat(a, b))).m.next.Keys == w.m.next.Keys
    ensures Step(w, Link(Ring.Prepend(a, b))).m.next.Keys == w.m.next.Keys
  {
    LinkStep(w, Ring.Concat(a, b));
    LinkStep(w, Ring.Prepend(a, b));
  }

  lemma ClonedKeys(w: World, e: Elem, n: Elem)
    requires e in w.m.next && e in w.m.prev
    ensures Cloned(w, e, n).m.next.Keys == w.m.next.Keys + {n}
  {
  }

  lemma JoinedKeys(m: Memory, a: Elem, ep1: Elem, epN: Elem, b: Elem)
    requires a in m.next && epN in m.next
    ensures Joined(m, a, ep1, epN, b).next.Keys == m.next.Keys
  {
  }

  /** A split is a divided bucket and an insertion after it. */
  lemma SplitStep(w: World, e: Elem, point: nat, n: Elem)
    requires Inv(w) && May(w, Split(e, point, n))
    requires BucketStore.SplitStatus(w.s.bucket[e], point) == BucketStore.Success
    ensures var w', m := Step(w, Split(e, point, n)), Cloned(w, e, n).m;
            && Inv(w') && w'.s == BucketStore.SplitAt(w.s, e, point, n)
            && e in m.next && n in m.next && m.next[e] in m.next && e != n && m.next[e] != n
            && w'.m == Joined(m, e, n, n, m.next[e]) && w'.m.next.Keys == w.m.next.Keys + {n}
  {
    SplitReady(w, e, point, n);
    ClonedKeys(w, e, n);
    LinkStep(Divided(w, e, point, n), Ring.InsertAfter(e, n));
    JoinedKeys(Cloned(w, e, n).m, e, n, n, Cloned(w, e, n).m.next[e]);
  }

  ghost predicate MayRun(w: World, acts: seq<Act>)
    decreases |acts|
  {
    acts == [] || (May(w, acts[0]) && MayRun(Step(w, acts[0]), acts[1..]))
  }

  ghost function Run(w: World, acts: seq<Act>): World
    decreases |acts|
  {
    if acts == [] then w else Run(Step(w, acts[0]), acts[1..])
  }

  /** Over every run of brigade and bucket operations: the links stay partitioned into rings, every
      brigade is a ring of live buckets, every live bucket points into live data, and every
      reference count is the number of buckets that share the resource. */
  lemma {:induction false} RunInv(w: World, acts: seq<Act>)
    requires Inv(w) && MayRun(w, acts)
    ensures Inv(Run(w, acts))
    decreases |acts|
  {
    if acts != [] {
      StepInv(w, acts[0]);
      RunInv(Step(w, acts[0]), acts[1..]);
    }
  }

  // What a run does to the buckets' data alone.

  /** The acts on buckets and resources, links aside. */
  function StoreActs(acts: seq<Act>): seq<BucketStore.Act> {
    if acts == [] then [] else StoreAct(acts[0]) + StoreActs(acts[1..])
  }

  function StoreAct(act: Act): seq<BucketStore.Act> {
    match act
    case NewBrigade(_) => []
    case Link(_) => []
    case Make(make) => [make]
    case Split(e, point, n) => [BucketStore.Split(e, point, n)]
    case Copy(e, n) => [BucketStore.Copy(e, n)]
    case Destroy(e) => [BucketStore.Destroy(e)]
    case Delete(e) => [BucketStore.Destroy(e)]
    case Extend(e, data) => [BucketStore.Extend(e, data)]
  }

  lemma StepStore(w: World, act: Act)
    requires Inv(w) && May(w, act)
    ensures StoreAct(act) == [] ==> Step(w, act).s == w.s
    ensures StoreAct(act) != [] ==>
              && StoreAct(act) == [StoreAct(act)[0]]
              && BucketStore.Possible(w.s, StoreAct(act)[0])
              && Step(w, act).s == BucketStore.Acted(w.s, StoreAct(act)[0])
  {
    if act.Delete? {
      RemovedLoose(w, act.e);
    }
  }

  /** Moving buckets between brigades does not concern their data: a run does to the buckets and
      resources what its acts on them alone do. */
  lemma {:induction false} RunStore(w: World, acts: seq<Act>)
    requires Inv(w) && MayRun(w, acts)
    ensures BucketStore.PossibleRun(w.s, StoreActs(acts))
    ensures BucketStore.Run(w.s, StoreActs(acts)) == Run(w, acts).s
    decreases |acts|
  {
    if acts != [] {
      StepInv(w, acts[0]);
      StepStore(w, acts[0]);
      RunStore(Step(w, acts[0]), acts[1..]);
      var all := StoreActs(acts);
      if StoreAct(acts[0]) == [] {
        assert all == StoreActs(acts[1..]);
      } else {
        assert all[0] == StoreAct(acts[0])[0] && all[1..] == StoreActs(acts[1..]);
      }
    }
  }

  /** Over every run of brigade and bucket operations, every resource there was or that was made is
      either live or was freed once, and has been freed just when no live bucket refers to it. */
  lemma RunFrees(w: World, acts: seq<Act>, r: BucketStore.Id)
    requires Inv(w) && MayRun(w, acts)
    requires r in BucketStore.Known(w.s) + BucketStore.Made(StoreActs(acts))
    ensures Distinct(Run(w, acts).s.freed)
    ensures r in Run(w, acts).s.freed <==> r !in Run(w, acts).s.shared
    ensures r in Run(w, acts).s.freed <==> BucketStore.Users(Run(w, acts).s, r) == {}
  {
    RunStore(w, acts);
    BucketStore.RunFreesOnce(w.s, StoreActs(acts));
  }
}
