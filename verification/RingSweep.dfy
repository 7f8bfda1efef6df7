/** `APR_RING_FOREACH_SAFE` with a body that takes elements off the ring. */
module RingSweep {
  import opened RingElem
  import opened LinkMemory
  import opened RingLists
  import opened RingRuns
  import RingMacros

  /** What is left of `xs` when the elements chosen by `drop` go. */
  function Kept(xs: seq<Elem>, drop: Elem -> bool): seq<Elem> {
    if xs == [] then []
    else (if drop(xs[0]) then [] else [xs[0]]) + Kept(xs[1..], drop)
  }

  lemma {:induction false} KeptOneMore(xs: seq<Elem>, x: Elem, drop: Elem -> bool)
    ensures Kept(xs + [x], drop) == Kept(xs, drop) + if drop(x) then [] else [x]
    decreases |xs|
  {
    if xs == [] {
      assert [] + [x] == [x];
      assert Kept([x], drop) == (if drop(x) then [] else [x]) + Kept([], drop);
    } else {
      assert (xs + [x])[1..] == xs[1..] + [x];
      KeptOneMore(xs[1..], x, drop);
    }
  }

  /** The dropped ones among the first `n`, each a ring of its own. */
  ghost function Dropped(xs: seq<Elem>, drop: Elem -> bool, n: int): Blocks
    requires 0 <= n <= |xs|
  {
    map e | e in xs[..n] && drop(e) :: Block(true, [e])
  }

  /** The blocks when the first `n` elements of `h` have been swept: the dropped ones are linked to
      themselves, and nothing else has changed. */
  ghost function SweptTo(L: Blocks, h: Elem, drop: Elem -> bool, n: int): Blocks
    requires Head(L, h) && 0 <= n <= |Contents(L, h)|
  {
    var xs := Contents(L, h);
    L[h := Block(true, [h] + Kept(xs[..n], drop) + xs[n..])] + Dropped(xs, drop, n)
  }

  /** The element at position `i` removed and initialized again. */
  function Out(L: Blocks, h: Elem, i: int): Blocks
    requires h in L && 0 <= i < |L[h].nodes|
  {
    var nodes := L[h].nodes;
    L[h := Block(true, nodes[..i] + nodes[i + 1..])][nodes[i] := Block(true, [nodes[i]])]
  }

  lemma OutRep(m: Memory, L: Blocks, h: Elem, i: int)
    requires Rep(m, L) && Head(L, h) && 1 <= i < |L[h].nodes|
    ensures var e := L[h].nodes[i];
            && Safe(m, Remove(e))
            && MemStep(m, Remove(e)).next.Keys == m.next.Keys
            && Safe(MemStep(m, Remove(e)), ElemInit(e))
            && MemStep(MemStep(m, Remove(e)), ElemInit(e)).next.Keys == m.next.Keys
            && Rep(MemStep(MemStep(m, Remove(e)), ElemInit(e)), Out(L, h, i))
  {
    var nodes := L[h].nodes;
    var e := nodes[i];
    HomeIsUnique(m, L, e, h, i);
    NotAKey(m, L, h, i);
    StepRefines(m, L, Remove(e));
    var L1 := Cut(L, h, i, i + 1);
    assert nodes[i..i + 1] == [e];
    assert L1[e] == Block(false, [e]);
    StepRefines(MemStep(m, Remove(e)), L1, ElemInit(e));
    assert Reset(L1, e) == Out(L, h, i);
  }

  lemma DroppedOneMore(xs: seq<Elem>, drop: Elem -> bool, n: int)
    requires 0 <= n < |xs|
    ensures Dropped(xs, drop, n + 1)
            == if drop(xs[n]) then Dropped(xs, drop, n)[xs[n] := Block(true, [xs[n]])] else Dropped(xs, drop, n)
  {
    assert xs[..n + 1] == xs[..n] + [xs[n]];
  }

  lemma Overwritten(L: Blocks, h: Elem, b: Block, D: Blocks, x: Elem, d: Block, b': Block)
    requires h !in D && h != x
    ensures (L[h := b] + D)[h := b'][x := d] == L[h := b'] + D[x := d]
  {
  }

  lemma HeadNotListed(m: Memory, L: Blocks, h: Elem)
    requires Rep(m, L) && Head(L, h)
    ensures h !in Contents(L, h)
  {
    assert BlockOk(m, h, L[h]);
    assert forall k | 0 <= k < |Contents(L, h)| :: Contents(L, h)[k] == L[h].nodes[k + 1];
  }

  /** Where the `n`th element of the list is, when those before it have been swept. */
  lemma SweptNodes(m: Memory, L: Blocks, h: Elem, drop: Elem -> bool, n: int)
    requires Rep(m, L) && Head(L, h) && 0 <= n <= |Contents(L, h)|
    ensures h in SweptTo(L, h, drop, n)
    ensures SweptTo(L, h, drop, n)[h] == Block(true, [h] + Kept(Contents(L, h)[..n], drop) + Contents(L, h)[n..])
  {
    HeadNotListed(m, L, h);
  }

  function Position(L: Blocks, h: Elem, drop: Elem -> bool, n: int): int
    requires h in L && L[h].nodes != [] && 0 <= n <= |Contents(L, h)|
  {
    |Kept(Contents(L, h)[..n], drop)| + 1
  }

  lemma KeptSeqs(h: Elem, kept: seq<Elem>, xs: seq<Elem>, n: int)
    requires 0 <= n < |xs|
    ensures var nodes, i := [h] + kept + xs[n..], |kept| + 1;
            && nodes[i] == xs[n]
            && nodes[..i] + nodes[i + 1..] == [h] + kept + xs[n + 1..]
            && [h] + (kept + [xs[n]]) + xs[n + 1..] == nodes
  {
  }

  lemma SweptOneMore(m: Memory, L: Blocks, h: Elem, drop: Elem -> bool, n: int)
    requires Rep(m, L) && Head(L, h) && 0 <= n < |Contents(L, h)|
    ensures Head(SweptTo(L, h, drop, n), h)
    ensures 1 <= Position(L, h, drop, n) < |SweptTo(L, h, drop, n)[h].nodes|
    ensures SweptTo(L, h, drop, n)[h].nodes[Position(L, h, drop, n)] == Contents(L, h)[n]
    ensures SweptTo(L, h, drop, n + 1)
            == if drop(Contents(L, h)[n]) then Out(SweptTo(L, h, drop, n), h, Position(L, h, drop, n))
               else SweptTo(L, h, drop, n)
  {
    var xs := Contents(L, h);
    HeadNotListed(m, L, h);
    SweptNodes(m, L, h, drop, n);
    KeptSeqs(h, Kept(xs[..n], drop), xs, n);
    TakeOneMore(xs, n);
    KeptOneMore(xs[..n], xs[n], drop);
    DroppedOneMore(xs, drop, n);
    var kept, D := Kept(xs[..n], drop), Dropped(xs, drop, n);
    if drop(xs[n]) {
      OutOfSwept(L, h, kept, xs, n, D);
      assert Kept(xs[..n + 1], drop) == kept;
      assert SweptTo(L, h, drop, n + 1)
          == L[h := Block(true, [h] + kept + xs[n + 1..])] + D[xs[n] := Block(true, [xs[n]])];
    } else {
      assert Kept(xs[..n + 1], drop) == kept + [xs[n]];
      assert SweptTo(L, h, drop, n + 1) == L[h := Block(true, [h] + kept + xs[n..])] + D;
    }
  }

  lemma OutOfSwept(L: Blocks, h: Elem, kept: seq<Elem>, xs: seq<Elem>, n: int, D: Blocks)
    requires 0 <= n < |xs| && h !in D && h != xs[n]
    ensures var L1 := L[h := Block(true, [h] + kept + xs[n..])] + D;
            && h in L1 && |kept| + 1 < |L1[h].nodes|
            && L[h := Block(true, [h] + kept + xs[n + 1..])] + D[xs[n] := Block(true, [xs[n]])]
               == Out(L1, h, |kept| + 1)
  {
    KeptSeqs(h, kept, xs, n);
    Overwritten(L, h, Block(true, [h] + kept + xs[n..]), D, xs[n], Block(true, [xs[n]]),
                Block(true, [h] + kept + xs[n + 1..]));
  }

  /** Where a cursor stands that has passed `n` elements. */
  function Cursor(xs: seq<Elem>, h: Elem, n: int): Elem {
    if 0 <= n < |xs| then xs[n] else h
  }

  /** The cursor's successor, whether or not the cursor's element is about to be removed. */
  lemma SweptNext(m0: Memory, m: Memory, L: Blocks, h: Elem, drop: Elem -> bool, n: int)
    requires Rep(m0, L) && Head(L, h) && 0 <= n <= |Contents(L, h)| && Rep(m, SweptTo(L, h, drop, n))
    ensures Cursor(Contents(L, h), h, n) in m.next
    ensures n < |Contents(L, h)| ==> m.next[Contents(L, h)[n]] == Cursor(Contents(L, h), h, n + 1)
  {
    var L1, xs := SweptTo(L, h, drop, n), Contents(L, h);
    SweptNodes(m0, L, h, drop, n);
    if n < |xs| {
      var i := Position(L, h, drop, n);
      SweptOneMore(m0, L, h, drop, n);
      PathAt(m, L1, h, i);
      assert Path(L1[h]) == [h] + Kept(xs[..n], drop) + xs[n..] + [h];
      assert Path(L1[h])[i + 1] == (xs[n..] + [h])[1] == Cursor(xs, h, n + 1);
    } else {
      PathAt(m, L1, h, 0);
    }
  }

  method RemoveAndInit(e: Elem, link: Link, ghost m: Memory, ghost L: Blocks, ghost h: Elem, ghost i: int)
    returns (ghost m': Memory)
    requires RingMacros.Holds(link, m) && Rep(m, L) && Head(L, h) && 1 <= i < |L[h].nodes| && L[h].nodes[i] == e
    modifies m.next.Keys
    ensures RingMacros.Holds(link, m') && RingMacros.OnlyLink(link, m)
    ensures m'.next.Keys == m.next.Keys && Rep(m', Out(L, h, i))
  {
    OutRep(m, L, h, i);
    ghost var m1 := MemStep(m, Remove(e));
    RingMacros.Remove(e, link, m);
    RingMacros.ElemInit(e, link, m1);
    m' := MemStep(m1, ElemInit(e));
  }

  /** `m` is the memory when the first `n` elements of `h` have been swept. */
  ghost predicate Swept(m: Memory, U: set<Elem>, L: Blocks, h: Elem, drop: Elem -> bool, n: int) {
    && Head(L, h) && 0 <= n <= |Contents(L, h)|
    && m.next.Keys == U && Rep(m, SweptTo(L, h, drop, n))
  }

  /** Where the loop stands after `n` rounds. */
  ghost predicate Stage(visited: seq<Elem>, ep1: Elem, ep2: Elem, m: Memory, U: set<Elem>,
                        L: Blocks, h: Elem, drop: Elem -> bool)
  {
    var n := |visited|;
    && Swept(m, U, L, h, drop, n)
    && visited == Contents(L, h)[..n]
    && ep1 in U && ep1 == Cursor(Contents(L, h), h, n)
    && (n < |Contents(L, h)| ==> ep2 == Cursor(Contents(L, h), h, n + 1))
  }

  /** The loop body, on the current element. */
  method SweepOne(e: Elem, drop: Elem -> bool, link: Link,
                  ghost m: Memory, ghost m0: Memory, ghost L: Blocks, ghost h: Elem, ghost n: int)
    returns (ghost m': Memory)
    requires RingMacros.Holds(link, m) && Swept(m, m.next.Keys, L, h, drop, n) && Rep(m0, L)
    requires n < |Contents(L, h)| && e == Contents(L, h)[n]
    modifies m.next.Keys
    ensures RingMacros.Holds(link, m') && RingMacros.OnlyLink(link, m)
    ensures Swept(m', m.next.Keys, L, h, drop, n + 1)
  {
    SweptOneMore(m0, L, h, drop, n);
    if drop(e) {
      m' := RemoveAndInit(e, link, m, SweptTo(L, h, drop, n), h, Position(L, h, drop, n));
    } else {
      m' := m;
    }
  }

  lemma StageOver(visited: seq<Elem>, ep1: Elem, ep2: Elem, m: Memory, U: set<Elem>,
                  m0: Memory, L: Blocks, h: Elem, drop: Elem -> bool)
    requires Rep(m0, L) && Stage(visited, ep1, ep2, m, U, L, h, drop)
    ensures ep1 == h <==> visited == Contents(L, h)
    ensures ep1 == h <==> |visited| == |Contents(L, h)|
  {
    HeadNotListed(m0, L, h);
  }

  lemma TakeOneMore<T>(xs: seq<T>, n: int)
    requires 0 <= n < |xs|
    ensures xs[..n] + [xs[n]] == xs[..n + 1]
  {
  }

  lemma StageNext(visited: seq<Elem>, ep1: Elem, ep2: Elem, m: Memory, m': Memory, U: set<Elem>,
                  m0: Memory, L: Blocks, h: Elem, drop: Elem -> bool)
    requires Rep(m0, L) && ep1 != h && Stage(visited, ep1, ep2, m, U, L, h, drop)
    requires Swept(m', U, L, h, drop, |visited| + 1)
    ensures ep2 in m'.next
    ensures Stage(visited + [ep1], ep2, m'.next[ep2], m', U, L, h, drop)
  {
    var xs, n := Contents(L, h), |visited|;
    SweptNext(m0, m', L, h, drop, n + 1);
    TakeOneMore(xs, n);
    assert |visited + [ep1]| == n + 1;
    assert Swept(m', U, L, h, drop, |visited + [ep1]|);
  }

  /** The body for the element at `ep1`; then the cursors move on. */
  method SweepRound(visited: seq<Elem>, ep1: Elem, ep2: Elem, drop: Elem -> bool, link: Link,
                    ghost m: Memory, ghost m0: Memory, ghost L: Blocks, ghost h: Elem)
    returns (next1: Elem, next2: Elem, ghost m': Memory)
    requires RingMacros.Holds(link, m) && Rep(m0, L) && ep1 != h
    requires Stage(visited, ep1, ep2, m, m.next.Keys, L, h, drop)
    modifies m.next.Keys
    ensures RingMacros.Holds(link, m') && RingMacros.OnlyLink(link, m)
    ensures Stage(visited + [ep1], next1, next2, m', m.next.Keys, L, h, drop)
    ensures m'.next.Keys == m.next.Keys && |visited| < |Contents(L, h)|
  {
    StageOver(visited, ep1, ep2, m, m.next.Keys, m0, L, h, drop);
    m' := SweepOne(ep1, drop, link, m, m0, L, h, |visited|);
    StageNext(visited, ep1, ep2, m, m', m.next.Keys, m0, L, h, drop);
    next1 := ep2;
    next2 := RingMacros.Next(next1, link, m');
  }

  /** Every element is visited once, in order; the chosen ones are gone from the ring when the
      loop ends, and all other rings, and the order on this one, are as they were.  The body may
      write over the links of the element it removes: here it links the element to itself. */
  method ForEachSafe(h: Elem, drop: Elem -> bool, link: Link, ghost m0: Memory, ghost L: Blocks)
    returns (visited: seq<Elem>, ghost m: Memory)
    requires RingMacros.Holds(link, m0) && Rep(m0, L) && Head(L, h)
    modifies m0.next.Keys
    ensures visited == Contents(L, h)
    ensures RingMacros.Holds(link, m) && RingMacros.OnlyLink(link, m0)
    ensures m.next.Keys == m0.next.Keys && Rep(m, SweptTo(L, h, drop, |Contents(L, h)|))
  {
    ghost var U := m0.next.Keys;
    m, visited := m0, [];
    FirstInList(m, L, h);
    var ep1 := RingMacros.Next(h, link, m);
    StageFirst(m0, L, h, drop);
    var ep2 := RingMacros.Next(ep1, link, m);
    while ep1 != h
      invariant RingMacros.Holds(link, m) && RingMacros.OnlyLink(link, m0) && m.next.Keys == U
      invariant Stage(visited, ep1, ep2, m, U, L, h, drop)
      decreases |Contents(L, h)| - |visited|
    {
      var e := ep1;
      ep1, ep2, m := SweepRound(visited, ep1, ep2, drop, link, m, m0, L, h);
      visited := visited + [e];
    }
    StageOver(visited, ep1, ep2, m, U, m0, L, h, drop);
  }

  lemma StageFirst(m: Memory, L: Blocks, h: Elem, drop: Elem -> bool)
    requires Rep(m, L) && Head(L, h)
    ensures h in m.next && m.next[h] in m.next
    ensures Stage([], m.next[h], m.next[m.next[h]], m, m.next.Keys, L, h, drop)
  {
    SweptNone(m, L, h, drop);
    FirstInList(m, L, h);
    SweptNext(m, m, L, h, drop, 0);
    assert Contents(L, h)[..0] == [];
  }

  lemma SweptNone(m: Memory, L: Blocks, h: Elem, drop: Elem -> bool)
    requires Rep(m, L) && Head(L, h)
    ensures SweptTo(L, h, drop, 0) == L
  {
    assert BlockOk(m, h, L[h]);
    assert L[h].nodes == [h] + Kept([], drop) + Contents(L, h);
  }

  lemma FirstInList(m: Memory, L: Blocks, h: Elem)
    requires Rep(m, L) && Head(L, h)
    ensures h in m.next && m.next[h] in m.next && m.next[h] == Cursor(Contents(L, h), h, 0)
  {
    PathAt(m, L, h, 0);
    assert Path(L[h])[1] == Cursor(Contents(L, h), h, 0);
    assert m.next[h] in L[h].nodes;
  }

  lemma SweptHead(m0: Memory, m: Memory, L: Blocks, h: Elem, drop: Elem -> bool)
    requires Rep(m0, L) && Head(L, h) && Rep(m, SweptTo(L, h, drop, |Contents(L, h)|))
    ensures IsRing(m, h, Kept(Contents(L, h), drop))
  {
    var xs := Contents(L, h);
    SweptNodes(m0, L, h, drop, |xs|);
    assert xs[..|xs|] == xs;
    HeadDenotes(m, SweptTo(L, h, drop, |xs|), h);
    assert Contents(SweptTo(L, h, drop, |xs|), h) == Kept(xs, drop);
  }

  lemma SweptDropped(m0: Memory, m: Memory, L: Blocks, h: Elem, drop: Elem -> bool, e: Elem)
    requires Rep(m0, L) && Head(L, h) && Rep(m, SweptTo(L, h, drop, |Contents(L, h)|))
    requires e in Contents(L, h) && drop(e)
    ensures IsRing(m, e, [])
  {
    var L': Blocks := SweptTo(L, h, drop, |Contents(L, h)|);
    assert Contents(L, h)[..|Contents(L, h)|] == Contents(L, h);
    assert L'[e] == Block(true, [e]) && Contents(L', e) == [];
    HeadDenotes(m, L', e);
  }

  lemma SweptOther(m0: Memory, m: Memory, L: Blocks, h: Elem, drop: Elem -> bool, k: Elem)
    requires Rep(m0, L) && Head(L, h) && Rep(m, SweptTo(L, h, drop, |Contents(L, h)|))
    requires Head(L, k) && k != h
    ensures IsRing(m, k, Contents(L, k))
  {
    assert BlockOk(m0, k, L[k]) && Disjoint(L[h].nodes, L[k].nodes);
    assert k !in Contents(L, h);
    HeadDenotes(m, SweptTo(L, h, drop, |Contents(L, h)|), k);
  }

  /** After the whole sweep: the head denotes exactly the elements not chosen, in order; each chosen
      one is linked to itself alone; every other ring is what it was. */
  lemma SweptAll(m0: Memory, m: Memory, L: Blocks, h: Elem, drop: Elem -> bool)
    requires Rep(m0, L) && Head(L, h) && Rep(m, SweptTo(L, h, drop, |Contents(L, h)|))
    ensures IsRing(m, h, Kept(Contents(L, h), drop))
    ensures forall e | e in Contents(L, h) && drop(e) :: IsRing(m, e, [])
    ensures forall k | Head(L, k) && k != h :: IsRing(m, k, Contents(L, k))
  {
    SweptHead(m0, m, L, h, drop);
    forall e | e in Contents(L, h) && drop(e)
      ensures IsRing(m, e, [])
    {
      SweptDropped(m0, m, L, h, drop, e);
    }
    forall k | Head(L, k) && k != h
      ensures IsRing(m, k, Contents(L, k))
    {
      SweptOther(m0, m, L, h, drop, k);
    }
  }
}
