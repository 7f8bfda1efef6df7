/** The macros of `apr_ring.h`, statement by statement, on element objects.
    Every macro takes the name of the link field it works through, and a ghost `m`: what that
    field holds in a set of elements that includes all the macro touches.  Its contract says what
    the field holds afterwards, and that no other link field of any element is changed. */
module RingMacros {
  import opened RingElem
  import opened LinkMemory

  /** What the field of one element holds. */
  ghost predicate Has(e: Elem, link: Link, m: Memory)
    reads e
  {
    && e in m.next && e in m.prev
    && link in e.entry && e.entry[link] == Entry(m.next[e], m.prev[e])
  }

  /** The field holds `m`. */
  ghost predicate Holds(link: Link, m: Memory)
    reads m.next.Keys
  {
    && m.next.Keys == m.prev.Keys
    && forall e {:trigger Has(e, link, m)} | e in m.next :: Has(e, link, m)
  }

  /** The link fields of an element other than `link`. */
  ghost function Others(e: Elem, link: Link): map<Link, Entry>
    reads e
  {
    e.entry - {link}
  }

  /** The other link fields of all elements are as they were. */
  twostate predicate OnlyLink(link: Link, m: Memory)
    reads m.next.Keys
  {
    forall e {:trigger Others(e, link)} | e in m.next :: Others(e, link) == old(Others(e, link))
  }

  // One assignment through the field.

  ghost function WithNext(m: Memory, e: Elem, v: Elem): Memory {
    m.(next := m.next[e := v])
  }

  ghost function WithPrev(m: Memory, e: Elem, v: Elem): Memory {
    m.(prev := m.prev[e := v])
  }

  /** The four assignments of a splice, in either order, come to one join. */
  lemma JoinedInSteps(m: Memory, a: Elem, ep1: Elem, epN: Elem, b: Elem)
    requires a != epN && b != ep1
    ensures WithPrev(WithNext(WithPrev(WithNext(m, epN, b), ep1, a), a, ep1), b, epN) == Joined(m, a, ep1, epN, b)
    ensures WithNext(WithPrev(WithNext(WithPrev(m, ep1, a), epN, b), b, epN), a, ep1) == Joined(m, a, ep1, epN, b)
  {
  }

  // Lvalues.  `APR_RING_FIRST` and `APR_RING_LAST` of a head are the two fields of its sentinel.

  function Next(e: Elem, link: Link, ghost m: Memory): (r: Elem)
    requires Holds(link, m) && e in m.next
    reads m.next.Keys
    ensures e in m.next && r == m.next[e]
  {
    assert Has(e, link, m);
    e.entry[link].next
  }

  function Prev(e: Elem, link: Link, ghost m: Memory): (r: Elem)
    requires Holds(link, m) && e in m.next
    reads m.next.Keys
    ensures e in m.prev && r == m.prev[e]
  {
    assert Has(e, link, m);
    e.entry[link].prev
  }

  method SetNext(e: Elem, v: Elem, link: Link, ghost m: Memory)
    requires Holds(link, m) && e in m.next
    modifies e
    ensures Holds(link, WithNext(m, e, v))
    ensures OnlyLink(link, m)
  {
    assert Has(e, link, m);
    e.entry := e.entry[link := e.entry[link].(next := v)];
    ghost var m' := WithNext(m, e, v);
    forall x | x in m'.next
      ensures Has(x, link, m') && Others(x, link) == old(Others(x, link))
    {
      assert old(Has(x, link, m));
    }
  }

  method SetPrev(e: Elem, v: Elem, link: Link, ghost m: Memory)
    requires Holds(link, m) && e in m.next
    modifies e
    ensures Holds(link, WithPrev(m, e, v))
    ensures OnlyLink(link, m)
  {
    assert Has(e, link, m);
    e.entry := e.entry[link := e.entry[link].(prev := v)];
    ghost var m' := WithPrev(m, e, v);
    forall x | x in m'.next
      ensures Has(x, link, m') && Others(x, link) == old(Others(x, link))
    {
      assert old(Has(x, link, m));
    }
  }

  // APR_RING_INIT, APR_RING_EMPTY, APR_RING_ELEM_INIT

  method Init(h: Elem, link: Link, ghost m: Memory)
    requires Holds(link, m) && h in m.next
    modifies h
    ensures Holds(link, Selfed(m, h)) && OnlyLink(link, m)
  {
    SetNext(h, h, link, m);
    SetPrev(h, h, link, WithNext(m, h, h));
  }

  method IsEmpty(h: Elem, link: Link, ghost m: Memory, ghost xs: seq<Elem>) returns (empty: bool)
    requires Holds(link, m) && h in m.next && IsRing(m, h, xs)
    ensures empty <==> xs == []
  {
    empty := Next(h, link, m) == h;
    HeadNotInside(m, h, xs);
    assert Adjacent(m, ([h] + xs + [h])[0], ([h] + xs + [h])[1]);
  }

  method ElemInit(e: Elem, link: Link, ghost m: Memory)
    requires Holds(link, m) && e in m.next
    modifies e
    ensures Holds(link, Selfed(m, e)) && OnlyLink(link, m)
  {
    SetNext(e, e, link, m);
    SetPrev(e, e, link, WithNext(m, e, e));
  }

  // APR_RING_SPLICE_BEFORE, APR_RING_SPLICE_AFTER and the macros defined by them

  method SpliceBefore(lep: Elem, ep1: Elem, epN: Elem, link: Link, ghost m: Memory)
    requires Holds(link, m) && lep in m.next && ep1 in m.next && epN in m.next && m.prev[lep] in m.next
    requires lep != ep1 && m.prev[lep] != epN
    modifies m.next.Keys
    ensures Holds(link, Joined(m, m.prev[lep], ep1, epN, lep)) && OnlyLink(link, m)
  {
    JoinedInSteps(m, m.prev[lep], ep1, epN, lep);
    SetNext(epN, lep, link, m);
    ghost var m1 := WithNext(m, epN, lep);
    SetPrev(ep1, Prev(lep, link, m1), link, m1);
    ghost var m2 := WithPrev(m1, ep1, m.prev[lep]);
    SetNext(Prev(lep, link, m2), ep1, link, m2);
    ghost var m3 := WithNext(m2, m.prev[lep], ep1);
    SetPrev(lep, epN, link, m3);
  }

  method SpliceAfter(lep: Elem, ep1: Elem, epN: Elem, link: Link, ghost m: Memory)
    requires Holds(link, m) && lep in m.next && ep1 in m.next && epN in m.next && m.next[lep] in m.next
    requires lep != epN && m.next[lep] != ep1
    modifies m.next.Keys
    ensures Holds(link, Joined(m, lep, ep1, epN, m.next[lep])) && OnlyLink(link, m)
  {
    JoinedInSteps(m, lep, ep1, epN, m.next[lep]);
    SetPrev(ep1, lep, link, m);
    ghost var m1 := WithPrev(m, ep1, lep);
    SetNext(epN, Next(lep, link, m1), link, m1);
    ghost var m2 := WithNext(m1, epN, m.next[lep]);
    SetPrev(Next(lep, link, m2), epN, link, m2);
    ghost var m3 := WithPrev(m2, m.next[lep], epN);
    SetNext(lep, ep1, link, m3);
  }

  method InsertBefore(lep: Elem, nep: Elem, link: Link, ghost m: Memory)
    requires Holds(link, m) && lep in m.next && nep in m.next && m.prev[lep] in m.next
    requires lep != nep && m.prev[lep] != nep
    modifies m.next.Keys
    ensures Holds(link, Joined(m, m.prev[lep], nep, nep, lep)) && OnlyLink(link, m)
  {
    SpliceBefore(lep, nep, nep, link, m);
  }

  method InsertAfter(lep: Elem, nep: Elem, link: Link, ghost m: Memory)
    requires Holds(link, m) && lep in m.next && nep in m.next && m.next[lep] in m.next
    requires lep != nep && m.next[lep] != nep
    modifies m.next.Keys
    ensures Holds(link, Joined(m, lep, nep, nep, m.next[lep])) && OnlyLink(link, m)
  {
    SpliceAfter(lep, nep, nep, link, m);
  }

  method SpliceHead(h: Elem, ep1: Elem, epN: Elem, link: Link, ghost m: Memory)
    requires Holds(link, m) && h in m.next && ep1 in m.next && epN in m.next && m.next[h] in m.next
    requires h != epN && m.next[h] != ep1
    modifies m.next.Keys
    ensures Holds(link, Joined(m, h, ep1, epN, m.next[h])) && OnlyLink(link, m)
  {
    SpliceAfter(h, ep1, epN, link, m);
  }

  method SpliceTail(h: Elem, ep1: Elem, epN: Elem, link: Link, ghost m: Memory)
    requires Holds(link, m) && h in m.next && ep1 in m.next && epN in m.next && m.prev[h] in m.next
    requires h != ep1 && m.prev[h] != epN
    modifies m.next.Keys
    ensures Holds(link, Joined(m, m.prev[h], ep1, epN, h)) && OnlyLink(link, m)
  {
    SpliceBefore(h, ep1, epN, link, m);
  }

  method InsertHead(h: Elem, nep: Elem, link: Link, ghost m: Memory)
    requires Holds(link, m) && h in m.next && nep in m.next && m.next[h] in m.next
    requires h != nep && m.next[h] != nep
    modifies m.next.Keys
    ensures Holds(link, Joined(m, h, nep, nep, m.next[h])) && OnlyLink(link, m)
  {
    SpliceHead(h, nep, nep, link, m);
  }

  method InsertTail(h: Elem, nep: Elem, link: Link, ghost m: Memory)
    requires Holds(link, m) && h in m.next && nep in m.next && m.prev[h] in m.next
    requires h != nep && m.prev[h] != nep
    modifies m.next.Keys
    ensures Holds(link, Joined(m, m.prev[h], nep, nep, h)) && OnlyLink(link, m)
  {
    SpliceTail(h, nep, nep, link, m);
  }

  // APR_RING_CONCAT and APR_RING_PREPEND.  The macro arguments `APR_RING_FIRST(h2)` and
  // `APR_RING_LAST(h2)` are expressions, read again in each statement of the splice.

  /** The elements of `h2` moved to the end of `h1`; nothing happens when there are none. */
  function Concatenated(m: Memory, h1: Elem, h2: Elem): Memory
    requires h1 in m.prev && h2 in m.next && h2 in m.prev
  {
    if m.next[h2] == h2 then m
    else Selfed(Joined(m, m.prev[h1], m.next[h2], m.prev[h2], h1), h2)
  }

  /** The elements of `h2` moved to the front of `h1`; nothing happens when there are none. */
  function Prepended(m: Memory, h1: Elem, h2: Elem): Memory
    requires h1 in m.next && h2 in m.next && h2 in m.prev
  {
    if m.next[h2] == h2 then m
    else Selfed(Joined(m, h1, m.next[h2], m.prev[h2], m.next[h1]), h2)
  }

  /** Two heads whose rings, as far as the two macros look, are complete and have nothing in common. */
  ghost predicate Apart(m: Memory, h1: Elem, h2: Elem) {
    && h1 in m.next && h2 in m.next && m.next.Keys == m.prev.Keys
    && m.next[h1] in m.next && m.prev[h1] in m.next && m.next[h2] in m.next && m.prev[h2] in m.next
    && h1 != h2 && h1 != m.next[h2] && h1 != m.prev[h2]
    && m.next[h1] != h2 && m.next[h1] != m.next[h2] && m.next[h1] != m.prev[h2]
    && m.prev[h1] != h2 && m.prev[h1] != m.next[h2] && m.prev[h1] != m.prev[h2]
    && (m.next[h2] == h2 <==> m.prev[h2] == h2)
  }

  method Concat(h1: Elem, h2: Elem, link: Link, ghost m: Memory)
    requires Holds(link, m) && Apart(m, h1, h2)
    modifies m.next.Keys
    ensures Holds(link, Concatenated(m, h1, h2)) && OnlyLink(link, m)
  {
    if Next(h2, link, m) != h2 {
      ghost var first, last, before := m.next[h2], m.prev[h2], m.prev[h1];
      JoinedInSteps(m, before, first, last, h1);
      SetNext(Prev(h2, link, m), h1, link, m);
      ghost var m1 := WithNext(m, last, h1);
      SetPrev(Next(h2, link, m1), Prev(h1, link, m1), link, m1);
      ghost var m2 := WithPrev(m1, first, before);
      SetNext(Prev(h1, link, m2), Next(h2, link, m2), link, m2);
      ghost var m3 := WithNext(m2, before, first);
      SetPrev(h1, Prev(h2, link, m3), link, m3);
      ghost var m4 := WithPrev(m3, h1, last);
      Init(h2, link, m4);
    }
  }

  method Prepend(h1: Elem, h2: Elem, link: Link, ghost m: Memory)
    requires Holds(link, m) && Apart(m, h1, h2)
    modifies m.next.Keys
    ensures Holds(link, Prepended(m, h1, h2)) && OnlyLink(link, m)
  {
    if Next(h2, link, m) != h2 {
      ghost var first, last, after := m.next[h2], m.prev[h2], m.next[h1];
      JoinedInSteps(m, h1, first, last, after);
      SetPrev(Next(h2, link, m), h1, link, m);
      ghost var m1 := WithPrev(m, first, h1);
      SetNext(Prev(h2, link, m1), Next(h1, link, m1), link, m1);
      ghost var m2 := WithNext(m1, last, after);
      SetPrev(Next(h1, link, m2), Prev(h2, link, m2), link, m2);
      ghost var m3 := WithPrev(m2, after, last);
      SetNext(h1, Next(h2, link, m3), link, m3);
      ghost var m4 := WithNext(m3, h1, first);
      Init(h2, link, m4);
    }
  }

  // APR_RING_UNSPLICE, APR_RING_REMOVE

  method Unsplice(ep1: Elem, epN: Elem, link: Link, ghost m: Memory)
    requires Holds(link, m) && ep1 in m.next && epN in m.next
    requires m.prev[ep1] in m.next && m.next[epN] in m.next
    modifies m.next.Keys
    ensures Holds(link, Bridged(m, m.prev[ep1], m.next[epN])) && OnlyLink(link, m)
  {
    SetNext(Prev(ep1, link, m), Next(epN, link, m), link, m);
    ghost var m1 := WithNext(m, m.prev[ep1], m.next[epN]);
    SetPrev(Next(epN, link, m1), Prev(ep1, link, m1), link, m1);
  }

  method Remove(ep: Elem, link: Link, ghost m: Memory)
    requires Holds(link, m) && ep in m.next && m.prev[ep] in m.next && m.next[ep] in m.next
    modifies m.next.Keys
    ensures Holds(link, Bridged(m, m.prev[ep], m.next[ep])) && OnlyLink(link, m)
  {
    Unsplice(ep, ep, link, m);
  }
}
