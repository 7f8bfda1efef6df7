/** Putting back what was unspliced, in reverse order. */
module RingUndo {
  import opened RingElem
  import opened LinkMemory
  import opened RingLists
  import opened RingRuns
  import RingMacros

  /** The pointers that unsplicing `ep1..epN` and putting it back go through are there. */
  ghost predicate InMemory(m: Memory, ep1: Elem, epN: Elem) {
    && m.next.Keys == m.prev.Keys
    && ep1 in m.next && epN in m.next && m.prev[ep1] in m.next && m.next[epN] in m.next
  }

  /** `ep1..epN` is linked to its two neighbours both ways. */
  ghost predicate LinkedIn(m: Memory, ep1: Elem, epN: Elem) {
    InMemory(m, ep1, epN) && m.next[m.prev[ep1]] == ep1 && m.prev[m.next[epN]] == epN
  }

  ghost function Unspliced(m: Memory, ep1: Elem, epN: Elem): Memory
    requires InMemory(m, ep1, epN)
  {
    Bridged(m, m.prev[ep1], m.next[epN])
  }

  /** What `APR_RING_SPLICE_AFTER(APR_RING_PREV(ep1), ep1, epN)` leaves. */
  ghost function Respliced(m: Memory, ep1: Elem, epN: Elem): Memory
    requires ep1 in m.prev && m.prev[ep1] in m.next
  {
    var b := m.next[m.prev[ep1]];
    var prev := m.prev[b := epN];
    Memory(m.next[epN := b][prev[ep1] := ep1], prev)
  }

  /** The pointers that putting a sequence back goes through are there. */
  ghost predicate CanResplice(m: Memory, ep1: Elem, epN: Elem) {
    && m.next.Keys == m.prev.Keys && ep1 in m.next && epN in m.next
    && m.prev[ep1] in m.next && m.next[m.prev[ep1]] in m.next
  }

  /** The macro argument `APR_RING_PREV(ep1)` is an expression, read again in each statement. */
  method Resplice(ep1: Elem, epN: Elem, link: Link, ghost m: Memory)
    requires RingMacros.Holds(link, m) && CanResplice(m, ep1, epN)
    modifies m.next.Keys
    ensures RingMacros.Holds(link, Respliced(m, ep1, epN)) && RingMacros.OnlyLink(link, m)
  {
    ghost var a, b := m.prev[ep1], m.next[m.prev[ep1]];
    RespliceSteps(m, ep1, epN);
    RingMacros.SetPrev(ep1, RingMacros.Prev(ep1, link, m), link, m);
    ghost var m1 := RingMacros.WithPrev(m, ep1, a);
    RingMacros.SetNext(epN, RingMacros.Next(RingMacros.Prev(ep1, link, m1), link, m1), link, m1);
    ghost var m2 := RingMacros.WithNext(m1, epN, b);
    RingMacros.SetPrev(RingMacros.Next(RingMacros.Prev(ep1, link, m2), link, m2), epN, link, m2);
    ghost var m3 := RingMacros.WithPrev(m2, b, epN);
    RingMacros.SetNext(RingMacros.Prev(ep1, link, m3), ep1, link, m3);
  }

  lemma RespliceSteps(m: Memory, ep1: Elem, epN: Elem)
    requires CanResplice(m, ep1, epN)
    ensures var b := m.next[m.prev[ep1]];
            var m1 := RingMacros.WithPrev(m, ep1, m.prev[ep1]);
            var m2 := RingMacros.WithNext(m1, epN, b);
            var m3 := RingMacros.WithPrev(m2, b, epN);
            && m1 == m && m2.next[m2.prev[ep1]] == b
            && RingMacros.WithNext(m3, m3.prev[ep1], ep1) == Respliced(m, ep1, epN)
  {
  }

  /** Putting a sequence back restores every pointer exactly when it was linked in both ways. */
  lemma RestoredIff(m: Memory, ep1: Elem, epN: Elem)
    requires InMemory(m, ep1, epN)
    ensures Respliced(Unspliced(m, ep1, epN), ep1, epN) == m <==> LinkedIn(m, ep1, epN)
  {
    var a, b := m.prev[ep1], m.next[epN];
    var u := Unspliced(m, ep1, epN);
    assert u.prev[ep1] == a && u.next[a] == b && u.next[epN] == b;
    var r := Respliced(u, ep1, epN);
    assert r.prev == m.prev[b := epN];
    assert r.next == m.next[a := ep1] by {
      assert r.next == u.next[epN := b][r.prev[ep1] := ep1];
      if b == ep1 {
        assert r.prev[ep1] == epN;
      }
    }
    if LinkedIn(m, ep1, epN) {
      assert r.next == m.next && r.prev == m.prev;
    } else {
      assert r.next[a] == ep1 && r.prev[b] == epN;
    }
  }

  /** Splicing a sequence in between `a` and `b` and unsplicing it again: every pointer is back, but
      for the two outer pointers of the sequence, exactly when `a` and `b` were neighbours. */
  lemma SplicedAndUnspliced(m: Memory, a: Elem, ep1: Elem, epN: Elem, b: Elem)
    requires m.next.Keys == m.prev.Keys
    requires a in m.next && b in m.next && ep1 in m.next && epN in m.next
    requires a != epN && a != ep1 && b != ep1 && b != epN
    ensures InMemory(Joined(m, a, ep1, epN, b), ep1, epN)
    ensures Unspliced(Joined(m, a, ep1, epN, b), ep1, epN) == Memory(m.next[epN := b], m.prev[ep1 := a])
            <==> Adjacent(m, a, b)
  {
    var u := Unspliced(Joined(m, a, ep1, epN, b), ep1, epN);
    assert u.next == m.next[a := b][epN := b];
    assert u.prev == m.prev[b := a][ep1 := a];
    if Adjacent(m, a, b) {
      assert m.next[a := b] == m.next && m.prev[b := a] == m.prev;
    } else {
      assert u.next[a] == b && u.prev[b] == a;
    }
  }

  // Many removals, undone last first.

  /** A sequence to take out: its first and its last element. */
  datatype Span = Span(ep1: Elem, epN: Elem)

  /** Each sequence is linked in at the time it is taken out. */
  ghost predicate Undoable(m: Memory, spans: seq<Span>)
    decreases |spans|
  {
    spans == [] || (
      && LinkedIn(m, spans[0].ep1, spans[0].epN)
      && Undoable(Unspliced(m, spans[0].ep1, spans[0].epN), spans[1..]))
  }

  ghost function UnspliceAll(m: Memory, spans: seq<Span>): (r: Memory)
    requires Undoable(m, spans)
    decreases |spans|
  {
    if spans == [] then m
    else UnspliceAll(Unspliced(m, spans[0].ep1, spans[0].epN), spans[1..])
  }

  /** Going back from `r` to `m`, one resplice for each span, the last one taken out first. */
  ghost predicate Undoes(r: Memory, spans: seq<Span>, m: Memory)
    decreases |spans|
  {
    if spans == [] then r == m
    else
      var s := spans[|spans| - 1];
      && CanResplice(r, s.ep1, s.epN)
      && Undoes(Respliced(r, s.ep1, s.epN), spans[..|spans| - 1], m)
  }

  /** Any list of removals, undone in reverse order, restores every pointer. */
  lemma {:induction false} UndoRestores(m: Memory, spans: seq<Span>)
    requires Undoable(m, spans)
    ensures Undoes(UnspliceAll(m, spans), spans, m)
    decreases |spans|
  {
    if spans != [] {
      var s, rest := spans[0], spans[1..];
      UndoRestores(Unspliced(m, s.ep1, s.epN), rest);
      RestoredIff(m, s.ep1, s.epN);
      UndoLast(UnspliceAll(m, spans), s, rest, Unspliced(m, s.ep1, s.epN), m);
      assert [s] + rest == spans;
    }
  }

  lemma {:induction false} UndoLast(r: Memory, s: Span, rest: seq<Span>, u: Memory, m: Memory)
    requires Undoes(r, rest, u)
    requires CanResplice(u, s.ep1, s.epN) && Respliced(u, s.ep1, s.epN) == m
    ensures Undoes(r, [s] + rest, m)
    decreases |rest|
  {
    var all := [s] + rest;
    if rest == [] {
      assert all[|all| - 1] == s && all[..|all| - 1] == [];
    } else {
      var t := rest[|rest| - 1];
      assert all[|all| - 1] == t && all[..|all| - 1] == [s] + rest[..|rest| - 1];
      UndoLast(Respliced(r, t.ep1, t.epN), s, rest[..|rest| - 1], u, m);
    }
  }

  // The same on the elements.

  lemma {:induction false} UnsplicedKeys(m: Memory, spans: seq<Span>)
    requires Undoable(m, spans)
    ensures spans != [] ==> UnspliceAll(m, spans).next.Keys == m.next.Keys
    ensures spans == [] ==> UnspliceAll(m, spans) == m
    decreases |spans|
  {
    if spans != [] {
      UnsplicedKeys(Unspliced(m, spans[0].ep1, spans[0].epN), spans[1..]);
    }
  }

  method UnspliceSpans(spans: seq<Span>, link: Link, ghost m: Memory)
    requires RingMacros.Holds(link, m) && Undoable(m, spans)
    modifies m.next.Keys
    ensures RingMacros.Holds(link, UnspliceAll(m, spans)) && RingMacros.OnlyLink(link, m)
    decreases |spans|
  {
    if spans != [] {
      RingMacros.Unsplice(spans[0].ep1, spans[0].epN, link, m);
      ghost var u := Unspliced(m, spans[0].ep1, spans[0].epN);
      assert u.next.Keys == m.next.Keys;
      UnspliceSpans(spans[1..], link, u);
    }
  }

  method RespliceSpans(spans: seq<Span>, link: Link, ghost r: Memory, ghost m: Memory)
    requires RingMacros.Holds(link, r) && Undoes(r, spans, m)
    modifies r.next.Keys
    ensures RingMacros.Holds(link, m) && RingMacros.OnlyLink(link, r)
    decreases |spans|
  {
    if spans != [] {
      var s := spans[|spans| - 1];
      Resplice(s.ep1, s.epN, link, r);
      ghost var r' := Respliced(r, s.ep1, s.epN);
      assert r'.next.Keys == r.next.Keys;
      RespliceSpans(spans[..|spans| - 1], link, r', m);
    }
  }

  /** Whatever sequences are taken off rings, one after the other, and put back in reverse order:
      afterwards the link field of every element holds what it held before. */
  method TakeOutAndPutBack(spans: seq<Span>, link: Link, ghost m: Memory, ghost L: Blocks)
    requires RingMacros.Holds(link, m) && Rep(m, L) && EnabledRun(L, Unsplices(spans))
    modifies m.next.Keys
    ensures RingMacros.Holds(link, m) && RingMacros.OnlyLink(link, m)
  {
    RingsRestored(m, L, spans);
    UnspliceSpans(spans, link, m);
    UnsplicedKeys(m, spans);
    RespliceSpans(spans, link, UnspliceAll(m, spans), m);
  }

  /** The removals as uses of `APR_RING_UNSPLICE`. */
  function Unsplices(spans: seq<Span>): (ops: seq<Op>)
    ensures |ops| == |spans|
  {
    if spans == [] then [] else [Unsplice(spans[0].ep1, spans[0].epN)] + Unsplices(spans[1..])
  }

  /** Whatever sequences are taken, one after the other, from the rings of a partitioned memory:
      undoing the removals in reverse order restores every pointer, and so every ring. */
  lemma {:induction false} RingsRestored(m: Memory, L: Blocks, spans: seq<Span>)
    requires Rep(m, L) && EnabledRun(L, Unsplices(spans))
    ensures Undoable(m, spans)
    ensures UnspliceAll(m, spans) == MemRun(m, Unsplices(spans))
    ensures Undoes(MemRun(m, Unsplices(spans)), spans, m)
    decreases |spans|
  {
    if spans != [] {
      var s, ops := spans[0], Unsplices(spans);
      assert ops[0] == Unsplice(s.ep1, s.epN) && ops[1..] == Unsplices(spans[1..]);
      StepRefines(m, L, ops[0]);
      CutOutRep(m, L, s.ep1, s.epN);
      RingsRestored(MemStep(m, ops[0]), ListStep(L, ops[0]), spans[1..]);
    }
    UndoRestores(m, spans);
  }
}
