/** Runs of ring macros on any number of rings at once. */
module RingRuns {
  import opened RingElem
  import opened Sequences
  import opened LinkMemory
  import opened RingLists
  import RingMacros

  /** One use of a macro, with the pointers it is given. */
  datatype Op =
    | Init(h: Elem)
    | ElemInit(e: Elem)
    | SpliceBefore(lep: Elem, ep1: Elem, epN: Elem)
    | SpliceAfter(lep: Elem, ep1: Elem, epN: Elem)
    | InsertBefore(lep: Elem, nep: Elem)
    | InsertAfter(lep: Elem, nep: Elem)
    | SpliceHead(h: Elem, ep1: Elem, epN: Elem)
    | SpliceTail(h: Elem, ep1: Elem, epN: Elem)
    | InsertHead(h: Elem, nep: Elem)
    | InsertTail(h: Elem, nep: Elem)
    | Concat(h1: Elem, h2: Elem)
    | Prepend(h1: Elem, h2: Elem)
    | Unsplice(ep1: Elem, epN: Elem)
    | Remove(e: Elem)

  /** What the macro relies on in memory. */
  ghost predicate Safe(m: Memory, op: Op) {
    m.next.Keys == m.prev.Keys && (
    || (op.Init? && op.h in m.next)
    || (op.ElemInit? && op.e in m.next)
    || (op.SpliceBefore? && SafeBefore(m, op.lep, op.ep1, op.epN))
    || (op.SpliceAfter? && SafeAfter(m, op.lep, op.ep1, op.epN))
    || (op.InsertBefore? && SafeBefore(m, op.lep, op.nep, op.nep))
    || (op.InsertAfter? && SafeAfter(m, op.lep, op.nep, op.nep))
    || (op.SpliceHead? && SafeAfter(m, op.h, op.ep1, op.epN))
    || (op.SpliceTail? && SafeBefore(m, op.h, op.ep1, op.epN))
    || (op.InsertHead? && SafeAfter(m, op.h, op.nep, op.nep))
    || (op.InsertTail? && SafeBefore(m, op.h, op.nep, op.nep))
    || (op.Concat? && RingMacros.Apart(m, op.h1, op.h2))
    || (op.Prepend? && RingMacros.Apart(m, op.h1, op.h2))
    || (op.Unsplice? && SafeCut(m, op.ep1, op.epN))
    || (op.Remove? && SafeCut(m, op.e, op.e)))
  }

  ghost predicate SafeBefore(m: Memory, lep: Elem, ep1: Elem, epN: Elem) {
    && lep in m.next && ep1 in m.next && epN in m.next && lep in m.prev && m.prev[lep] in m.next
    && lep != ep1 && m.prev[lep] != epN
  }

  ghost predicate SafeAfter(m: Memory, lep: Elem, ep1: Elem, epN: Elem) {
    && lep in m.next && ep1 in m.next && epN in m.next && m.next[lep] in m.next
    && lep != epN && m.next[lep] != ep1
  }

  ghost predicate SafeCut(m: Memory, ep1: Elem, epN: Elem) {
    && ep1 in m.next && epN in m.next && ep1 in m.prev && m.prev[ep1] in m.next && m.next[epN] in m.next
  }

  /** What the macro does to memory, as its own contract says.  Only meant for `Safe` uses. */
  ghost function MemStep(m: Memory, op: Op): Memory {
    if !Safe(m, op) then m else
    match op
    case Init(h) => Selfed(m, h)
    case ElemInit(e) => Selfed(m, e)
    case SpliceBefore(lep, ep1, epN) => Joined(m, m.prev[lep], ep1, epN, lep)
    case SpliceAfter(lep, ep1, epN) => Joined(m, lep, ep1, epN, m.next[lep])
    case InsertBefore(lep, nep) => Joined(m, m.prev[lep], nep, nep, lep)
    case InsertAfter(lep, nep) => Joined(m, lep, nep, nep, m.next[lep])
    case SpliceHead(h, ep1, epN) => Joined(m, h, ep1, epN, m.next[h])
    case SpliceTail(h, ep1, epN) => Joined(m, m.prev[h], ep1, epN, h)
    case InsertHead(h, nep) => Joined(m, h, nep, nep, m.next[h])
    case InsertTail(h, nep) => Joined(m, m.prev[h], nep, nep, h)
    case Concat(h1, h2) => RingMacros.Concatenated(m, h1, h2)
    case Prepend(h1, h2) => RingMacros.Prepended(m, h1, h2)
    case Unsplice(ep1, epN) => Bridged(m, m.prev[ep1], m.next[epN])
    case Remove(e) => Bridged(m, m.prev[e], m.next[e])
  }

  /** The macro, carried out on the elements themselves. */
  method Perform(op: Op, link: Link, ghost m: Memory)
    requires RingMacros.Holds(link, m) && Safe(m, op)
    modifies m.next.Keys
    ensures RingMacros.Holds(link, MemStep(m, op)) && RingMacros.OnlyLink(link, m)
  {
    match op
    case Init(h) => RingMacros.Init(h, link, m);
    case ElemInit(e) => RingMacros.ElemInit(e, link, m);
    case SpliceBefore(lep, ep1, epN) => RingMacros.SpliceBefore(lep, ep1, epN, link, m);
    case SpliceAfter(lep, ep1, epN) => RingMacros.SpliceAfter(lep, ep1, epN, link, m);
    case InsertBefore(lep, nep) => RingMacros.InsertBefore(lep, nep, link, m);
    case InsertAfter(lep, nep) => RingMacros.InsertAfter(lep, nep, link, m);
    case SpliceHead(h, ep1, epN) => RingMacros.SpliceHead(h, ep1, epN, link, m);
    case SpliceTail(h, ep1, epN) => RingMacros.SpliceTail(h, ep1, epN, link, m);
    case InsertHead(h, nep) => RingMacros.InsertHead(h, nep, link, m);
    case InsertTail(h, nep) => RingMacros.InsertTail(h, nep, link, m);
    case Concat(h1, h2) => RingMacros.Concat(h1, h2, link, m);
    case Prepend(h1, h2) => RingMacros.Prepend(h1, h2, link, m);
    case Unsplice(ep1, epN) => RingMacros.Unsplice(ep1, epN, link, m);
    case Remove(e) => RingMacros.Remove(e, link, m);
  }

  // The list model.

  /** `e` is on a ring: an element of it, or its head. */
  ghost predicate OnRing(L: Blocks, e: Elem) {
    InSome(L, e) && L[Home(L, e).0].ring
  }

  /** `ep1..epN` is all of one block. */
  ghost predicate Chain(L: Blocks, ep1: Elem, epN: Elem) {
    ep1 in L && L[ep1].nodes != [] && Last(L[ep1].nodes) == epN
  }

  ghost predicate Head(L: Blocks, h: Elem) {
    h in L && L[h].ring && L[h].nodes != []
  }

  /** `ep1..epN` is a stretch of one ring, going round from `ep1` to `epN`. */
  ghost predicate Segment(L: Blocks, ep1: Elem, epN: Elem) {
    OnRing(L, ep1) && OnRing(L, epN) && Home(L, ep1).0 == Home(L, epN).0
  }

  /** It goes all the way round: what follows `epN` is `ep1`. */
  ghost predicate AllRound(L: Blocks, ep1: Elem, epN: Elem) {
    Segment(L, ep1, epN) && (
    || Home(L, ep1).1 == Home(L, epN).1 + 1
    || (Home(L, ep1).1 == 0 && Home(L, epN).1 == |L[Home(L, ep1).0].nodes| - 1))
  }

  /** It does not go across the node that the ring is written from, which is its head if it has one. */
  ghost predicate Inner(L: Blocks, ep1: Elem, epN: Elem) {
    Segment(L, ep1, epN) && 1 <= Home(L, ep1).1 <= Home(L, epN).1
  }

  /** `e` is linked to itself: an element on no ring, or the head of an empty one. */
  ghost predicate Alone(L: Blocks, e: Elem) {
    e in L && L[e] == Block(true, [e])
  }

  /** How the macros may be used: what is spliced in must not be on the ring already, `CONCAT` and
      `PREPEND` take two rings, what is unspliced must be on one ring. */
  ghost predicate Enabled(L: Blocks, op: Op) {
    || (op.Init? && op.h in L && L[op.h].nodes != [])
    || (op.ElemInit? && op.e in L && |L[op.e].nodes| == 1)
    || (op.SpliceBefore? && OnRing(L, op.lep) && Chain(L, op.ep1, op.epN) && Home(L, op.lep).0 != op.ep1)
    || (op.SpliceAfter? && OnRing(L, op.lep) && Chain(L, op.ep1, op.epN) && Home(L, op.lep).0 != op.ep1)
    || (op.InsertBefore? && OnRing(L, op.lep) && op.nep in L && |L[op.nep].nodes| == 1 && Home(L, op.lep).0 != op.nep)
    || (op.InsertAfter? && OnRing(L, op.lep) && op.nep in L && |L[op.nep].nodes| == 1 && Home(L, op.lep).0 != op.nep)
    || (op.SpliceHead? && Head(L, op.h) && Chain(L, op.ep1, op.epN) && op.h != op.ep1)
    || (op.SpliceTail? && Head(L, op.h) && Chain(L, op.ep1, op.epN) && op.h != op.ep1)
    || (op.InsertHead? && Head(L, op.h) && op.nep in L && |L[op.nep].nodes| == 1 && op.h != op.nep)
    || (op.InsertTail? && Head(L, op.h) && op.nep in L && |L[op.nep].nodes| == 1 && op.h != op.nep)
    || (op.Concat? && Head(L, op.h1) && Head(L, op.h2) && op.h1 != op.h2)
    || (op.Prepend? && Head(L, op.h1) && Head(L, op.h2) && op.h1 != op.h2)
    || (op.Unsplice? && Segment(L, op.ep1, op.epN))
    || (op.Remove? && OnRing(L, op.e))
  }

  /** What the macro does to lists.  Only meant for `Enabled` uses. */
  ghost function ListStep(L: Blocks, op: Op): Blocks {
    if !Enabled(L, op) then L else
    match op
    case Init(h) => Reset(L, h)
    case ElemInit(e) => Reset(L, e)
    case SpliceBefore(lep, ep1, epN) => InsertedBefore(L, lep, ep1)
    case SpliceAfter(lep, ep1, epN) => InsertedAfter(L, lep, ep1)
    case InsertBefore(lep, nep) => InsertedBefore(L, lep, nep)
    case InsertAfter(lep, nep) => InsertedAfter(L, lep, nep)
    case SpliceHead(h, ep1, epN) => Insert(L, h, 1, ep1)
    case SpliceTail(h, ep1, epN) => Insert(L, h, |L[h].nodes|, ep1)
    case InsertHead(h, nep) => Insert(L, h, 1, nep)
    case InsertTail(h, nep) => Insert(L, h, |L[h].nodes|, nep)
    case Concat(h1, h2) => Move(L, h1, |L[h1].nodes|, h2)
    case Prepend(h1, h2) => Move(L, h1, 1, h2)
    case Unsplice(ep1, epN) => CutOut(L, ep1, epN)
    case Remove(e) => CutOut(L, e, e)
  }

  /** Just before `lep`; before a head is at the end of its list. */
  ghost function InsertedBefore(L: Blocks, lep: Elem, c: Elem): Blocks
    requires InSome(L, lep) && c in L
  {
    var (r, i) := Home(L, lep);
    Insert(L, r, if i == 0 then |L[r].nodes| else i, c)
  }

  /** Just after `lep`; after a head is at the front of its list. */
  ghost function InsertedAfter(L: Blocks, lep: Elem, c: Elem): Blocks
    requires InSome(L, lep) && c in L
  {
    var (r, i) := Home(L, lep);
    Insert(L, r, i + 1, c)
  }

  /** A stretch taken off its ring.  When it goes all the way round, nothing is left to close up; when
      it goes across the node that the ring is written from, the rest is written from the node after. */
  ghost function CutOut(L: Blocks, ep1: Elem, epN: Elem): Blocks
    requires Segment(L, ep1, epN)
  {
    var (r, i) := Home(L, ep1);
    var j := Home(L, epN).1;
    if AllRound(L, ep1, epN) then L
    else if Inner(L, ep1, epN) then Cut(L, r, i, j + 1)
    else CutAcross(L, r, i, j)
  }

  function CutAcross(L: Blocks, r: Elem, i: int, j: int): Blocks
    requires r in L && 0 <= i < |L[r].nodes| && (i == 0 || i > j + 1) && 0 <= j < |L[r].nodes| - 1
  {
    var n := |L[r].nodes|;
    Cut(Refiled(L, r, j + 1), L[r].nodes[j + 1], StartAfter(n, i, j), n)
  }

  /** Where position `i` is when counting starts after position `j`. */
  function StartAfter(n: int, i: int, j: int): (i': int)
    requires 0 <= i < n && 0 <= j < n - 1 && (i == 0 || i > j + 1)
    ensures 1 <= i' < n
  {
    if i == 0 then n - (j + 1) else i - (j + 1)
  }

  // One macro at a time.

  lemma BeforeRep(m: Memory, L: Blocks, lep: Elem, ep1: Elem, epN: Elem)
    requires Rep(m, L) && OnRing(L, lep) && Chain(L, ep1, epN) && Home(L, lep).0 != ep1
    ensures SafeBefore(m, lep, ep1, epN)
    ensures Rep(Joined(m, m.prev[lep], ep1, epN, lep), InsertedBefore(L, lep, ep1))
  {
    var (r, i) := Home(L, lep);
    var nodes := L[r].nodes;
    PathAt(m, L, r, i);
    InsertRep(m, L, r, if i == 0 then |nodes| else i, ep1);
    assert BlockOk(m, ep1, L[ep1]) && Disjoint(nodes, L[ep1].nodes);
  }

  lemma AfterRep(m: Memory, L: Blocks, lep: Elem, ep1: Elem, epN: Elem)
    requires Rep(m, L) && OnRing(L, lep) && Chain(L, ep1, epN) && Home(L, lep).0 != ep1
    ensures SafeAfter(m, lep, ep1, epN)
    ensures Rep(Joined(m, lep, ep1, epN, m.next[lep]), InsertedAfter(L, lep, ep1))
  {
    var (r, i) := Home(L, lep);
    var nodes := L[r].nodes;
    PathAt(m, L, r, i);
    InsertRep(m, L, r, i + 1, ep1);
    assert BlockOk(m, ep1, L[ep1]) && Disjoint(nodes, L[ep1].nodes);
    assert Path(L[r])[i + 1] in nodes;
  }

  lemma HeadHome(m: Memory, L: Blocks, h: Elem)
    requires Rep(m, L) && Head(L, h)
    ensures OnRing(L, h) && Home(L, h) == (h, 0)
  {
    assert BlockOk(m, h, L[h]);
    HomeIsUnique(m, L, h, h, 0);
  }

  /** The pointers at the two ends of a stretch. */
  lemma SegmentEnds(m: Memory, L: Blocks, ep1: Elem, epN: Elem)
    requires Rep(m, L) && Segment(L, ep1, epN)
    ensures SafeCut(m, ep1, epN)
    ensures var (r, i) := Home(L, ep1);
            var j := Home(L, epN).1;
            && r in L && L[r].ring && 0 <= i < |L[r].nodes| && 0 <= j < |L[r].nodes|
            && m.prev[ep1] == (if i == 0 then Last(L[r].nodes) else L[r].nodes[i - 1])
            && m.next[epN] == Path(L[r])[j + 1]
  {
    var (r, i) := Home(L, ep1);
    var j := Home(L, epN).1;
    var n := |L[r].nodes|;
    PathAt(m, L, r, i);
    PathAt(m, L, r, if i == 0 then n - 1 else i - 1);
    PathAt(m, L, r, j);
    PathAt(m, L, r, if j + 1 < n then j + 1 else 0);
  }

  lemma SegmentLinked(m: Memory, L: Blocks, ep1: Elem, epN: Elem)
    requires Rep(m, L) && Segment(L, ep1, epN)
    ensures SafeCut(m, ep1, epN) && m.prev[ep1] in m.next && m.next[epN] in m.prev
    ensures m.next[m.prev[ep1]] == ep1 && m.prev[m.next[epN]] == epN
  {
    var (r, i) := Home(L, ep1);
    var j := Home(L, epN).1;
    var n := |L[r].nodes|;
    SegmentEnds(m, L, ep1, epN);
    PathAt(m, L, r, if i == 0 then n - 1 else i - 1);
    PathAt(m, L, r, if j + 1 < n then j + 1 else 0);
  }

  /** Unsplicing a whole ring, or removing an element that is linked to itself, changes nothing. */
  lemma AllRoundKept(m: Memory, L: Blocks, ep1: Elem, epN: Elem)
    requires Rep(m, L) && AllRound(L, ep1, epN)
    ensures SafeCut(m, ep1, epN) && Bridged(m, m.prev[ep1], m.next[epN]) == m
    ensures m.prev[ep1] == epN && m.next[epN] == ep1
  {
    SegmentEnds(m, L, ep1, epN);
    SegmentLinked(m, L, ep1, epN);
    assert m.prev[ep1] == epN && m.next[epN] == ep1;
  }

  lemma CutAcrossRep(m: Memory, L: Blocks, ep1: Elem, epN: Elem)
    requires Rep(m, L) && Segment(L, ep1, epN) && !AllRound(L, ep1, epN) && !Inner(L, ep1, epN)
    ensures SafeCut(m, ep1, epN)
    ensures Rep(Bridged(m, m.prev[ep1], m.next[epN]), CutOut(L, ep1, epN))
  {
    var (r, i) := Home(L, ep1);
    var j := Home(L, epN).1;
    var n, nodes := |L[r].nodes|, L[r].nodes;
    SegmentEnds(m, L, ep1, epN);
    RefiledRep(m, L, r, j + 1);
    var L', i' := Refiled(L, r, j + 1), StartAfter(n, i, j);
    var after := nodes[j + 1];
    assert L'[after].nodes == nodes[j + 1..] + nodes[..j + 1];
    PathAt(m, L', after, i');
    CutRep(m, L', after, i', n);
  }

  lemma CutOutRep(m: Memory, L: Blocks, ep1: Elem, epN: Elem)
    requires Rep(m, L) && Segment(L, ep1, epN)
    ensures SafeCut(m, ep1, epN)
    ensures Rep(Bridged(m, m.prev[ep1], m.next[epN]), CutOut(L, ep1, epN))
    ensures m.next[m.prev[ep1]] == ep1 && m.prev[m.next[epN]] == epN
  {
    SegmentEnds(m, L, ep1, epN);
    SegmentLinked(m, L, ep1, epN);
    if AllRound(L, ep1, epN) {
      AllRoundKept(m, L, ep1, epN);
    } else if Inner(L, ep1, epN) {
      CutRep(m, L, Home(L, ep1).0, Home(L, ep1).1, Home(L, epN).1 + 1);
    } else {
      CutAcrossRep(m, L, ep1, epN);
    }
  }

  lemma ApartHeads(m: Memory, L: Blocks, h1: Elem, h2: Elem)
    requires Rep(m, L) && Head(L, h1) && Head(L, h2) && h1 != h2
    ensures RingMacros.Apart(m, h1, h2)
    ensures m.next[h2] == h2 <==> |L[h2].nodes| == 1
    ensures m.prev[h1] == Last(L[h1].nodes) && m.next[h1] == Path(L[h1])[1]
    ensures m.prev[h2] == Last(L[h2].nodes) && m.next[h2] == Path(L[h2])[1]
  {
    PathAt(m, L, h1, 0);
    PathAt(m, L, h2, 0);
    assert Disjoint(L[h1].nodes, L[h2].nodes);
    assert Path(L[h1])[1] in L[h1].nodes && Path(L[h2])[1] in L[h2].nodes;
    assert Last(L[h1].nodes) in L[h1].nodes && Last(L[h2].nodes) in L[h2].nodes;
  }

  lemma MovedRep(m: Memory, L: Blocks, h1: Elem, h2: Elem)
    requires Rep(m, L) && Head(L, h1) && Head(L, h2) && h1 != h2
    ensures RingMacros.Apart(m, h1, h2)
    ensures Rep(RingMacros.Concatenated(m, h1, h2), Move(L, h1, |L[h1].nodes|, h2))
    ensures Rep(RingMacros.Prepended(m, h1, h2), Move(L, h1, 1, h2))
  {
    ApartHeads(m, L, h1, h2);
    assert BlockOk(m, h1, L[h1]) && BlockOk(m, h2, L[h2]);
    if |L[h2].nodes| == 1 {
      NothingMoved(L, h1, |L[h1].nodes|, h2);
      NothingMoved(L, h1, 1, h2);
    } else {
      MoveRep(m, L, h1, |L[h1].nodes|, h2);
      MoveRep(m, L, h1, 1, h2);
    }
  }

  lemma NothingMoved(L: Blocks, h1: Elem, j: int, h2: Elem)
    requires Head(L, h1) && Head(L, h2) && h1 != h2 && L[h2].nodes == [h2] && 0 <= j <= |L[h1].nodes|
    ensures Move(L, h1, j, h2) == L
  {
    var nodes := L[h1].nodes;
    assert nodes[..j] + [] + nodes[j..] == nodes;
    assert L[h2].nodes[1..] == [];
  }

  lemma SpliceRefines(m: Memory, L: Blocks, op: Op)
    requires Rep(m, L) && Enabled(L, op)
    requires op.SpliceBefore? || op.SpliceAfter? || op.InsertBefore? || op.InsertAfter?
    ensures Safe(m, op) && Rep(MemStep(m, op), ListStep(L, op))
    ensures MemStep(m, op).next.Keys == m.next.Keys
  {
    match op
    case SpliceBefore(lep, ep1, epN) => BeforeRep(m, L, lep, ep1, epN);
    case SpliceAfter(lep, ep1, epN) => AfterRep(m, L, lep, ep1, epN);
    case InsertBefore(lep, nep) =>
      assert BlockOk(m, nep, L[nep]);
      BeforeRep(m, L, lep, nep, nep);
    case InsertAfter(lep, nep) =>
      assert BlockOk(m, nep, L[nep]);
      AfterRep(m, L, lep, nep, nep);
  }

  lemma EndRefines(m: Memory, L: Blocks, op: Op)
    requires Rep(m, L) && Enabled(L, op)
    requires op.SpliceHead? || op.SpliceTail? || op.InsertHead? || op.InsertTail?
    ensures Safe(m, op) && Rep(MemStep(m, op), ListStep(L, op))
    ensures MemStep(m, op).next.Keys == m.next.Keys
  {
    HeadHome(m, L, op.h);
    match op
    case SpliceHead(h, ep1, epN) => AfterRep(m, L, h, ep1, epN);
    case SpliceTail(h, ep1, epN) => BeforeRep(m, L, h, ep1, epN);
    case InsertHead(h, nep) =>
      assert BlockOk(m, nep, L[nep]);
      AfterRep(m, L, h, nep, nep);
    case InsertTail(h, nep) =>
      assert BlockOk(m, nep, L[nep]);
      BeforeRep(m, L, h, nep, nep);
  }

  lemma WholeRefines(m: Memory, L: Blocks, op: Op)
    requires Rep(m, L) && Enabled(L, op)
    requires op.Init? || op.ElemInit? || op.Concat? || op.Prepend?
    ensures Safe(m, op) && Rep(MemStep(m, op), ListStep(L, op))
    ensures MemStep(m, op).next.Keys == m.next.Keys
  {
    match op
    case Init(h) =>
      assert BlockOk(m, h, L[h]);
      ResetRep(m, L, h);
    case ElemInit(e) =>
      assert BlockOk(m, e, L[e]);
      ResetRep(m, L, e);
    case Concat(h1, h2) => MovedRep(m, L, h1, h2);
    case Prepend(h1, h2) => MovedRep(m, L, h1, h2);
  }

  lemma CutRefines(m: Memory, L: Blocks, op: Op)
    requires Rep(m, L) && Enabled(L, op) && (op.Unsplice? || op.Remove?)
    ensures Safe(m, op) && Rep(MemStep(m, op), ListStep(L, op))
    ensures MemStep(m, op).next.Keys == m.next.Keys
  {
    match op
    case Unsplice(ep1, epN) => CutOutRep(m, L, ep1, epN);
    case Remove(e) => CutOutRep(m, L, e, e);
  }

  /** One macro keeps memory partitioned, and does to the lists what the list model says. */
  lemma StepRefines(m: Memory, L: Blocks, op: Op)
    requires Rep(m, L) && Enabled(L, op)
    ensures Safe(m, op) && Rep(MemStep(m, op), ListStep(L, op))
    ensures MemStep(m, op).next.Keys == m.next.Keys
  {
    if op.SpliceBefore? || op.SpliceAfter? || op.InsertBefore? || op.InsertAfter? {
      SpliceRefines(m, L, op);
    } else if op.SpliceHead? || op.SpliceTail? || op.InsertHead? || op.InsertTail? {
      EndRefines(m, L, op);
    } else if op.Unsplice? || op.Remove? {
      CutRefines(m, L, op);
    } else {
      WholeRefines(m, L, op);
    }
  }

  // Runs.

  ghost predicate SafeRun(m: Memory, ops: seq<Op>)
    decreases |ops|
  {
    ops == [] || (Safe(m, ops[0]) && SafeRun(MemStep(m, ops[0]), ops[1..]))
  }

  ghost function MemRun(m: Memory, ops: seq<Op>): Memory
    decreases |ops|
  {
    if ops == [] then m else MemRun(MemStep(m, ops[0]), ops[1..])
  }

  ghost predicate EnabledRun(L: Blocks, ops: seq<Op>)
    decreases |ops|
  {
    ops == [] || (Enabled(L, ops[0]) && EnabledRun(ListStep(L, ops[0]), ops[1..]))
  }

  ghost function ListRun(L: Blocks, ops: seq<Op>): Blocks
    decreases |ops|
  {
    if ops == [] then L else ListRun(ListStep(L, ops[0]), ops[1..])
  }

  /** Every run of macros, on any number of rings, stays within memory, keeps it partitioned into
      rings and detached sequences, and computes the lists of the list model. */
  lemma {:induction false} RunRefines(m: Memory, L: Blocks, ops: seq<Op>)
    requires Rep(m, L) && EnabledRun(L, ops)
    ensures SafeRun(m, ops) && Rep(MemRun(m, ops), ListRun(L, ops))
    ensures MemRun(m, ops).next.Keys == m.next.Keys
    decreases |ops|
  {
    if ops != [] {
      StepRefines(m, L, ops[0]);
      RunRefines(MemStep(m, ops[0]), ListStep(L, ops[0]), ops[1..]);
    }
  }

  /** After every run, a head denotes the list that the list model gives it. */
  lemma RunDenotes(m: Memory, L: Blocks, ops: seq<Op>, h: Elem)
    requires Rep(m, L) && EnabledRun(L, ops) && Head(ListRun(L, ops), h)
    ensures IsRing(MemRun(m, ops), h, Contents(ListRun(L, ops), h))
  {
    RunRefines(m, L, ops);
    HeadDenotes(MemRun(m, ops), ListRun(L, ops), h);
  }

  lemma HeadDenotes(m: Memory, L: Blocks, h: Elem)
    requires Rep(m, L) && Head(L, h)
    ensures IsRing(m, h, Contents(L, h))
  {
    assert BlockOk(m, h, L[h]);
    assert [h] + Contents(L, h) == L[h].nodes;
  }

  // Rings that a macro does not name.

  ghost function Named(L: Blocks, op: Op): set<Elem>
    requires Enabled(L, op)
  {
    match op
    case Init(h) => {h}
    case ElemInit(e) => {e}
    case SpliceBefore(lep, ep1, epN) => {Home(L, lep).0, ep1}
    case SpliceAfter(lep, ep1, epN) => {Home(L, lep).0, ep1}
    case InsertBefore(lep, nep) => {Home(L, lep).0, nep}
    case InsertAfter(lep, nep) => {Home(L, lep).0, nep}
    case SpliceHead(h, ep1, epN) => {h, ep1}
    case SpliceTail(h, ep1, epN) => {h, ep1}
    case InsertHead(h, nep) => {h, nep}
    case InsertTail(h, nep) => {h, nep}
    case Concat(h1, h2) => {h1, h2}
    case Prepend(h1, h2) => {h1, h2}
    case Unsplice(ep1, epN) => {Home(L, ep1).0}
    case Remove(e) => {Home(L, e).0}
  }

  /** The elements whose pointers a macro writes. */
  ghost function Written(m: Memory, op: Op): set<Elem>
    requires Safe(m, op)
  {
    match op
    case Init(h) => {h}
    case ElemInit(e) => {e}
    case SpliceBefore(lep, ep1, epN) => {m.prev[lep], ep1, epN, lep}
    case SpliceAfter(lep, ep1, epN) => {lep, ep1, epN, m.next[lep]}
    case InsertBefore(lep, nep) => {m.prev[lep], nep, lep}
    case InsertAfter(lep, nep) => {lep, nep, m.next[lep]}
    case SpliceHead(h, ep1, epN) => {h, ep1, epN, m.next[h]}
    case SpliceTail(h, ep1, epN) => {m.prev[h], ep1, epN, h}
    case InsertHead(h, nep) => {h, nep, m.next[h]}
    case InsertTail(h, nep) => {m.prev[h], nep, h}
    case Concat(h1, h2) => {m.prev[h1], h1, m.next[h2], m.prev[h2], h2}
    case Prepend(h1, h2) => {h1, m.next[h1], m.next[h2], m.prev[h2], h2}
    case Unsplice(ep1, epN) => {m.prev[ep1], m.next[epN]}
    case Remove(e) => {m.prev[e], m.next[e]}
  }

  lemma SpliceWrites(m: Memory, L: Blocks, op: Op)
    requires Rep(m, L) && Enabled(L, op) && Safe(m, op)
    requires op.SpliceBefore? || op.SpliceAfter? || op.InsertBefore? || op.InsertAfter?
    ensures Covered(L, Named(L, op), Written(m, op))
  {
    match op
    case SpliceBefore(lep, ep1, epN) => NamedSplice(m, L, op, lep, ep1);
    case SpliceAfter(lep, ep1, epN) => NamedSplice(m, L, op, lep, ep1);
    case InsertBefore(lep, nep) => NamedSplice(m, L, op, lep, nep);
    case InsertAfter(lep, nep) => NamedSplice(m, L, op, lep, nep);
  }

  lemma EndWrites(m: Memory, L: Blocks, op: Op)
    requires Rep(m, L) && Enabled(L, op) && Safe(m, op)
    requires op.SpliceHead? || op.SpliceTail? || op.InsertHead? || op.InsertTail?
    ensures Covered(L, Named(L, op), Written(m, op))
  {
    HeadHome(m, L, op.h);
    match op
    case SpliceHead(h, ep1, epN) => NamedSplice(m, L, op, h, ep1);
    case SpliceTail(h, ep1, epN) => NamedSplice(m, L, op, h, ep1);
    case InsertHead(h, nep) => NamedSplice(m, L, op, h, nep);
    case InsertTail(h, nep) => NamedSplice(m, L, op, h, nep);
  }

  lemma WholeWrites(m: Memory, L: Blocks, op: Op)
    requires Rep(m, L) && Enabled(L, op) && Safe(m, op)
    requires op.Init? || op.ElemInit? || op.Concat? || op.Prepend?
    ensures Covered(L, Named(L, op), Written(m, op))
  {
    match op
    case Init(h) => NamedNode(m, L, op, h, 0);
    case ElemInit(e) => NamedNode(m, L, op, e, 0);
    case Concat(h1, h2) => NamedHead(m, L, op, h1); NamedHead(m, L, op, h2);
    case Prepend(h1, h2) => NamedHead(m, L, op, h1); NamedHead(m, L, op, h2);
  }

  lemma CutWrites(m: Memory, L: Blocks, op: Op)
    requires Rep(m, L) && Enabled(L, op) && Safe(m, op) && (op.Unsplice? || op.Remove?)
    ensures Covered(L, Named(L, op), Written(m, op))
  {
    match op
    case Unsplice(ep1, epN) => NamedRound(m, L, op, ep1); NamedRound(m, L, op, epN);
    case Remove(e) => NamedRound(m, L, op, e);
  }

  lemma WritesAreNamed(m: Memory, L: Blocks, op: Op)
    requires Rep(m, L) && Enabled(L, op) && Safe(m, op)
    ensures Covered(L, Named(L, op), Written(m, op))
  {
    if op.SpliceBefore? || op.SpliceAfter? || op.InsertBefore? || op.InsertAfter? {
      SpliceWrites(m, L, op);
    } else if op.SpliceHead? || op.SpliceTail? || op.InsertHead? || op.InsertTail? {
      EndWrites(m, L, op);
    } else if op.Unsplice? || op.Remove? {
      CutWrites(m, L, op);
    } else {
      WholeWrites(m, L, op);
    }
  }

  /** The neighbours of the place, and the ends of what is spliced in. */
  lemma NamedSplice(m: Memory, L: Blocks, op: Op, lep: Elem, c: Elem)
    requires Rep(m, L) && Enabled(L, op) && OnRing(L, lep) && Home(L, lep).0 in Named(L, op)
    requires c in Named(L, op) && c in L && L[c].nodes != []
    ensures lep in m.next && lep in m.prev
    ensures Covered(L, Named(L, op), {m.prev[lep], lep, m.next[lep], c, Last(L[c].nodes)})
  {
    NamedRound(m, L, op, lep);
    NamedChain(m, L, op, c);
  }

  lemma NamedNode(m: Memory, L: Blocks, op: Op, k: Elem, i: int)
    requires Rep(m, L) && Enabled(L, op) && k in Named(L, op) && k in L && 0 <= i < |L[k].nodes|
    ensures OnOneOf(L, Named(L, op), L[k].nodes[i])
    ensures i == 0 ==> L[k].nodes[i] == k
  {
    assert BlockOk(m, k, L[k]);
    Filed(L, Named(L, op), k, L[k].nodes[i]);
  }

  lemma NamedRound(m: Memory, L: Blocks, op: Op, e: Elem)
    requires Rep(m, L) && Enabled(L, op) && OnRing(L, e) && Home(L, e).0 in Named(L, op)
    ensures e in m.next && e in m.prev
    ensures OnOneOf(L, Named(L, op), e)
    ensures OnOneOf(L, Named(L, op), m.prev[e]) && OnOneOf(L, Named(L, op), m.next[e])
  {
    var (r, i) := Home(L, e);
    var n := |L[r].nodes|;
    PathAt(m, L, r, i);
    NamedNode(m, L, op, r, i);
    NamedNode(m, L, op, r, if i + 1 < n then i + 1 else 0);
    NamedNode(m, L, op, r, if i == 0 then n - 1 else i - 1);
  }

  lemma NamedHead(m: Memory, L: Blocks, op: Op, h: Elem)
    requires Rep(m, L) && Enabled(L, op) && Head(L, h) && h in Named(L, op)
    ensures h in m.next && h in m.prev
    ensures OnOneOf(L, Named(L, op), h)
    ensures OnOneOf(L, Named(L, op), m.prev[h]) && OnOneOf(L, Named(L, op), m.next[h])
  {
    HeadHome(m, L, h);
    NamedRound(m, L, op, h);
  }

  lemma NamedChain(m: Memory, L: Blocks, op: Op, c: Elem)
    requires Rep(m, L) && Enabled(L, op) && c in Named(L, op) && c in L && L[c].nodes != []
    ensures OnOneOf(L, Named(L, op), c) && OnOneOf(L, Named(L, op), Last(L[c].nodes))
  {
    NamedNode(m, L, op, c, 0);
    NamedNode(m, L, op, c, |L[c].nodes| - 1);
  }

  /** A ring or sequence that the macro does not name keeps its list, and every pointer. */
  lemma OthersUntouched(m: Memory, L: Blocks, op: Op, k: Elem)
    requires Rep(m, L) && Enabled(L, op) && k in L && k !in Named(L, op)
    ensures Safe(m, op)
    ensures k in ListStep(L, op) && ListStep(L, op)[k] == L[k]
    ensures forall i | 0 <= i < |L[k].nodes| ::
              var e := L[k].nodes[i];
              e in m.next && MemStep(m, op).next[e] == m.next[e] && MemStep(m, op).prev[e] == m.prev[e]
  {
    StepRefines(m, L, op);
    WritesAreNamed(m, L, op);
    assert SameOutside(m, MemStep(m, op), Written(m, op));
    UntouchedBlock(m, MemStep(m, op), L, Named(L, op), Written(m, op), k);
    assert BlockOk(m, k, L[k]);
    KeptFiled(m, L, op, k);
  }

  lemma KeptFiled(m: Memory, L: Blocks, op: Op, k: Elem)
    requires Rep(m, L) && Enabled(L, op) && k in L && k !in Named(L, op)
    ensures k in ListStep(L, op) && ListStep(L, op)[k] == L[k]
  {
    match op
    case Init(h) =>
      assert BlockOk(m, h, L[h]);
      if |L[h].nodes| > 1 { NotAKey(m, L, h, 1); }
    case Unsplice(ep1, epN) => CutKeeps(m, L, ep1, epN, k);
    case Remove(e) => CutKeeps(m, L, e, e, k);
    case _ =>
  }

  lemma CutKeeps(m: Memory, L: Blocks, ep1: Elem, epN: Elem, k: Elem)
    requires Rep(m, L) && Segment(L, ep1, epN) && k in L && k != Home(L, ep1).0
    ensures k in CutOut(L, ep1, epN) && CutOut(L, ep1, epN)[k] == L[k]
  {
    var (r, i) := Home(L, ep1);
    var j := Home(L, epN).1;
    assert BlockOk(m, r, L[r]);
    if i > 0 {
      NotAKey(m, L, r, i);
    }
    if j + 1 < |L[r].nodes| {
      NotAKey(m, L, r, j + 1);
    }
  }

  // Several link fields.

  /** One use of a macro through one link field. */
  datatype Use = Use(link: Link, op: Op)

  /** The uses through one field, in order. */
  function Through(link: Link, uses: seq<Use>): seq<Op> {
    if uses == [] then []
    else (if uses[0].link == link then [uses[0].op] else []) + Through(link, uses[1..])
  }

  /** What a field must hold before a program is run.  Elements of `U` without that field, such as the
      heads of rings through other fields, are no keys of `m`. */
  ghost predicate Ready(l: Link, U: set<Elem>, m: Memory, L: Blocks, uses: seq<Use>) {
    m.next.Keys <= U && Rep(m, L) && EnabledRun(L, Through(l, uses))
  }

  /** The same field afterwards: as if only its own macros had been run. */
  ghost predicate Done(l: Link, m: Memory, L: Blocks, uses: seq<Use>)
    reads m.next.Keys
  {
    && SafeRun(m, Through(l, uses))
    && MemRun(m, Through(l, uses)).next.Keys == m.next.Keys
    && RingMacros.Holds(l, MemRun(m, Through(l, uses)))
    && Rep(MemRun(m, Through(l, uses)), ListRun(L, Through(l, uses)))
  }

  ghost function MemNow(l: Link, m: Memory, u: Use): Memory {
    if l == u.link then MemStep(m, u.op) else m
  }

  ghost function ListsNow(l: Link, L: Blocks, u: Use): Blocks {
    if l == u.link then ListStep(L, u.op) else L
  }

  /** One use of a macro changes what its own field holds, and no other. */
  method PerformUse(u: Use, ghost links: set<Link>, ghost U: set<Elem>, ghost mem: Link -> Memory)
    requires u.link in links && Safe(mem(u.link), u.op)
    requires forall l {:trigger mem(l)} | l in links :: mem(l).next.Keys <= U && RingMacros.Holds(l, mem(l))
    modifies mem(u.link).next.Keys
    ensures forall l {:trigger mem(l)} | l in links :: RingMacros.Holds(l, MemNow(l, mem(l), u))
  {
    ghost var was := map e | e in U :: RingMacros.Others(e, u.link);
    forall l, e | l in links && l != u.link && e in mem(l).next
      ensures l in was[e] && was[e][l] == Entry(mem(l).next[e], mem(l).prev[e])
    {
      assert RingMacros.Has(e, l, mem(l));
    }
    Perform(u.op, u.link, mem(u.link));
    forall l | l in links && l != u.link
      ensures RingMacros.Holds(l, mem(l))
    {
      forall e | e in mem(l).next
        ensures RingMacros.Has(e, l, mem(l))
      {
        assert RingMacros.Others(e, u.link) == was[e];
      }
    }
  }

  lemma ReadyNext(l: Link, U: set<Elem>, m: Memory, L: Blocks, uses: seq<Use>)
    requires uses != [] && Ready(l, U, m, L, uses)
    ensures Ready(l, U, MemNow(l, m, uses[0]), ListsNow(l, L, uses[0]), uses[1..])
    ensures l == uses[0].link ==> Safe(m, uses[0].op)
  {
    var ops := Through(l, uses);
    if l == uses[0].link {
      assert ops[0] == uses[0].op && ops[1..] == Through(l, uses[1..]);
      StepRefines(m, L, uses[0].op);
    } else {
      assert ops == Through(l, uses[1..]);
    }
  }

  lemma DoneNext(l: Link, U: set<Elem>, m: Memory, L: Blocks, uses: seq<Use>)
    requires uses != [] && Ready(l, U, m, L, uses)
    requires Done(l, MemNow(l, m, uses[0]), ListsNow(l, L, uses[0]), uses[1..])
    ensures Done(l, m, L, uses)
  {
    var ops := Through(l, uses);
    RunRefines(m, L, ops);
    if l == uses[0].link {
      assert ops[0] == uses[0].op && ops[1..] == Through(l, uses[1..]);
      assert MemRun(m, ops) == MemRun(MemNow(l, m, uses[0]), Through(l, uses[1..]));
    } else {
      assert ops == Through(l, uses[1..]);
    }
  }

  /** A program of ring macros over elements that carry any of several link fields, in any
      interleaving: each field ends up as if only its own macros had been run, and denotes what the
      list model makes of those. */
  method RunProgram(uses: seq<Use>, ghost links: set<Link>, ghost U: set<Elem>,
                    ghost mem: Link -> Memory, ghost lists: Link -> Blocks)
    requires forall u | u in uses :: u.link in links
    requires forall l {:trigger mem(l)} | l in links ::
               Ready(l, U, mem(l), lists(l), uses) && RingMacros.Holds(l, mem(l))
    modifies U
    ensures forall l {:trigger mem(l)} | l in links :: Done(l, mem(l), lists(l), uses)
    decreases |uses|
  {
    if uses != [] {
      var u := uses[0];
      ReadyNext(u.link, U, mem(u.link), lists(u.link), uses);
      PerformUse(u, links, U, mem);
      ghost var mem' := l => MemNow(l, mem(l), u);
      ghost var lists' := l => ListsNow(l, lists(l), u);
      forall l | l in links
        ensures Ready(l, U, mem'(l), lists'(l), uses[1..])
      {
        ReadyNext(l, U, mem(l), lists(l), uses);
      }
      RunProgram(uses[1..], links, U, mem', lists');
      forall l | l in links
        ensures Done(l, mem(l), lists(l), uses)
      {
        assert Done(l, mem'(l), lists'(l), uses[1..]);
        DoneNext(l, U, mem(l), lists(l), uses);
      }
    }
  }
}
