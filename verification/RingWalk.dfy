/** Going round a ring: the two iterators and the consistency checker. */
module RingWalk {
  import opened RingElem
  import opened Sequences
  import opened LinkMemory
  import RingMacros

  /** Every element's pointers lead to elements. */
  ghost predicate Closed(m: Memory) {
    && m.next.Keys == m.prev.Keys
    && forall e {:trigger LeadsOn(m, e)} | e in m.next :: LeadsOn(m, e)
  }

  ghost predicate LeadsOn(m: Memory, e: Elem) {
    e in m.next && m.next[e] in m.next && e in m.prev && m.prev[e] in m.next
  }

  // APR_RING_CHECK_ELEM_CONSISTENCY

  /** The elements visited so far, starting from `start` and following `next`. */
  ghost predicate Walk(m: Memory, start: Elem, path: seq<Elem>) {
    && path != [] && path[0] == start && Distinct(path)
    && (forall i | 0 <= i < |path| :: path[i] in m.next)
    && Linked(m, path)
  }

  /** A walk round a ring goes along the ring. */
  lemma {:induction false} WalkInRing(m: Memory, start: Elem, path: seq<Elem>, xs: seq<Elem>)
    requires Walk(m, start, path) && IsRing(m, start, xs)
    ensures |path| <= |xs| + 1 && path == ([start] + xs)[..|path|]
    decreases |path|
  {
    var c := [start] + xs;
    var p := c + [start];
    var n := |path| - 1;
    if n > 0 {
      assert Walk(m, start, path[..n]) by {
        LinkedPrefix(m, path, n);
      }
      WalkInRing(m, start, path[..n], xs);
      assert Adjacent(m, path[n - 1], path[n]);
      assert Adjacent(m, p[n - 1], p[n]);
      assert path[n - 1] == path[..n][n - 1] == c[n - 1] == p[n - 1];
      assert path[n] == p[n];
      assert path[n] != path[0];
    }
  }

  lemma LinkedPrefix(m: Memory, path: seq<Elem>, n: nat)
    requires Linked(m, path) && n <= |path|
    ensures Linked(m, path[..n])
  {
    forall i | 0 <= i < n - 1
      ensures Adjacent(m, path[..n][i], path[..n][i + 1])
    {
      assert Adjacent(m, path[i], path[i + 1]);
    }
  }

  /** On a ring, no check fails. */
  lemma ChecksPass(m: Memory, start: Elem, path: seq<Elem>, xs: seq<Elem>)
    requires Closed(m) && Walk(m, start, path) && IsRing(m, start, xs)
    ensures var here := Last(path);
            && here in m.next && here in m.prev && m.next[here] in m.prev && m.prev[here] in m.next
            && m.prev[m.next[here]] == here && m.next[m.prev[here]] == here
  {
    WalkInRing(m, start, path, xs);
    var p := [start] + xs + [start];
    var n := |path| - 1;
    assert Last(path) == ([start] + xs)[..|path|][n] == p[n];
    assert Adjacent(m, p[n], p[n + 1]);
    if n > 0 {
      assert Adjacent(m, p[n - 1], p[n]);
    } else {
      assert Adjacent(m, p[|xs|], p[|xs| + 1]);
    }
  }

  /** A walk whose checks have passed cannot run back into itself but at `start`. */
  lemma NoLasso(m: Memory, start: Elem, path: seq<Elem>)
    requires Walk(m, start, path) && Adjacent(m, Last(path), m.next[Last(path)])
    ensures forall i | 1 <= i < |path| :: path[i] != m.next[Last(path)]
  {
    forall i | 1 <= i < |path|
      ensures path[i] != m.next[Last(path)]
    {
      assert Adjacent(m, path[i - 1], path[i]);
    }
  }

  lemma WalkCloses(m: Memory, start: Elem, path: seq<Elem>)
    requires Walk(m, start, path) && Adjacent(m, Last(path), start)
    ensures IsRing(m, start, path[1..])
  {
    assert [start] + path[1..] == path;
    var p := path + [start];
    forall i | 0 <= i < |p| - 1
      ensures Adjacent(m, p[i], p[i + 1])
    {
      if i < |path| - 1 {
        assert Adjacent(m, path[i], path[i + 1]);
      }
    }
  }

  lemma WalkOn(m: Memory, start: Elem, path: seq<Elem>, e: Elem)
    requires Walk(m, start, path) && Adjacent(m, Last(path), e) && e != start && e in m.next
    ensures Walk(m, start, path + [e])
  {
    NoLasso(m, start, path);
    var p := path + [e];
    forall i | 0 <= i < |p| - 1
      ensures Adjacent(m, p[i], p[i + 1])
    {
      if i < |path| - 1 {
        assert Adjacent(m, path[i], path[i + 1]);
      }
    }
  }

  /** The checker always stops, whatever the pointers; and it finds no fault exactly when `start`
      lies on a ring whose pointers agree both ways. */
  method CheckElemConsistency(start: Elem, link: Link, ghost m: Memory) returns (ok: bool)
    requires RingMacros.Holds(link, m) && Closed(m) && start in m.next
    ensures ok <==> exists xs :: IsRing(m, start, xs)
  {
    var here := start;
    ghost var path := [start];
    assert Linked(m, path);
    while true
      invariant Walk(m, start, path) && here == Last(path)
      invariant |path| <= |m.next.Keys|
      decreases |m.next.Keys| - |path|
    {
      assert LeadsOn(m, here);
      forall xs | IsRing(m, start, xs)
        ensures m.prev[m.next[here]] == here && m.next[m.prev[here]] == here
      {
        ChecksPass(m, start, path, xs);
      }
      if RingMacros.Prev(RingMacros.Next(here, link, m), link, m) != here {
        return false;
      }
      if RingMacros.Next(RingMacros.Prev(here, link, m), link, m) != here {
        return false;
      }
      here := RingMacros.Next(here, link, m);
      if here == start {
        WalkCloses(m, start, path);
        return true;
      }
      WalkOn(m, start, path, here);
      path := path + [here];
      Pigeonhole(path, m.next.Keys);
    }
  }

  method CheckConsistency(h: Elem, link: Link, ghost m: Memory) returns (ok: bool)
    requires RingMacros.Holds(link, m) && Closed(m) && h in m.next
    ensures ok <==> exists xs :: IsRing(m, h, xs)
  {
    ok := CheckElemConsistency(h, link, m);
  }

  // APR_RING_FOREACH

  method ForEach(h: Elem, link: Link, ghost m: Memory, ghost xs: seq<Elem>) returns (visited: seq<Elem>)
    requires RingMacros.Holds(link, m) && h in m.next && IsRing(m, h, xs)
    ensures visited == xs
  {
    ghost var p := [h] + xs + [h];
    assert Adjacent(m, p[0], p[1]);
    HeadNotInside(m, h, xs);
    visited := [];
    var ep := RingMacros.Next(h, link, m);
    while ep != h
      invariant |visited| <= |xs| && visited == xs[..|visited|] && ep == p[|visited| + 1]
      decreases |xs| - |visited|
    {
      assert Adjacent(m, p[|visited| + 1], p[|visited| + 2]);
      visited := visited + [ep];
      ep := RingMacros.Next(ep, link, m);
    }
  }

  /** The memory seen through `prev` instead of `next`. */
  function Mirror(m: Memory): Memory {
    Memory(m.prev, m.next)
  }

  function Reversed(xs: seq<Elem>): (r: seq<Elem>)
    ensures |r| == |xs| && forall i | 0 <= i < |xs| :: r[i] == xs[|xs| - 1 - i]
  {
    if xs == [] then [] else Reversed(xs[1..]) + [xs[0]]
  }

  /** The walk from `APR_RING_LAST` along `prev` meets the elements of the walk from
      `APR_RING_FIRST` along `next`, in reverse order. */
  lemma BackwardIsReverse(m: Memory, h: Elem, xs: seq<Elem>)
    requires IsRing(m, h, xs)
    ensures IsRing(Mirror(m), h, Reversed(xs))
  {
    var p, q := [h] + xs + [h], [h] + Reversed(xs) + [h];
    var n := |xs|;
    forall i | 0 <= i < |q| - 1
      ensures Adjacent(Mirror(m), q[i], q[i + 1])
    {
      assert q[i] == p[n + 1 - i] && q[i + 1] == p[n - i];
      assert Adjacent(m, p[n - i], p[n - i + 1]);
    }
    var c, d := [h] + xs, [h] + Reversed(xs);
    forall i, j | 0 <= i < j < |d|
      ensures d[i] != d[j]
    {
      assert d[j] == c[n + 1 - j];
      assert d[i] == if i == 0 then c[0] else c[n + 1 - i];
    }
  }
}
