/** What one link field of a set of elements holds, as a value; and the shapes
    (paths and rings) that the ring macros build in it. */
module LinkMemory {
  import opened RingElem
  import opened Sequences

  /** The `next` and `prev` pointers of every element, through one link field. */
  datatype Memory = Memory(next: map<Elem, Elem>, prev: map<Elem, Elem>)

  ghost predicate Disjoint(s: seq<Elem>, t: seq<Elem>) {
    forall i, j | 0 <= i < |s| && 0 <= j < |t| :: s[i] != t[j]
  }

  /** `a` is followed by `b`, as both of their pointers say. */
  ghost predicate Adjacent(m: Memory, a: Elem, b: Elem) {
    a in m.next && b in m.prev && m.next[a] == b && m.prev[b] == a
  }

  /** Neighbours on `p` are linked both ways. */
  ghost predicate Linked(m: Memory, p: seq<Elem>) {
    forall i | 0 <= i < |p| - 1 :: Adjacent(m, p[i], p[i + 1])
  }

  /** Starting from `h` and going round once meets exactly `xs`.  When `h` is a
      sentinel, `xs` is the list the ring head denotes. */
  ghost predicate IsRing(m: Memory, h: Elem, xs: seq<Elem>) {
    && Distinct([h] + xs)
    && Linked(m, [h] + xs + [h])
  }

  // The net effect of the macros, every pointer written at once.

  /** The sequence `ep1..epN` put between `a` and `b`. */
  function Joined(m: Memory, a: Elem, ep1: Elem, epN: Elem, b: Elem): Memory {
    Memory(m.next[a := ep1][epN := b], m.prev[ep1 := a][b := epN])
  }

  /** Everything between `a` and `b` skipped. */
  function Bridged(m: Memory, a: Elem, b: Elem): Memory {
    Memory(m.next[a := b], m.prev[b := a])
  }

  /** `e` linked to itself. */
  function Selfed(m: Memory, e: Elem): Memory {
    Memory(m.next[e := e], m.prev[e := e])
  }

  /** A ring head denotes one list only. */
  lemma RingIsUnique(m: Memory, h: Elem, xs: seq<Elem>, ys: seq<Elem>)
    requires IsRing(m, h, xs) && IsRing(m, h, ys)
    ensures xs == ys
  {
    if |xs| <= |ys| {
      RingPrefix(m, h, xs, ys);
    } else {
      RingPrefix(m, h, ys, xs);
    }
  }

  lemma HeadNotInside(m: Memory, h: Elem, xs: seq<Elem>)
    requires IsRing(m, h, xs)
    ensures forall i | 0 <= i < |xs| :: xs[i] != h
  {
    forall i | 0 <= i < |xs|
      ensures xs[i] != h
    {
      assert ([h] + xs)[0] != ([h] + xs)[i + 1];
    }
  }

  lemma RingPrefix(m: Memory, h: Elem, xs: seq<Elem>, ys: seq<Elem>)
    requires IsRing(m, h, xs) && IsRing(m, h, ys) && |xs| <= |ys|
    ensures xs == ys
  {
    var p, q := [h] + xs + [h], [h] + ys + [h];
    var n := 0;
    while n < |xs| + 1
      invariant n <= |xs| + 1
      invariant forall i | 0 <= i <= n :: p[i] == q[i]
    {
      assert Adjacent(m, p[n], p[n + 1]) && Adjacent(m, q[n], q[n + 1]);
      n := n + 1;
    }
    HeadNotInside(m, h, ys);
    assert q[|xs| + 1] == p[|xs| + 1] == h;
    assert forall i | 1 <= i <= |ys| :: q[i] == ys[i - 1];
    assert |xs| == |ys|;
    assert forall i | 0 <= i < |xs| :: xs[i] == p[i + 1] == q[i + 1] == ys[i];
  }

  /** A path stays a path in a memory that agrees on its nodes. */
  lemma LinkedFrame(m: Memory, m': Memory, p: seq<Elem>)
    requires Linked(m, p)
    requires forall i | 0 <= i < |p| && p[i] in m.next :: p[i] in m'.next && m'.next[p[i]] == m.next[p[i]]
    requires forall i | 0 <= i < |p| && p[i] in m.prev :: p[i] in m'.prev && m'.prev[p[i]] == m.prev[p[i]]
    ensures Linked(m', p)
  {
    forall i | 0 <= i < |p| - 1
      ensures Adjacent(m', p[i], p[i + 1])
    {
      assert Adjacent(m, p[i], p[i + 1]);
    }
  }

  /** Splicing `c` in at the seam of the path `x + y`. */
  lemma SplicedPath(m: Memory, x: seq<Elem>, c: seq<Elem>, y: seq<Elem>)
    requires x != [] && c != [] && y != []
    requires Linked(m, x + y) && Linked(m, c)
    requires Distinct(x) && Distinct(c) && Distinct(y)
    requires Disjoint(x, c) && Disjoint(y, c)
    requires Disjoint(x, y[..|y| - 1]) && Disjoint(x[1..], y)
    ensures Linked(Joined(m, Last(x), c[0], Last(c), y[0]), x + c + y)
  {
    var m' := Joined(m, Last(x), c[0], Last(c), y[0]);
    var p := x + c + y;
    forall i | 0 <= i < |p| - 1
      ensures Adjacent(m', p[i], p[i + 1])
    {
      if i < |x| - 1 {
        assert p[i] == (x + y)[i] && p[i + 1] == (x + y)[i + 1] == x[1..][i];
        assert Adjacent(m, p[i], p[i + 1]);
      } else if i == |x| - 1 {
        assert p[i] == Last(x) && p[i + 1] == c[0];
      } else if i < |x| + |c| - 1 {
        assert p[i] == c[i - |x|] && p[i + 1] == c[i - |x| + 1];
        assert Adjacent(m, c[i - |x|], c[i - |x| + 1]);
      } else if i == |x| + |c| - 1 {
        assert p[i] == Last(c) && p[i + 1] == y[0];
      } else {
        var j := i - |c|;
        assert p[i] == (x + y)[j] == y[j - |x|] == y[..|y| - 1][j - |x|];
        assert p[i + 1] == (x + y)[j + 1] == y[j + 1 - |x|];
        assert Adjacent(m, (x + y)[j], (x + y)[j + 1]);
      }
    }
  }

  /** Unsplicing `c` from the path `x + c + y`: the rest closes up, `c` keeps its inner links. */
  lemma UnsplicedPath(m: Memory, x: seq<Elem>, c: seq<Elem>, y: seq<Elem>)
    requires x != [] && c != [] && y != []
    requires Linked(m, x + c + y)
    requires Distinct(x) && Distinct(c) && Distinct(y)
    requires Disjoint(x, c) && Disjoint(y, c)
    requires Disjoint(x, y[..|y| - 1]) && Disjoint(x[1..], y)
    ensures Adjacent(m, Last(x), c[0]) && Adjacent(m, Last(c), y[0])
    ensures Linked(Bridged(m, Last(x), y[0]), x + y)
    ensures Linked(Bridged(m, Last(x), y[0]), c)
    ensures Linked(m, c)
  {
    var m' := Bridged(m, Last(x), y[0]);
    var p := x + c + y;
    assert p[|x| - 1] == Last(x) && p[|x|] == c[0];
    assert p[|x| + |c| - 1] == Last(c) && p[|x| + |c|] == y[0];
    assert Adjacent(m, p[|x| - 1], p[|x|]);
    assert Adjacent(m, p[|x| + |c| - 1], p[|x| + |c|]);
    forall i | 0 <= i < |x + y| - 1
      ensures Adjacent(m', (x + y)[i], (x + y)[i + 1])
    {
      if i < |x| - 1 {
        assert Adjacent(m, p[i], p[i + 1]);
        assert p[i + 1] == x[1..][i];
      } else if i > |x| - 1 {
        assert Adjacent(m, p[i + |c|], p[i + |c| + 1]);
        assert p[i + |c|] == y[i - |x|] == y[..|y| - 1][i - |x|];
      }
    }
    forall i | 0 <= i < |c| - 1
      ensures Adjacent(m, c[i], c[i + 1]) && Adjacent(m', c[i], c[i + 1])
    {
      assert Adjacent(m, p[|x| + i], p[|x| + i + 1]);
    }
  }
}
