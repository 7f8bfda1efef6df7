/** The list model of a whole memory of rings, and the proof that every run of ring macros
    computes exactly what the list model says. */
module RingLists {
  import opened RingElem
  import opened Sequences
  import opened LinkMemory

  /** A maximal run of linked elements.  A ring is written from its head (or, for a ring without
      a head, from any one element) once round; otherwise the block is a detached sequence,
      whose two outer pointers may dangle. */
  datatype Block = Block(ring: bool, nodes: seq<Elem>)

  /** All blocks, each filed under its first element. */
  type Blocks = map<Elem, Block>

  function Path(b: Block): seq<Elem>
    requires b.nodes != []
  {
    if b.ring then b.nodes + [b.nodes[0]] else b.nodes
  }

  ghost predicate BlockOk(m: Memory, k: Elem, b: Block) {
    && b.nodes != [] && b.nodes[0] == k
    && Distinct(b.nodes)
    && (forall i | 0 <= i < |b.nodes| :: b.nodes[i] in m.next)
    && Linked(m, Path(b))
  }

  /** `e` is on one of the blocks filed under `ks`. */
  ghost predicate OnOneOf(L: Blocks, ks: set<Elem>, e: Elem) {
    exists k | k in ks && k in L :: e in L[k].nodes
  }

  ghost predicate Covered(L: Blocks, ks: set<Elem>, S: set<Elem>) {
    forall e {:trigger OnOneOf(L, ks, e)} | e in S :: OnOneOf(L, ks, e)
  }

  ghost predicate InSome(L: Blocks, e: Elem) {
    OnOneOf(L, L.Keys, e)
  }

  /** `m` is partitioned into the blocks of `L`. */
  ghost predicate Rep(m: Memory, L: Blocks) {
    && m.next.Keys == m.prev.Keys
    && (forall k {:trigger BlockOk(m, k, L[k])} | k in L :: BlockOk(m, k, L[k]))
    && (forall j, k {:trigger Disjoint(L[j].nodes, L[k].nodes)} | j in L && k in L && j != k ::
          Disjoint(L[j].nodes, L[k].nodes))
    && (forall e {:trigger InSome(L, e)} | e in m.next :: InSome(L, e))
  }

  /** The list a ring head denotes. */
  function Contents(L: Blocks, h: Elem): seq<Elem>
    requires h in L && L[h].nodes != []
  {
    L[h].nodes[1..]
  }

  ghost predicate At(L: Blocks, e: Elem, k: Elem, i: int) {
    k in L && 0 <= i < |L[k].nodes| && L[k].nodes[i] == e
  }

  /** The block an element is on, and its position there. */
  ghost function Home(L: Blocks, e: Elem): (r: (Elem, int))
    requires InSome(L, e)
    ensures At(L, e, r.0, r.1)
  {
    var k: Elem :| k in L && e in L[k].nodes;
    var i: int :| 0 <= i < |L[k].nodes| && L[k].nodes[i] == e;
    (k, i)
  }

  lemma HomeIsUnique(m: Memory, L: Blocks, e: Elem, k: Elem, i: int)
    requires Rep(m, L) && At(L, e, k, i)
    ensures InSome(L, e) && Home(L, e) == (k, i)
  {
    assert e in L[k].nodes;
    var (k', i') := Home(L, e);
    assert k' != k ==> Disjoint(L[k].nodes, L[k'].nodes);
    assert BlockOk(m, k, L[k]);
  }

  // What the macros do to lists.

  /** The sequence filed under `c` moves into the ring of `r`, at position `j`. */
  function Insert(L: Blocks, r: Elem, j: int, c: Elem): Blocks
    requires r in L && c in L && 0 <= j <= |L[r].nodes|
  {
    var nodes := L[r].nodes;
    (L - {c})[r := Block(true, nodes[..j] + L[c].nodes + nodes[j..])]
  }

  /** Positions `i` to `j` of the ring of `r` come out as a sequence of their own. */
  function Cut(L: Blocks, r: Elem, i: int, j: int): Blocks
    requires r in L && 0 <= i < j <= |L[r].nodes|
  {
    var nodes := L[r].nodes;
    L[r := Block(true, nodes[..i] + nodes[j..])][nodes[i] := Block(false, nodes[i..j])]
  }

  /** The ring of `r`, written and filed from its `i`th node on. */
  function Refiled(L: Blocks, r: Elem, i: int): Blocks
    requires r in L && 0 <= i < |L[r].nodes|
  {
    var nodes := L[r].nodes;
    (L - {r})[nodes[i] := Block(true, nodes[i..] + nodes[..i])]
  }

  /** `h` becomes a ring with nothing else on it; what it led to is left as a sequence. */
  function Reset(L: Blocks, h: Elem): Blocks
    requires h in L && L[h].nodes != []
  {
    var nodes := L[h].nodes;
    var alone: Blocks := L[h := Block(true, [h])];
    if |nodes| == 1 then alone else alone[nodes[1] := Block(false, nodes[1..])]
  }

  /** The list of `h2` moves into the ring of `h1`, at position `j`. */
  function Move(L: Blocks, h1: Elem, j: int, h2: Elem): Blocks
    requires h1 in L && h2 in L && h1 != h2 && L[h2].nodes != [] && 0 <= j <= |L[h1].nodes|
  {
    var moved := L[h2].nodes[1..];
    var nodes := L[h1].nodes;
    L[h1 := Block(true, nodes[..j] + moved + nodes[j..])][h2 := Block(true, [h2])]
  }

  lemma PathAt(m: Memory, L: Blocks, k: Elem, i: int)
    requires Rep(m, L) && k in L && L[k].ring && 0 <= i < |L[k].nodes|
    ensures BlockOk(m, k, L[k])
    ensures L[k].nodes[i] in m.next && L[k].nodes[i] in m.prev
    ensures m.next[L[k].nodes[i]] == Path(L[k])[i + 1]
    ensures m.prev[L[k].nodes[i]] == if i == 0 then Last(L[k].nodes) else L[k].nodes[i - 1]
  {
    var nodes, p := L[k].nodes, Path(L[k]);
    assert BlockOk(m, k, L[k]);
    assert Adjacent(m, p[i], p[i + 1]);
    if i == 0 {
      assert Adjacent(m, p[|nodes| - 1], p[|nodes|]);
    } else {
      assert Adjacent(m, p[i - 1], p[i]);
    }
  }

  /** The nodes of `s` are among `S`. */
  ghost predicate Within(s: seq<Elem>, S: set<Elem>) {
    forall i | 0 <= i < |s| :: s[i] in S
  }

  ghost predicate Outside(s: seq<Elem>, S: set<Elem>) {
    forall i | 0 <= i < |s| :: s[i] !in S
  }

  ghost predicate SameOutside(m: Memory, m': Memory, S: set<Elem>) {
    && m'.next.Keys == m'.prev.Keys == m.next.Keys == m.prev.Keys
    && forall e | e in m.next && e !in S :: m'.next[e] == m.next[e] && m'.prev[e] == m.prev[e]
  }

  /** `L'` is `L`, but for the blocks filed under `before` and `after`. */
  ghost predicate SameBut(L: Blocks, before: set<Elem>, L': Blocks, after: set<Elem>) {
    && before <= L.Keys && after <= L'.Keys
    && (forall k | k in L && k !in before :: k in L' && k !in after && L'[k] == L[k])
    && (forall k | k in L' && k !in after :: k in L && k !in before)
  }

  /** Changing the nodes `S` of some blocks only, and filing just those nodes as other blocks,
      keeps the partition. */
  lemma Rebuild(m: Memory, m': Memory, L: Blocks, L': Blocks, before: set<Elem>, after: set<Elem>, S: set<Elem>)
    requires Rep(m, L) && SameBut(L, before, L', after) && SameOutside(m, m', S)
    requires Covered(L, before, S) && Covered(L', after, S)
    requires forall k {:trigger Within(L[k].nodes, S)} | k in before :: Within(L[k].nodes, S)
    requires forall k {:trigger Within(L'[k].nodes, S)} | k in after :: Within(L'[k].nodes, S)
    requires forall k {:trigger BlockOk(m', k, L'[k])} | k in after :: BlockOk(m', k, L'[k])
    requires forall j, k {:trigger Disjoint(L'[j].nodes, L'[k].nodes)} | j in after && k in after && j != k ::
               Disjoint(L'[j].nodes, L'[k].nodes)
    ensures Rep(m', L')
  {
    forall k | k in L && k !in before
      ensures BlockOk(m', k, L[k]) && Outside(L[k].nodes, S)
    {
      UntouchedBlock(m, m', L, before, S, k);
    }
    forall j, k | j in L' && k in L' && j != k
      ensures Disjoint(L'[j].nodes, L'[k].nodes)
    {
      if j !in after {
        assert Outside(L[j].nodes, S);
        if k !in after {
          assert Disjoint(L[j].nodes, L[k].nodes);
        } else {
          assert Within(L'[k].nodes, S);
        }
      } else if k !in after {
        assert Within(L'[j].nodes, S) && Outside(L[k].nodes, S);
      }
    }
    forall e | e in m'.next
      ensures InSome(L', e)
    {
      assert InSome(L, e);
      var k: Elem :| k in L && e in L[k].nodes;
      if k in before {
        assert Within(L[k].nodes, S);
        assert OnOneOf(L', after, e);
      } else {
        assert e in L'[k].nodes;
      }
    }
  }

  lemma UntouchedBlock(m: Memory, m': Memory, L: Blocks, before: set<Elem>, S: set<Elem>, k: Elem)
    requires Rep(m, L) && k in L && k !in before && SameOutside(m, m', S)
    requires Covered(L, before, S)
    ensures BlockOk(m', k, L[k]) && Outside(L[k].nodes, S)
  {
    assert BlockOk(m, k, L[k]);
    var nodes := L[k].nodes;
    forall i | 0 <= i < |nodes|
      ensures nodes[i] !in S
    {
      assert nodes[i] in S ==> OnOneOf(L, before, nodes[i]);
      forall b | b in before && b in L
        ensures nodes[i] !in L[b].nodes
      {
        assert Disjoint(nodes, L[b].nodes);
      }
    }
    LinkedFrame(m, m', Path(L[k]));
  }

  lemma CoveredBy(L: Blocks, ks: set<Elem>, r: Elem, c: Elem, S: set<Elem>)
    requires r in L && c in L && r in ks && c in ks
    requires S <= Elements(L[r].nodes) + Elements(L[c].nodes)
    ensures Covered(L, ks, S)
  {
    forall e | e in S
      ensures OnOneOf(L, ks, e)
    {
      Filed(L, ks, if e in L[r].nodes then r else c, e);
    }
  }

  lemma Filed(L: Blocks, ks: set<Elem>, k: Elem, e: Elem)
    requires k in ks && k in L && e in L[k].nodes
    ensures OnOneOf(L, ks, e)
  {
  }

  // Sequences of nodes.

  lemma InsertedElems(s: seq<Elem>, j: int, t: seq<Elem>)
    requires 0 <= j <= |s|
    ensures Elements(s[..j] + t + s[j..]) == Elements(s) + Elements(t)
  {
    assert s == s[..j] + s[j..];
  }

  lemma CutElems(s: seq<Elem>, i: int, j: int)
    requires 0 <= i <= j <= |s|
    ensures Elements(s) == Elements(s[..i] + s[j..]) + Elements(s[i..j])
  {
    assert s == s[..i] + s[i..j] + s[j..];
  }

  lemma InsertedDistinct(s: seq<Elem>, j: int, t: seq<Elem>)
    requires 0 <= j <= |s| && Distinct(s) && Distinct(t) && Disjoint(s, t)
    ensures Distinct(s[..j] + t + s[j..])
  {
  }

  /** How the path round a ring falls apart at positions `i` and `j`. */
  lemma RingParts(nodes: seq<Elem>, i: int, j: int)
    requires Distinct(nodes) && 1 <= i <= j <= |nodes|
    ensures var x, c, y := nodes[..i], nodes[i..j], nodes[j..] + [nodes[0]];
            && x + c + y == nodes + [nodes[0]]
            && Distinct(x) && Distinct(c) && Distinct(y)
            && Disjoint(x, c) && Disjoint(y, c)
            && Disjoint(x, y[..|y| - 1]) && Disjoint(x[1..], y)
            && y[0] == (nodes + [nodes[0]])[j] && y[0] in nodes && Last(x) == nodes[i - 1]
  {
  }

  // Blocks, one by one.

  lemma BlockLinked(m: Memory, k: Elem, b: Block)
    requires BlockOk(m, k, b)
    ensures Linked(m, b.nodes)
  {
    forall i | 0 <= i < |b.nodes| - 1
      ensures Adjacent(m, b.nodes[i], b.nodes[i + 1])
    {
      assert Adjacent(m, Path(b)[i], Path(b)[i + 1]);
    }
  }

  lemma InsertedPath(m: Memory, r: Elem, b: Block, j: int, c: Elem, d: Block)
    requires BlockOk(m, r, b) && BlockOk(m, c, d) && Disjoint(b.nodes, d.nodes)
    requires b.ring && 1 <= j <= |b.nodes| && m.next.Keys == m.prev.Keys
    ensures Linked(Joined(m, b.nodes[j - 1], d.nodes[0], Last(d.nodes), Path(b)[j]),
                   b.nodes[..j] + d.nodes + b.nodes[j..] + [r])
  {
    var x, y := b.nodes[..j], b.nodes[j..] + [r];
    BlockLinked(m, c, d);
    RingParts(b.nodes, j, j);
    assert x + b.nodes[j..j] + y == x + y;
    assert Disjoint(y, d.nodes) by {
      forall i, k | 0 <= i < |y| && 0 <= k < |d.nodes|
        ensures y[i] != d.nodes[k]
      {
        assert y[i] == if i < |y| - 1 then b.nodes[j + i] else b.nodes[0];
      }
    }
    SplicedPath(m, x, d.nodes, y);
    assert b.nodes[..j] + d.nodes + b.nodes[j..] + [r] == x + d.nodes + y;
  }

  lemma InsertedBlock(m: Memory, r: Elem, b: Block, j: int, c: Elem, d: Block)
    requires BlockOk(m, r, b) && BlockOk(m, c, d) && Disjoint(b.nodes, d.nodes)
    requires b.ring && 1 <= j <= |b.nodes| && m.next.Keys == m.prev.Keys
    ensures BlockOk(Joined(m, b.nodes[j - 1], d.nodes[0], Last(d.nodes), Path(b)[j]), r,
                    Block(true, b.nodes[..j] + d.nodes + b.nodes[j..]))
  {
    var nodes := b.nodes[..j] + d.nodes + b.nodes[j..];
    InsertedPath(m, r, b, j, c, d);
    InsertedDistinct(b.nodes, j, d.nodes);
    assert Path(Block(true, nodes)) == nodes + [r];
  }

  lemma CutPaths(m: Memory, r: Elem, b: Block, i: int, j: int)
    requires BlockOk(m, r, b) && b.ring && 1 <= i < j <= |b.nodes| && m.next.Keys == m.prev.Keys
    ensures Linked(Bridged(m, b.nodes[i - 1], Path(b)[j]), b.nodes[..i] + b.nodes[j..] + [r])
    ensures Linked(Bridged(m, b.nodes[i - 1], Path(b)[j]), b.nodes[i..j])
  {
    RingParts(b.nodes, i, j);
    UnsplicedPath(m, b.nodes[..i], b.nodes[i..j], b.nodes[j..] + [r]);
    assert b.nodes[..i] + b.nodes[j..] + [r] == b.nodes[..i] + (b.nodes[j..] + [r]);
  }

  lemma CutBlocks(m: Memory, r: Elem, b: Block, i: int, j: int)
    requires BlockOk(m, r, b) && b.ring && 1 <= i < j <= |b.nodes| && m.next.Keys == m.prev.Keys
    ensures BlockOk(Bridged(m, b.nodes[i - 1], Path(b)[j]), r, Block(true, b.nodes[..i] + b.nodes[j..]))
    ensures BlockOk(Bridged(m, b.nodes[i - 1], Path(b)[j]), b.nodes[i], Block(false, b.nodes[i..j]))
    ensures Disjoint(b.nodes[..i] + b.nodes[j..], b.nodes[i..j])
  {
    CutPaths(m, r, b, i, j);
    CutNodes(b.nodes, i, j);
    assert Path(Block(true, b.nodes[..i] + b.nodes[j..])) == b.nodes[..i] + b.nodes[j..] + [r];
  }

  lemma CutNodes(nodes: seq<Elem>, i: int, j: int)
    requires Distinct(nodes) && 1 <= i < j <= |nodes|
    ensures Distinct(nodes[..i] + nodes[j..]) && Distinct(nodes[i..j]) && Disjoint(nodes[..i] + nodes[j..], nodes[i..j])
    ensures (nodes[..i] + nodes[j..])[0] == nodes[0] && nodes[i..j][0] == nodes[i]
  {
  }

  lemma RefiledBlock(m: Memory, r: Elem, b: Block, i: int)
    requires BlockOk(m, r, b) && b.ring && 0 <= i < |b.nodes|
    ensures BlockOk(m, b.nodes[i], Block(true, b.nodes[i..] + b.nodes[..i]))
  {
    var n, nodes := |b.nodes|, b.nodes[i..] + b.nodes[..i];
    var p := Path(Block(true, nodes));
    forall k | 0 <= k < n
      ensures Adjacent(m, p[k], p[k + 1])
    {
      var l := if i + k < n then i + k else i + k - n;
      assert p[k] == Path(b)[l] && p[k + 1] == Path(b)[l + 1];
      assert Adjacent(m, Path(b)[l], Path(b)[l + 1]);
    }
  }

  lemma ResetBlocks(m: Memory, h: Elem, b: Block)
    requires BlockOk(m, h, b) && m.next.Keys == m.prev.Keys
    ensures BlockOk(Selfed(m, h), h, Block(true, [h]))
    ensures |b.nodes| > 1 ==> BlockOk(Selfed(m, h), b.nodes[1], Block(false, b.nodes[1..]))
    ensures Disjoint([h], b.nodes[1..])
  {
    BlockLinked(m, h, b);
    var rest := b.nodes[1..];
    forall i | 0 <= i < |rest| - 1
      ensures Adjacent(Selfed(m, h), rest[i], rest[i + 1])
    {
      assert Adjacent(m, b.nodes[i + 1], b.nodes[i + 2]);
    }
  }

  // The partition.

  /** Two blocks whose nodes are now filed as one. */
  lemma RebuildOne(m: Memory, m': Memory, L: Blocks, r: Elem, c: Elem, L': Blocks)
    requires Rep(m, L) && r in L && c in L && r != c && r in L' && SameBut(L, {r, c}, L', {r})
    requires BlockOk(m', r, L'[r])
    requires Elements(L'[r].nodes) == Elements(L[r].nodes) + Elements(L[c].nodes)
    requires SameOutside(m, m', Elements(L'[r].nodes))
    ensures Rep(m', L')
  {
    var S: set<Elem> := Elements(L'[r].nodes);
    CoveredBy(L, {r, c}, r, c, S);
    CoveredBy(L', {r}, r, r, S);
    Rebuild(m, m', L, L', {r, c}, {r}, S);
  }

  /** One block whose nodes are now filed as two. */
  lemma RebuildTwo(m: Memory, m': Memory, L: Blocks, r: Elem, c: Elem, L': Blocks)
    requires Rep(m, L) && r in L && r != c && r in L' && c in L' && SameBut(L, {r}, L', {r, c})
    requires BlockOk(m', r, L'[r]) && BlockOk(m', c, L'[c]) && Disjoint(L'[r].nodes, L'[c].nodes)
    requires Elements(L[r].nodes) == Elements(L'[r].nodes) + Elements(L'[c].nodes)
    requires SameOutside(m, m', Elements(L[r].nodes))
    ensures Rep(m', L')
  {
    var S: set<Elem> := Elements(L[r].nodes);
    CoveredBy(L, {r}, r, r, S);
    CoveredBy(L', {r, c}, r, c, S);
    Rebuild(m, m', L, L', {r}, {r, c}, S);
  }

  /** A node is the key of its own block only. */
  lemma NotAKey(m: Memory, L: Blocks, r: Elem, i: int)
    requires Rep(m, L) && r in L && 1 <= i < |L[r].nodes|
    ensures L[r].nodes[i] !in L
  {
    var c := L[r].nodes[i];
    assert BlockOk(m, r, L[r]);
    assert c in L ==> BlockOk(m, c, L[c]) && (c == r || Disjoint(L[r].nodes, L[c].nodes));
  }

  lemma JoinedOutside(m: Memory, a: Elem, ep1: Elem, epN: Elem, b: Elem, S: set<Elem>)
    requires m.next.Keys == m.prev.Keys && a in m.next && ep1 in m.next && epN in m.next && b in m.next
    requires a in S && ep1 in S && epN in S && b in S
    ensures SameOutside(m, Joined(m, a, ep1, epN, b), S)
  {
  }

  lemma BridgedOutside(m: Memory, a: Elem, b: Elem, S: set<Elem>)
    requires m.next.Keys == m.prev.Keys && a in m.next && b in m.next && a in S && b in S
    ensures SameOutside(m, Bridged(m, a, b), S)
  {
  }

  /** The two nodes at a seam of a ring are nodes of it. */
  lemma SeamNodes(m: Memory, r: Elem, b: Block, j: int)
    requires BlockOk(m, r, b) && b.ring && 1 <= j <= |b.nodes|
    ensures b.nodes[j - 1] in Elements(b.nodes) && Path(b)[j] in Elements(b.nodes)
    ensures b.nodes[j - 1] in m.next && Path(b)[j] in m.next
  {
    assert Path(b)[j] == if j < |b.nodes| then b.nodes[j] else b.nodes[0];
  }

  lemma InsertSameBut(L: Blocks, r: Elem, j: int, c: Elem)
    requires r in L && c in L && r != c && 0 <= j <= |L[r].nodes|
    ensures SameBut(L, {r, c}, Insert(L, r, j, c), {r})
    ensures r in Insert(L, r, j, c)
    ensures Insert(L, r, j, c)[r] == Block(true, L[r].nodes[..j] + L[c].nodes + L[r].nodes[j..])
  {
  }

  lemma CutSameBut(L: Blocks, r: Elem, i: int, j: int)
    requires r in L && 0 <= i < j <= |L[r].nodes| && L[r].nodes[i] !in L
    ensures SameBut(L, {r}, Cut(L, r, i, j), {r, L[r].nodes[i]})
    ensures r in Cut(L, r, i, j) && Cut(L, r, i, j)[r] == Block(true, L[r].nodes[..i] + L[r].nodes[j..])
    ensures L[r].nodes[i] in Cut(L, r, i, j) && Cut(L, r, i, j)[L[r].nodes[i]] == Block(false, L[r].nodes[i..j])
  {
  }

  lemma InsertRep(m: Memory, L: Blocks, r: Elem, j: int, c: Elem)
    requires Rep(m, L) && r in L && c in L && r != c && L[r].ring && 1 <= j <= |L[r].nodes|
    requires L[c].nodes != []
    ensures Rep(Joined(m, L[r].nodes[j - 1], L[c].nodes[0], Last(L[c].nodes), Path(L[r])[j]), Insert(L, r, j, c))
  {
    var nodes, cs, b := L[r].nodes, L[c].nodes, Path(L[r])[j];
    var m' := Joined(m, nodes[j - 1], cs[0], Last(cs), b);
    assert BlockOk(m, r, L[r]) && BlockOk(m, c, L[c]) && Disjoint(nodes, cs);
    InsertedBlock(m, r, L[r], j, c, L[c]);
    InsertedElems(nodes, j, cs);
    SeamNodes(m, r, L[r], j);
    JoinedOutside(m, nodes[j - 1], cs[0], Last(cs), b, Elements(nodes) + Elements(cs));
    InsertSameBut(L, r, j, c);
    RebuildOne(m, m', L, r, c, Insert(L, r, j, c));
  }

  lemma CutRep(m: Memory, L: Blocks, r: Elem, i: int, j: int)
    requires Rep(m, L) && r in L && L[r].ring && 1 <= i < j <= |L[r].nodes|
    ensures Rep(Bridged(m, L[r].nodes[i - 1], Path(L[r])[j]), Cut(L, r, i, j))
  {
    var nodes, b := L[r].nodes, Path(L[r])[j];
    var m' := Bridged(m, nodes[i - 1], b);
    assert BlockOk(m, r, L[r]);
    CutBlocks(m, r, L[r], i, j);
    CutElems(nodes, i, j);
    NotAKey(m, L, r, i);
    SeamNodes(m, r, L[r], i);
    SeamNodes(m, r, L[r], j);
    BridgedOutside(m, nodes[i - 1], b, Elements(nodes));
    CutSameBut(L, r, i, j);
    RebuildTwo(m, m', L, r, nodes[i], Cut(L, r, i, j));
  }

  lemma ResetRep(m: Memory, L: Blocks, h: Elem)
    requires Rep(m, L) && h in L && L[h].nodes != []
    ensures Rep(Selfed(m, h), Reset(L, h))
  {
    var nodes, m' := L[h].nodes, Selfed(m, h);
    assert BlockOk(m, h, L[h]);
    ResetBlocks(m, h, L[h]);
    assert SameOutside(m, m', Elements(nodes)) by {
      assert nodes[0] in Elements(nodes);
    }
    if |nodes| == 1 {
      ResetAlone(m, L, h);
    } else {
      NotAKey(m, L, h, 1);
      CutElems(nodes, 1, |nodes|);
      assert nodes[..1] + nodes[|nodes|..] == [h] && nodes[1..|nodes|] == nodes[1..];
      RebuildTwo(m, m', L, h, nodes[1], Reset(L, h));
    }
  }

  lemma ResetAlone(m: Memory, L: Blocks, h: Elem)
    requires Rep(m, L) && h in L && |L[h].nodes| == 1
    ensures Rep(Selfed(m, h), Reset(L, h))
  {
    assert BlockOk(m, h, L[h]);
    var L': Blocks := Reset(L, h);
    Filed(L', {h}, h, h);
    Filed(L, {h}, h, h);
    Rebuild(m, Selfed(m, h), L, L', {h}, {h}, {h});
  }

  lemma RefiledSameBut(L: Blocks, r: Elem, i: int)
    requires r in L && 0 <= i < |L[r].nodes| && (i == 0 ==> L[r].nodes[0] == r) && (i > 0 ==> L[r].nodes[i] !in L)
    ensures var k, L' := L[r].nodes[i], Refiled(L, r, i);
            k in L' && L'[k] == Block(true, L[r].nodes[i..] + L[r].nodes[..i]) && SameBut(L, {r}, L', {k})
  {
  }

  lemma RefiledElems(nodes: seq<Elem>, i: int)
    requires 0 <= i <= |nodes|
    ensures Elements(nodes[i..] + nodes[..i]) == Elements(nodes)
  {
    assert nodes == nodes[..i] + nodes[i..];
  }

  /** The same memory, with one of its rings written from another of its nodes. */
  lemma RefiledRep(m: Memory, L: Blocks, r: Elem, i: int)
    requires Rep(m, L) && r in L && L[r].ring && 0 <= i < |L[r].nodes|
    ensures Rep(m, Refiled(L, r, i))
  {
    var nodes, k, L': Blocks := L[r].nodes, L[r].nodes[i], Refiled(L, r, i);
    assert BlockOk(m, r, L[r]);
    if i > 0 {
      NotAKey(m, L, r, i);
    }
    RefiledBlock(m, r, L[r], i);
    RefiledSameBut(L, r, i);
    RefiledElems(nodes, i);
    var S: set<Elem> := Elements(nodes);
    CoveredBy(L, {r}, r, r, S);
    CoveredBy(L', {k}, k, k, S);
    Rebuild(m, m, L, L', {r}, {k}, S);
  }

  /** Taking over a whole list: the list is reset from its head, and inserted as a sequence. */
  lemma MoveRep(m: Memory, L: Blocks, h1: Elem, j: int, h2: Elem)
    requires Rep(m, L) && h1 in L && h2 in L && h1 != h2 && L[h1].ring && 1 <= j <= |L[h1].nodes|
    requires |L[h2].nodes| > 1
    ensures Rep(Selfed(Joined(m, L[h1].nodes[j - 1], L[h2].nodes[1], Last(L[h2].nodes), Path(L[h1])[j]), h2),
                Move(L, h1, j, h2))
  {
    var n1, n2, b := L[h1].nodes, L[h2].nodes, Path(L[h1])[j];
    ResetRep(m, L, h2);
    NotAKey(m, L, h2, 1);
    InsertRep(Selfed(m, h2), Reset(L, h2), h1, j, n2[1]);
    assert Insert(Reset(L, h2), h1, j, n2[1]) == Move(L, h1, j, h2);
    assert BlockOk(m, h1, L[h1]) && BlockOk(m, h2, L[h2]) && Disjoint(n1, n2);
    SelfedLater(m, n1[j - 1], n2[1], Last(n2), b, h2);
  }

  lemma UpdatesSwap<K, V>(f: map<K, V>, j: K, x: V, k: K, y: V)
    requires j != k
    ensures f[j := x][k := y] == f[k := y][j := x]
  {
  }

  lemma SelfedLater(m: Memory, a: Elem, ep1: Elem, epN: Elem, b: Elem, h: Elem)
    requires h != a && h != ep1 && h != epN && h != b
    ensures Joined(Selfed(m, h), a, ep1, epN, b) == Selfed(Joined(m, a, ep1, epN, b), h)
  {
    UpdatesSwap(m.next, h, h, a, ep1);
    UpdatesSwap(m.next[a := ep1], h, h, epN, b);
    UpdatesSwap(m.prev, h, h, ep1, a);
    UpdatesSwap(m.prev[ep1 := a], h, h, b, epN);
  }
}
