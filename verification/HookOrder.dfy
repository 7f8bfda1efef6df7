/** The order in which `tsort` puts items, of which each waits for some others: what `apr_hook_sort_all`
    does to the functions of a hook. */
module HookOrder {
  import opened Sequences
  import opened Hooks

  /** For each item, the items that must come before it. */
  type Preds = seq<seq<nat>>

  ghost predicate Wf(P: Preds) {
    && (forall i | 0 <= i < |P| :: Distinct(P[i]))
    && forall i, j | 0 <= i < |P| && 0 <= j < |P[i]| :: P[i][j] < |P|
  }

  /** How many of `preds` are not placed yet. */
  function CountLeft(preds: seq<nat>, placed: set<nat>): nat {
    if preds == [] then 0 else (if preds[0] in placed then 0 else 1) + CountLeft(preds[1..], placed)
  }

  /** The first of them. */
  function FirstLeft(preds: seq<nat>, placed: set<nat>): (r: Option<nat>)
    ensures r.Some? ==> r.value in preds && r.value !in placed
    ensures r.None? <==> forall p | p in preds :: p in placed
    ensures r.None? <==> CountLeft(preds, placed) == 0
  {
    if preds == [] then None
    else if preds[0] !in placed then Some(preds[0])
    else
      var r := FirstLeft(preds[1..], placed);
      assert preds == [preds[0]] + preds[1..];
      r
  }

  /** The items the search goes through: from the first that is not placed, each time to the first
      that the item still waits for. */
  ghost predicate HopPath(P: Preds, placed: set<nat>, path: seq<nat>) {
    && path != []
    && (forall t | 0 <= t < |path| :: path[t] < |P| && path[t] !in placed)
    && (forall i: nat | i < path[0] :: i in placed)
    && forall t | 0 <= t < |path| - 1 :: FirstLeft(P[path[t]], placed) == Some(path[t + 1])
  }

  /** The item the search ends at: it waits for nothing that is not placed. */
  ghost predicate Picked(P: Preds, placed: set<nat>, n: nat) {
    exists path :: HopPath(P, placed, path) && PathEnds(P, placed, path, n)
  }

  ghost predicate PathEnds(P: Preds, placed: set<nat>, path: seq<nat>, n: nat) {
    path != [] && Last(path) == n && n < |P| && FirstLeft(P[n], placed).None?
  }

  /** Every item is the one that the search ends at when those before it have been placed. */
  ghost predicate InTurn(P: Preds, order: seq<nat>) {
    forall j {:trigger order[j]} | 0 <= j < |order| :: Picked(P, Elements(order[..j]), order[j])
  }

  /** A closed chain of items, each waiting for the next. */
  ghost predicate IsCycle(P: Preds, c: seq<nat>) {
    && c != [] && (forall j | 0 <= j < |c| :: c[j] < |P|)
    && (forall j | 0 <= j < |c| - 1 :: c[j + 1] in P[c[j]])
    && c[0] in P[c[|c| - 1]]
  }

  ghost predicate Acyclic(P: Preds) {
    forall c :: !IsCycle(P, c)
  }

  /** All items, each after everything it waits for. */
  ghost predicate Respects(P: Preds, order: seq<nat>) {
    && |order| == |P| && Distinct(order)
    && (forall i: nat | i < |P| :: i in order)
    && forall j, p | 0 <= j < |order| && order[j] < |P| && p in P[order[j]] :: p in order[..j]
  }

  // Counting.

  function UpTo(n: nat): (r: set<nat>)
    ensures |r| == n && forall i: nat :: i in r <==> i < n
  {
    if n == 0 then {} else UpTo(n - 1) + {n - 1}
  }

  /** Distinct numbers below `n` are at most `n`, and all of them when there are `n`. */
  lemma DistinctBelow(s: seq<nat>, n: nat)
    requires Distinct(s) && forall i | 0 <= i < |s| :: s[i] < n
    ensures |s| <= n
    ensures |s| == n ==> forall i: nat | i < n :: i in s
  {
    Pigeonhole(s, UpTo(n));
    if |s| == n {
      forall i: nat | i < n
        ensures i in s
      {
        assert i in UpTo(n) && UpTo(n) == Elements(s);
      }
    }
  }

  /** While items are missing, there is a first. */
  lemma FirstMissing(order: seq<nat>, n: nat) returns (first: nat)
    requires Distinct(order) && |order| < n
    ensures first < n && first !in order && forall i: nat | i < first :: i in order
  {
    first := 0;
    while first in order
      invariant first <= n && forall i: nat | i < first :: i in order
      decreases n - first
    {
      if first == n {
        AllThere(order, n);
        assert false;
      }
      first := first + 1;
    }
    if first >= n {
      AllThere(order, n);
    }
  }

  lemma AllThere(order: seq<nat>, n: nat)
    requires Distinct(order) && forall i: nat | i < n :: i in order
    ensures n <= |order|
  {
    SizeOfElements(order);
    SubsetSize(UpTo(n), Elements(order));
  }

  // The search.

  /** One hop more. */
  lemma Hopped(P: Preds, placed: set<nat>, path: seq<nat>)
    requires Wf(P) && HopPath(P, placed, path) && FirstLeft(P[Last(path)], placed).Some?
    ensures HopPath(P, placed, path + [FirstLeft(P[Last(path)], placed).value])
  {
    var last := Last(path);
    var i := FirstLeft(P[last], placed).value;
    var longer := path + [i];
    forall t | 0 <= t < |longer| - 1
      ensures FirstLeft(P[longer[t]], placed) == Some(longer[t + 1])
    {
      if t < |path| - 1 {
        assert FirstLeft(P[path[t]], placed) == Some(path[t + 1]);
      }
    }
  }

  /** A search that comes back has gone through a cycle. */
  lemma ComesBack(P: Preds, placed: set<nat>, path: seq<nat>, j: nat)
    requires Wf(P) && HopPath(P, placed, path) && j < |path|
    requires FirstLeft(P[Last(path)], placed) == Some(path[j])
    ensures IsCycle(P, path[j..])
  {
    var c := path[j..];
    forall t | 0 <= t < |c| - 1
      ensures c[t + 1] in P[c[t]]
    {
      assert FirstLeft(P[path[j + t]], placed) == Some(path[j + t + 1]);
    }
  }

  /** Without cycles, the search never comes back. */
  lemma NoReturn(P: Preds, placed: set<nat>, path: seq<nat>, i: nat)
    requires Wf(P) && Acyclic(P) && HopPath(P, placed, path)
    requires FirstLeft(P[Last(path)], placed) == Some(i)
    ensures i !in path
  {
    if i in path {
      var j :| 0 <= j < |path| && path[j] == i;
      ComesBack(P, placed, path, j);
    }
  }

  lemma {:induction false} SamePath(P: Preds, placed: set<nat>, p: seq<nat>, q: seq<nat>, n: nat)
    requires HopPath(P, placed, p) && HopPath(P, placed, q) && n < |p| <= |q|
    ensures p[n] == q[n]
    decreases n
  {
    if n > 0 {
      SamePath(P, placed, p, q, n - 1);
      assert FirstLeft(P[p[n - 1]], placed) == Some(p[n]) && FirstLeft(P[q[n - 1]], placed) == Some(q[n]);
    }
  }

  /** The search ends at one item only. */
  lemma PickedIsUnique(P: Preds, placed: set<nat>, n: nat, n': nat)
    requires Picked(P, placed, n) && Picked(P, placed, n')
    ensures n == n'
  {
    var p: seq<nat> :| HopPath(P, placed, p) && PathEnds(P, placed, p, n);
    var q: seq<nat> :| HopPath(P, placed, q) && PathEnds(P, placed, q, n');
    if |p| <= |q| {
      EndsSame(P, placed, p, q, n, n');
    } else {
      EndsSame(P, placed, q, p, n', n);
    }
  }

  lemma GoesFurther(P: Preds, placed: set<nat>, path: seq<nat>, t: nat)
    requires HopPath(P, placed, path)
    ensures t + 1 < |path| ==> FirstLeft(P[path[t]], placed).Some?
  {
    if t + 1 < |path| {
      assert FirstLeft(P[path[t]], placed) == Some(path[t + 1]);
    }
  }

  lemma EndsSame(P: Preds, placed: set<nat>, p: seq<nat>, q: seq<nat>, n: nat, n': nat)
    requires HopPath(P, placed, p) && HopPath(P, placed, q) && |p| <= |q|
    requires PathEnds(P, placed, p, n) && PathEnds(P, placed, q, n')
    ensures n == n'
  {
    SamePath(P, placed, p, q, |p| - 1);
    GoesFurther(P, placed, q, |p| - 1);
  }

  /** On the way to where the search ends. */
  lemma OnTheWay(P: Preds, placed: set<nat>, way: seq<nat>, n: nat, path: seq<nat>)
    requires HopPath(P, placed, way) && PathEnds(P, placed, way, n) && HopPath(P, placed, path)
    ensures |path| <= |way|
  {
    if |path| > |way| {
      SamePath(P, placed, way, path, |way| - 1);
      GoesFurther(P, placed, path, |way| - 1);
    }
  }

  lemma {:induction false} SameFrom(P: Preds, placed: set<nat>, path: seq<nat>, i: nat, j: nat, n: nat)
    requires HopPath(P, placed, path) && i < j && j + n < |path| && path[i] == path[j]
    ensures path[i + n] == path[j + n]
    decreases n
  {
    if n > 0 {
      SameFrom(P, placed, path, i, j, n - 1);
      assert FirstLeft(P[path[i + n - 1]], placed) == Some(path[i + n]);
      assert FirstLeft(P[path[j + n - 1]], placed) == Some(path[j + n]);
    }
  }

  /** A search that ends has not been anywhere twice. */
  lemma EndsDistinct(P: Preds, placed: set<nat>, way: seq<nat>, n: nat)
    requires HopPath(P, placed, way) && PathEnds(P, placed, way, n)
    ensures Distinct(way) && |way| <= |P|
  {
    forall i, j | 0 <= i < j < |way|
      ensures way[i] != way[j]
    {
      if way[i] == way[j] {
        var left := |way| - 1 - j;
        SameFrom(P, placed, way, i, j, left);
        GoesFurther(P, placed, way, i + left);
      }
    }
    DistinctBelow(way, |P|);
  }

  /** Every search for an item that can be picked is short. */
  lemma EndsInTime(P: Preds, placed: set<nat>, path: seq<nat>, n: nat)
    requires Picked(P, placed, n) && (path == [] || HopPath(P, placed, path))
    ensures |path| <= |P|
  {
    var way: seq<nat> :| HopPath(P, placed, way) && PathEnds(P, placed, way, n);
    EndsDistinct(P, placed, way, n);
    if path != [] {
      OnTheWay(P, placed, way, n, path);
    }
  }

  lemma EndPicked(P: Preds, placed: set<nat>, path: seq<nat>)
    requires HopPath(P, placed, path) && FirstLeft(P[Last(path)], placed).None?
    ensures Picked(P, placed, Last(path))
  {
    assert PathEnds(P, placed, path, Last(path));
  }

  // Orders.

  /** Items picked in turn are distinct, and come after all they wait for. */
  lemma InTurnRespects(P: Preds, order: seq<nat>)
    requires Wf(P) && InTurn(P, order)
    ensures Distinct(order) && |order| <= |P| && forall j | 0 <= j < |order| :: order[j] < |P|
    ensures forall j, p | 0 <= j < |order| && p in P[order[j]] :: p in order[..j]
    ensures |order| == |P| ==> Respects(P, order)
  {
    forall j | 0 <= j < |order|
      ensures order[j] < |P| && order[j] !in order[..j] && forall p | p in P[order[j]] :: p in order[..j]
    {
      var placed := Elements(order[..j]);
      assert Picked(P, placed, order[j]);
      var path: seq<nat> :| HopPath(P, placed, path) && PathEnds(P, placed, path, order[j]);
    }
    forall i, j | 0 <= i < j < |order|
      ensures order[i] != order[j]
    {
      assert order[..j][i] == order[i];
    }
    DistinctBelow(order, |P|);
  }

  lemma TurnTaken(P: Preds, order: seq<nat>, n: nat)
    requires InTurn(P, order) && Picked(P, Elements(order), n)
    ensures InTurn(P, order + [n])
  {
    var longer := order + [n];
    forall j | 0 <= j < |longer|
      ensures Picked(P, Elements(longer[..j]), longer[j])
    {
      if j < |order| {
        assert longer[..j] == order[..j] && longer[j] == order[j];
      } else {
        assert longer[..j] == order;
      }
    }
  }

  /** There is one order of each length at most. */
  lemma {:induction false} InTurnIsUnique(P: Preds, order: seq<nat>, order': seq<nat>)
    requires InTurn(P, order) && InTurn(P, order') && |order| == |order'|
    ensures order == order'
    decreases |order|
  {
    if order != [] {
      var n := |order| - 1;
      assert order[..n] == order'[..n] by {
        InTurnPrefix(P, order, n);
        InTurnPrefix(P, order', n);
        InTurnIsUnique(P, order[..n], order'[..n]);
      }
      assert Picked(P, Elements(order[..n]), order[n]) && Picked(P, Elements(order'[..n]), order'[n]);
      PickedIsUnique(P, Elements(order[..n]), order[n], order'[n]);
      assert order == order[..n] + [order[n]] && order' == order'[..n] + [order'[n]];
    }
  }

  lemma InTurnPrefix(P: Preds, order: seq<nat>, n: nat)
    requires InTurn(P, order) && n <= |order|
    ensures InTurn(P, order[..n])
  {
    forall j | 0 <= j < n
      ensures Picked(P, Elements(order[..n][..j]), order[..n][j])
    {
      assert order[..n][..j] == order[..j] && order[..n][j] == order[j];
    }
  }

  /** An order that respects all is impossible with a cycle. */
  lemma NoCycles(P: Preds, order: seq<nat>, c: seq<nat>)
    requires Respects(P, order)
    ensures !IsCycle(P, c)
  {
    if IsCycle(P, c) {
      assert c[0] in order;
      var i :| 0 <= i < |order| && order[i] == c[0];
      var j := FollowCycle(P, order, c, i, |c| - 1);
      var k := WaitsFor(P, order, j, c[0]);
    }
  }

  lemma WaitsFor(P: Preds, order: seq<nat>, j: int, p: nat) returns (k: int)
    requires Respects(P, order) && 0 <= j < |order| && order[j] < |P| && p in P[order[j]]
    ensures 0 <= k < j && order[k] == p
  {
    assert p in order[..j];
    k :| 0 <= k < j && order[k] == p;
  }

  lemma {:induction false} FollowCycle(P: Preds, order: seq<nat>, c: seq<nat>, i: int, n: nat) returns (j: int)
    requires Respects(P, order) && IsCycle(P, c) && n < |c| && 0 <= i < |order| && order[i] == c[0]
    ensures 0 <= j <= i && order[j] == c[n]
    decreases n
  {
    if n == 0 {
      j := i;
    } else {
      var k := FollowCycle(P, order, c, i, n - 1);
      assert c[n - 1 + 1] in P[c[n - 1]];
      assert c[n] in order[..k];
      j :| 0 <= j < k && order[j] == c[n];
    }
  }

  /** Without cycles, every search ends. */
  lemma SearchEnds(P: Preds, placed: set<nat>, path: seq<nat>) returns (n: nat)
    requires Wf(P) && Acyclic(P) && HopPath(P, placed, path) && Distinct(path)
    ensures Picked(P, placed, n)
    decreases |P| - |path|
  {
    DistinctBelow(path, |P|);
    n := Last(path);
    var next := FirstLeft(P[n], placed);
    if next.None? {
      assert PathEnds(P, placed, path, n);
    } else {
      Hopped(P, placed, path);
      NoReturn(P, placed, path, next.value);
      DistinctBelow(path + [next.value], |P|);
      n := SearchEnds(P, placed, path + [next.value]);
    }
  }

  lemma SearchBegins(P: Preds, order: seq<nat>) returns (path: seq<nat>)
    requires Wf(P) && InTurn(P, order) && |order| < |P|
    ensures HopPath(P, Elements(order), path) && |path| == 1
  {
    InTurnRespects(P, order);
    var first := FirstMissing(order, |P|);
    path := [first];
  }

  /** Without cycles, there is an item to be picked next. */
  lemma SomePicked(P: Preds, order: seq<nat>)
    requires Wf(P) && Acyclic(P) && InTurn(P, order) && |order| < |P|
    ensures exists n :: Picked(P, Elements(order), n)
  {
    var path := SearchBegins(P, order);
    var n := SearchEnds(P, Elements(order), path);
  }

  /** Without cycles, an order is completed from any beginning. */
  lemma Completed(P: Preds, order: seq<nat>) returns (whole: seq<nat>)
    requires Wf(P) && Acyclic(P) && InTurn(P, order)
    ensures InTurn(P, whole) && |whole| == |P|
    decreases |P| - |order|
  {
    InTurnRespects(P, order);
    if |order| == |P| {
      whole := order;
    } else {
      var path := SearchBegins(P, order);
      var n := SearchEnds(P, Elements(order), path);
      TurnTaken(P, order, n);
      InTurnRespects(P, order + [n]);
      whole := Completed(P, order + [n]);
    }
  }

  /** All items can be placed in turn exactly when no items wait for each other in a circle. */
  lemma SortsIffAcyclic(P: Preds)
    requires Wf(P)
    ensures (exists order :: InTurn(P, order) && |order| == |P|) <==> Acyclic(P)
  {
    if Acyclic(P) {
      assert InTurn(P, []);
      var order := Completed(P, []);
    } else if exists order :: InTurn(P, order) && |order| == |P| {
      var order :| InTurn(P, order) && |order| == |P|;
      InTurnRespects(P, order);
      forall c
        ensures !IsCycle(P, c)
      {
        NoCycles(P, order, c);
      }
    }
  }

  // With a cycle.

  ghost predicate GoesOn(P: Preds, placed: set<nat>, n: nat) {
    exists path :: HopPath(P, placed, path) && |path| == n
  }

  lemma {:induction false} HopsForever(P: Preds, order: seq<nat>, n: nat)
    requires Wf(P) && InTurn(P, order) && |order| < |P| && n > 0
    requires forall i: nat :: !Picked(P, Elements(order), i)
    ensures GoesOn(P, Elements(order), n)
    decreases n
  {
    if n == 1 {
      var path := SearchBegins(P, order);
    } else {
      HopsForever(P, order, n - 1);
      var placed := Elements(order);
      var path: seq<nat> :| HopPath(P, placed, path) && |path| == n - 1;
      var last := Last(path);
      if FirstLeft(P[last], placed).None? {
        EndPicked(P, placed, path);
      }
      Hopped(P, placed, path);
    }
  }

  /** With a cycle, `tsort` places some of the items and then goes on searching for ever, never leaving
      the items that are not placed. */
  lemma CyclesGoOnForever(P: Preds, order: seq<nat>) returns (stuck: seq<nat>)
    requires Wf(P) && !Acyclic(P) && InTurn(P, order)
    ensures InTurn(P, stuck) && |stuck| < |P|
    ensures forall i: nat :: !Picked(P, Elements(stuck), i)
    ensures forall n: nat | n > 0 :: GoesOn(P, Elements(stuck), n)
    decreases |P| - |order|
  {
    InTurnRespects(P, order);
    SortsIffAcyclic(P);
    if n: nat :| Picked(P, Elements(order), n) {
      TurnTaken(P, order, n);
      InTurnRespects(P, order + [n]);
      stuck := CyclesGoOnForever(P, order + [n]);
    } else {
      stuck := order;
      forall n: nat | n > 0
        ensures GoesOn(P, Elements(stuck), n)
      {
        HopsForever(P, order, n);
      }
    }
  }
}
