/** Sorting the functions of a hook: `prepare`, `tsort` and `sort_hook` of `apr_hooks.c`. */
module HookSort {
  import opened Sequences
  import opened Hooks
  import opened HookOrder
  import opened HookDepth

  /** An entry of the array `pData`.  A pointer to an entry is its index; the entry's own `pData`
      pointer leads to the item of the same index. */
  datatype TSort = TSort(nPredecessors: int, ppPredecessors: seq<Option<nat>>, pNext: Option<nat>)

  /** The entry waits for those of `preds` that are not placed: their slots are filled, all others
      are null, and `nPredecessors` is their number. */
  ghost predicate Waits(t: TSort, preds: seq<nat>, n: nat, placed: set<nat>) {
    && |t.ppPredecessors| == n && |preds| <= n
    && t.nPredecessors == CountLeft(preds, placed)
    && forall k | 0 <= k < n ::
         t.ppPredecessors[k] == if k < |preds| && preds[k] !in placed then Some(preds[k]) else None
  }

  ghost predicate AllWait(data: seq<TSort>, P: Preds, placed: set<nat>) {
    |data| == |P| && forall i {:trigger data[i]} | 0 <= i < |P| :: Waits(data[i], P[i], |P|, placed)
  }

  /** The placed entries are linked in order, the last to itself; the others are linked nowhere. */
  ghost predicate Linked(data: seq<TSort>, order: seq<nat>) {
    && (forall j | 0 <= j < |order| :: order[j] < |data|)
    && (forall j | 0 <= j < |order| - 1 :: data[order[j]].pNext == Some(order[j + 1]))
    && (order != [] ==> data[Last(order)].pNext == Some(Last(order)))
    && forall i: nat | i < |data| && i !in order :: data[i].pNext.None?
  }

  // tsort

  /** Where the search is: still looking for the first entry not placed, or at the end of a path. */
  ghost predicate Seeking(P: Preds, placed: set<nat>, path: seq<nat>, n: int) {
    0 <= n <= |P| &&
    if path == [] then forall i: nat | i < n :: i in placed
    else HopPath(P, placed, path) && n == Last(path)
  }

  lemma SomeSlot(t: TSort, preds: seq<nat>, n: nat, placed: set<nat>)
    requires Waits(t, preds, n, placed) && t.nPredecessors != 0
    ensures exists k :: 0 <= k < n && t.ppPredecessors[k].Some?
  {
    var p := FirstLeft(preds, placed).value;
    var k :| 0 <= k < |preds| && preds[k] == p;
    assert t.ppPredecessors[k] == Some(p);
  }

  /** The first filled slot holds the first item waited for. */
  lemma {:induction false} FirstSlot(preds: seq<nat>, placed: set<nat>, k: nat)
    requires k < |preds| && preds[k] !in placed && forall l | 0 <= l < k :: preds[l] in placed
    ensures FirstLeft(preds, placed) == Some(preds[k])
    decreases k
  {
    if k > 0 {
      assert preds[0] in placed;
      assert forall l | 0 <= l < k - 1 :: preds[1..][l] == preds[l + 1];
      FirstSlot(preds[1..], placed, k - 1);
    }
  }

  /** The first predecessor of entry `n` that is not placed. */
  method FirstPredecessor(t: TSort, nItems: nat, ghost preds: seq<nat>, ghost placed: set<nat>) returns (i: nat)
    requires Waits(t, preds, nItems, placed) && t.nPredecessors != 0
    requires forall p | p in preds :: p < nItems
    ensures i < nItems && FirstLeft(preds, placed) == Some(i)
  {
    SomeSlot(t, preds, nItems, placed);
    var k := 0;
    while t.ppPredecessors[k].None?
      invariant 0 <= k < nItems && forall l | 0 <= l < k :: t.ppPredecessors[l].None?
      decreases nItems - k
    {
      k := k + 1;
    }
    FirstSlot(preds, placed, k);
    i := 0;
    while t.ppPredecessors[k] != Some(i)
      invariant i <= preds[k]
      decreases nItems - i
    {
      i := i + 1;
    }
  }

  lemma ScanNotOver(P: Preds, order: seq<nat>, n: int)
    requires Wf(P) && InTurn(P, order) && |order| < |P| && Seeking(P, Elements(order), [], n)
    ensures n < |P|
  {
    InTurnRespects(P, order);
    if n == |P| {
      forall i: nat | i < |P|
        ensures i in order
      {
        assert i in Elements(order);
      }
      AllThere(order, |P|);
    }
  }

  lemma SeekOn(P: Preds, placed: set<nat>, path: seq<nat>, n: nat)
    requires n < |P| && Seeking(P, placed, path, n)
    ensures n in placed ==> path == [] && Seeking(P, placed, [], n + 1)
    ensures n !in placed ==> var found := if path == [] then [n] else path; Seeking(P, placed, found, n)
  {
    assert path != [] ==> path[|path| - 1] !in placed;
  }

  lemma SeekHop(P: Preds, placed: set<nat>, path: seq<nat>, i: nat)
    requires Wf(P) && path != [] && Seeking(P, placed, path, Last(path))
    requires FirstLeft(P[Last(path)], placed) == Some(i)
    ensures Seeking(P, placed, path + [i], i)
  {
    Hopped(P, placed, path);
  }

  lemma Entry(data: seq<TSort>, P: Preds, order: seq<nat>, n: nat)
    requires AllWait(data, P, Elements(order)) && Linked(data, order) && n < |P|
    ensures Waits(data[n], P[n], |P|, Elements(order))
    ensures data[n].pNext.None? <==> n !in Elements(order)
  {
    if n in order {
      var j :| 0 <= j < |order| && order[j] == n;
      assert j < |order| - 1 ==> data[order[j]].pNext == Some(order[j + 1]);
    }
  }

  /** What the search goes by: entries that wait for what is not placed, some items placed in turn. */
  ghost predicate Searching(data: seq<TSort>, P: Preds, order: seq<nat>) {
    && Wf(P) && InTurn(P, order) && |order| < |P|
    && AllWait(data, P, Elements(order)) && Linked(data, order)
  }

  /** One entry further, or one hop. */
  ghost predicate WentOn(path: seq<nat>, n: int, on: seq<nat>, next: int) {
    || (on == [] && path == [] && next == n)
    || (on != [] && |on| == if path == [] then 2 else |path| + 1)
  }

  /** One round of the loop, at entry `n`: the search ends there, or goes on after `next`.  The
      assertion that there is no circle sits where it is not reached. */
  method Round(pData: array<TSort>, n: nat, ghost P: Preds, ghost order: seq<nat>, ghost path: seq<nat>)
    returns (found: bool, next: int, ghost on: seq<nat>)
    requires Searching(pData[..], P, order) && Seeking(P, Elements(order), path, n)
    ensures found ==> n < |P| && Picked(P, Elements(order), n)
    ensures !found ==> Seeking(P, Elements(order), on, next + 1) && WentOn(path, n, on, next)
  {
    var nItems := pData.Length;
    ghost var placed := Elements(order);
    if path == [] {
      ScanNotOver(P, order, n);
    }
    if n == nItems {
      assert false;
    }
    found, next, on := false, n, path;
    Entry(pData[..], P, order, n);
    SeekOn(P, placed, path, n);
    if pData[n].pNext.None? {
      on := if path == [] then [n] else path;
      if pData[n].nPredecessors != 0 {
        var i := FirstPredecessor(pData[n], nItems, P[n], placed);
        SeekHop(P, placed, on, i);
        on := on + [i];
        next := i as int - 1;
      } else {
        EndPicked(P, placed, on);
        found := true;
      }
    }
  }

  /** The inner search of `tsort`: it ends if there is an item for it to end at. */
  method Search(pData: array<TSort>, ghost P: Preds, ghost order: seq<nat>) returns (n: nat)
    requires Searching(pData[..], P, order) && exists i :: Picked(P, Elements(order), i)
    ensures n < |P| && Picked(P, Elements(order), n)
  {
    ghost var placed := Elements(order);
    ghost var pick: nat :| Picked(P, placed, pick);
    ghost var way: seq<nat> :| HopPath(P, placed, way) && PathEnds(P, placed, way, pick);
    ghost var path: seq<nat> := [];
    var m := 0;
    while true
      invariant Seeking(P, placed, path, m) && |path| <= |way|
      decreases |way| - |path|, |P| - m
    {
      var found, next;
      ghost var on;
      found, next, on := Round(pData, m, P, order, path);
      if found {
        return m;
      }
      if on != [] {
        OnTheWay(P, placed, way, pick, on);
      }
      path, m := on, next + 1;
    }
  }

  /** The same search given up after so many rounds.  It ends nowhere but at an item picked, and so not
      at all, whatever the number of rounds, when there is none; and if it ends, it does so soon. */
  method SearchFor(pData: array<TSort>, rounds: nat, ghost P: Preds, ghost order: seq<nat>) returns (n: Option<nat>)
    requires Searching(pData[..], P, order)
    ensures n.Some? ==> n.value < |P| && Picked(P, Elements(order), n.value)
    ensures rounds >= 2 * |P| ==> (n.Some? <==> exists i :: Picked(P, Elements(order), i))
  {
    ghost var placed := Elements(order);
    ghost var path: seq<nat> := [];
    var m := 0;
    for r := 0 to rounds
      invariant Seeking(P, placed, path, m)
      invariant r <= if path == [] then m else |P| + |path| - 2
    {
      var found, next;
      ghost var on;
      found, next, on := Round(pData, m, P, order, path);
      if found {
        return Some(m);
      }
      path, m := on, next + 1;
    }
    if i: nat :| rounds >= 2 * |P| && Picked(P, placed, i) {
      EndsInTime(P, placed, path, i);
    }
    return None;
  }

  // An item placed.

  lemma {:induction false} CountPlaced(preds: seq<nat>, placed: set<nat>, n: nat)
    requires Distinct(preds) && n !in placed
    ensures CountLeft(preds, placed + {n}) == CountLeft(preds, placed) - if n in preds then 1 else 0
    decreases |preds|
  {
    if preds != [] {
      assert preds == [preds[0]] + preds[1..];
      assert preds[0] !in preds[1..] by {
        assert forall l | 0 <= l < |preds[1..]| :: preds[1..][l] == preds[l + 1] != preds[0];
      }
      CountPlaced(preds[1..], placed, n);
    }
  }

  /** The slots before `k` have been looked at, and none held `n`. */
  ghost predicate NotYet(t: TSort, n: nat, k: int) {
    0 <= k <= |t.ppPredecessors| && forall l | 0 <= l < k :: t.ppPredecessors[l] != Some(n)
  }

  function Emptied(t: TSort, k: nat): TSort
    requires k < |t.ppPredecessors|
  {
    t.(nPredecessors := t.nPredecessors - 1, ppPredecessors := t.ppPredecessors[k := None])
  }

  lemma SlotEmptied(t: TSort, preds: seq<nat>, nItems: nat, placed: set<nat>, n: nat, k: nat)
    requires Waits(t, preds, nItems, placed) && Distinct(preds) && n !in placed
    requires k < nItems && t.ppPredecessors[k] == Some(n)
    ensures Waits(Emptied(t, k), preds, nItems, placed + {n})
  {
    CountPlaced(preds, placed, n);
    assert preds[k] == n;
  }

  lemma NoSlot(t: TSort, preds: seq<nat>, nItems: nat, placed: set<nat>, n: nat)
    requires Waits(t, preds, nItems, placed) && Distinct(preds) && n !in placed && NotYet(t, n, nItems)
    ensures Waits(t, preds, nItems, placed + {n})
  {
    CountPlaced(preds, placed, n);
    forall k | 0 <= k < |preds|
      ensures preds[k] != n
    {
      assert t.ppPredecessors[k] != Some(n);
    }
  }

  /** An entry no longer waits for `n`. */
  method ForgetPredecessor(t: TSort, n: nat, nItems: nat, ghost preds: seq<nat>, ghost placed: set<nat>)
    returns (t': TSort)
    requires Waits(t, preds, nItems, placed) && Distinct(preds) && n !in placed
    ensures Waits(t', preds, nItems, placed + {n}) && t'.pNext == t.pNext
  {
    for k := 0 to nItems
      invariant NotYet(t, n, k)
    {
      if t.ppPredecessors[k] == Some(n) {
        SlotEmptied(t, preds, nItems, placed, n, k);
        return Emptied(t, k);
      }
    }
    NoSlot(t, preds, nItems, placed, n);
    return t;
  }

  ghost predicate SameNext(data: seq<TSort>, data': seq<TSort>) {
    |data| == |data'| && forall i | 0 <= i < |data| :: data'[i].pNext == data[i].pNext
  }

  /** No entry waits for `n` any more. */
  method ForgetItem(pData: array<TSort>, n: nat, ghost P: Preds, ghost placed: set<nat>)
    requires Wf(P) && AllWait(pData[..], P, placed) && n !in placed
    modifies pData
    ensures AllWait(pData[..], P, placed + {n}) && SameNext(old(pData[..]), pData[..])
  {
    var nItems := pData.Length;
    for i := 0 to nItems
      invariant forall j | 0 <= j < i :: Waits(pData[j], P[j], nItems, placed + {n})
      invariant forall j | i <= j < nItems :: pData[j] == old(pData[j])
      invariant forall j | 0 <= j < nItems :: pData[j].pNext == old(pData[j]).pNext
    {
      assert Waits(old(pData[..])[i], P[i], nItems, placed);
      pData[i] := ForgetPredecessor(pData[i], n, nItems, P[i], placed);
    }
    assert forall j | 0 <= j < nItems :: pData[..][j] == pData[j];
  }

  /** Entry `n` linked after the last one. */
  function LinkedLast(data: seq<TSort>, pTail: Option<nat>, n: nat): seq<TSort>
    requires n < |data| && (pTail.Some? ==> pTail.value < |data|)
  {
    var data1 := if pTail.Some? then data[pTail.value := data[pTail.value].(pNext := Some(n))] else data;
    data1[n := data1[n].(pNext := Some(n))]
  }

  ghost predicate Ends(pHead: Option<nat>, pTail: Option<nat>, order: seq<nat>) {
    if order == [] then pHead.None? && pTail.None?
    else pHead == Some(order[0]) && pTail == Some(Last(order))
  }

  lemma LastLinked(data: seq<TSort>, P: Preds, order: seq<nat>, pHead: Option<nat>, pTail: Option<nat>, n: nat)
    requires AllWait(data, P, Elements(order)) && Linked(data, order) && Distinct(order) && Ends(pHead, pTail, order)
    requires n < |P| && n !in order
    ensures pTail.Some? ==> pTail.value < |data|
    ensures Linked(LinkedLast(data, pTail, n), order + [n])
    ensures AllWait(LinkedLast(data, pTail, n), P, Elements(order))
  {
    var data', order' := LinkedLast(data, pTail, n), order + [n];
    forall j | 0 <= j < |order'| - 1
      ensures data'[order'[j]].pNext == Some(order'[j + 1])
    {
      assert order[j] != n;
      if j < |order| - 1 {
        assert data[order[j]].pNext == Some(order[j + 1]) && order[j] != Last(order);
      }
    }
    forall i: nat | i < |data| && i !in order'
      ensures data'[i].pNext.None?
    {
      assert i !in order && i != n;
    }
    forall i | 0 <= i < |P|
      ensures Waits(data'[i], P[i], |P|, Elements(order))
    {
      assert Waits(data[i], P[i], |P|, Elements(order));
    }
  }

  lemma LinkedSame(data: seq<TSort>, data': seq<TSort>, order: seq<nat>)
    requires Linked(data, order) && SameNext(data, data')
    ensures Linked(data', order)
  {
  }

  /** The list that the entries make from `pHead` on. */
  ghost predicate Chained(data: seq<TSort>, pHead: Option<nat>, order: seq<nat>)
    decreases |order|
  {
    if order == [] then pHead.None?
    else pHead == Some(order[0]) && order[0] < |data| && Chained(data, data[order[0]].pNext, order[1..])
  }

  lemma {:induction false} ChainedBy(data: seq<TSort>, order: seq<nat>)
    requires order != [] && (forall j | 0 <= j < |order| :: order[j] < |data|)
    requires forall j | 0 <= j < |order| - 1 :: data[order[j]].pNext == Some(order[j + 1])
    requires data[Last(order)].pNext.None?
    ensures Chained(data, Some(order[0]), order)
    decreases |order|
  {
    if |order| > 1 {
      ChainedBy(data, order[1..]);
    }
  }

  lemma Unfudged(data: seq<TSort>, order: seq<nat>)
    requires order != [] && Distinct(order) && Linked(data, order)
    ensures Chained(data[Last(order) := data[Last(order)].(pNext := None)], Some(order[0]), order)
  {
    ChainedBy(data[Last(order) := data[Last(order)].(pNext := None)], order);
  }

  /** What the outer loop of `tsort` keeps. */
  ghost predicate Sorting(data: seq<TSort>, P: Preds, order: seq<nat>, pHead: Option<nat>, pTail: Option<nat>) {
    && InTurn(P, order) && AllWait(data, P, Elements(order))
    && Linked(data, order) && Ends(pHead, pTail, order)
  }

  lemma OneMore(order: seq<nat>, n: nat)
    ensures Elements(order + [n]) == Elements(order) + {n}
    ensures Last(order + [n]) == n && (order + [n])[0] == if order == [] then n else order[0]
  {
  }

  lemma SortingNext(data: seq<TSort>, data': seq<TSort>, P: Preds, order: seq<nat>,
                    pHead: Option<nat>, pTail: Option<nat>, n: nat)
    requires Wf(P) && Sorting(data, P, order, pHead, pTail) && n < |P| && Picked(P, Elements(order), n)
    requires n !in order && (pTail.Some? ==> pTail.value < |data|)
    requires AllWait(data', P, Elements(order) + {n}) && SameNext(LinkedLast(data, pTail, n), data')
    ensures Sorting(data', P, order + [n], if pTail.Some? then pHead else Some(n), Some(n))
  {
    InTurnRespects(P, order);
    TurnTaken(P, order, n);
    LinkedNext(data, data', P, order, pHead, pTail, n);
    OneMore(order, n);
  }

  lemma LinkedNext(data: seq<TSort>, data': seq<TSort>, P: Preds, order: seq<nat>,
                   pHead: Option<nat>, pTail: Option<nat>, n: nat)
    requires AllWait(data, P, Elements(order)) && Linked(data, order) && Distinct(order) && Ends(pHead, pTail, order)
    requires n < |P| && n !in order && (pTail.Some? ==> pTail.value < |data|)
    requires SameNext(LinkedLast(data, pTail, n), data')
    ensures Linked(data', order + [n])
  {
    LastLinked(data, P, order, pHead, pTail, n);
    LinkedSame(LinkedLast(data, pTail, n), data', order + [n]);
  }

  lemma PickedIsNew(P: Preds, order: seq<nat>, n: nat)
    requires Picked(P, Elements(order), n)
    ensures n !in order
  {
    var path: seq<nat> :| HopPath(P, Elements(order), path) && PathEnds(P, Elements(order), path, n);
  }

  /** The item that the search came to is linked after the others, and nothing waits for it any more. */
  method Place(pData: array<TSort>, n: nat, pHead: Option<nat>, pTail: Option<nat>,
               ghost P: Preds, ghost order: seq<nat>)
    returns (pHead': Option<nat>, pTail': Option<nat>)
    requires Wf(P) && Sorting(pData[..], P, order, pHead, pTail) && n < |P| && Picked(P, Elements(order), n)
    modifies pData
    ensures Sorting(pData[..], P, order + [n], pHead', pTail')
  {
    PickedIsNew(P, order, n);
    InTurnRespects(P, order);
    ghost var data := pData[..];
    LastLinked(data, P, order, pHead, pTail, n);
    pHead' := pHead;
    if pTail.Some? {
      pData[pTail.value] := pData[pTail.value].(pNext := Some(n));
    } else {
      pHead' := Some(n);
    }
    pTail' := Some(n);
    pData[n] := pData[n].(pNext := pTail');
    assert pData[..] == LinkedLast(data, pTail, n);
    ForgetItem(pData, n, P, Elements(order));
    SortingNext(data, pData[..], P, order, pHead, pTail, n);
  }

  /** The last entry no longer linked to itself. */
  method Unfudge(pData: array<TSort>, pHead: Option<nat>, pTail: Option<nat>, ghost P: Preds, ghost order: seq<nat>)
    requires Wf(P) && Sorting(pData[..], P, order, pHead, pTail) && order != []
    modifies pData
    ensures Chained(pData[..], pHead, order)
  {
    InTurnRespects(P, order);
    Unfudged(pData[..], order);
    pData[pTail.value] := pData[pTail.value].(pNext := None);
  }

  /** `tsort`: the entries come to be linked in the order in which the search picks them. */
  method Tsort(pData: array<TSort>, ghost P: Preds) returns (pHead: Option<nat>, ghost order: seq<nat>)
    requires Wf(P) && Acyclic(P) && P != [] && Sorting(pData[..], P, [], None, None)
    modifies pData
    ensures InTurn(P, order) && |order| == |P| && Chained(pData[..], pHead, order)
  {
    var nItems := pData.Length;
    var pTail: Option<nat> := None;
    pHead, order := None, [];
    for nTotal := 0 to nItems
      invariant |order| == nTotal && Sorting(pData[..], P, order, pHead, pTail)
    {
      SomePicked(P, order);
      var n := Search(pData, P, order);
      pHead, pTail := Place(pData, n, pHead, pTail, P, order);
      order := order + [n];
    }
    Unfudge(pData, pHead, pTail, P, order);
  }

  /** `tsort` with every search given up after so many rounds.  With a circle it is given up whatever
      the number of rounds; without one it never is once there are twice as many as items. */
  method TsortFor(pData: array<TSort>, rounds: nat, ghost P: Preds)
    returns (whole: bool, pHead: Option<nat>, ghost order: seq<nat>)
    requires Wf(P) && P != [] && Sorting(pData[..], P, [], None, None)
    modifies pData
    ensures whole ==> Acyclic(P) && InTurn(P, order) && |order| == |P| && Chained(pData[..], pHead, order)
    ensures rounds >= 2 * |P| ==> (whole <==> Acyclic(P))
  {
    var nItems := pData.Length;
    var pTail: Option<nat> := None;
    pHead, order := None, [];
    for nTotal := 0 to nItems
      invariant |order| == nTotal && Sorting(pData[..], P, order, pHead, pTail)
    {
      if Acyclic(P) {
        SomePicked(P, order);
      }
      var n := SearchFor(pData, rounds, P, order);
      if n.None? {
        return false, pHead, order;
      }
      pHead, pTail := Place(pData, n.value, pHead, pTail, P, order);
      order := order + [n.value];
    }
    SortsIffAcyclic(P);
    Unfudge(pData, pHead, pTail, P, order);
    whole := true;
  }

  // prepare: who waits for whom.

  /** The first item of that name, from the `k`th on. */
  function Named<S>(items: seq<HookLink<S>>, name: string, k: nat): (r: Option<nat>)
    ensures r.Some? ==> k <= r.value < |items| && items[r.value].szName == name
    ensures r.Some? ==> forall l | k <= l < r.value :: items[l].szName != name
    ensures r.None? ==> forall l | k <= l < |items| :: items[l].szName != name
    decreases |items| - k
  {
    if k >= |items| then None
    else if items[k].szName == name then Some(k)
    else Named(items, name, k + 1)
  }

  function WithPred(P: Preds, n: nat, k: nat): Preds
    requires n < |P|
  {
    if k in P[n] then P else P[n := P[n] + [k]]
  }

  /** Item `n` waits for the first item of each of the names. */
  function AddPre<S>(items: seq<HookLink<S>>, P: Preds, n: nat, names: seq<string>): (r: Preds)
    requires n < |P|
    ensures |r| == |P|
    decreases |names|
  {
    if names == [] then P
    else
      var k := Named(items, names[0], 0);
      AddPre(items, if k.Some? then WithPred(P, n, k.value) else P, n, names[1..])
  }

  /** The first item of each of the names waits for item `n`. */
  function AddSucc<S>(items: seq<HookLink<S>>, P: Preds, n: nat, names: seq<string>): (r: Preds)
    requires |P| == |items| && n < |P|
    ensures |r| == |P|
    decreases |names|
  {
    if names == [] then P
    else
      var k := Named(items, names[0], 0);
      AddSucc(items, if k.Some? then WithPred(P, k.value, n) else P, n, names[1..])
  }

  function AddItem<S>(items: seq<HookLink<S>>, P: Preds, n: nat): (r: Preds)
    requires |P| == |items| && n < |P|
    ensures |r| == |P|
  {
    AddSucc(items, AddPre(items, P, n, items[n].aszPredecessors), n, items[n].aszSuccessors)
  }

  function AddFrom<S>(items: seq<HookLink<S>>, P: Preds, n: nat): (r: Preds)
    requires |P| == |items|
    ensures |r| == |P|
    decreases |items| - n
  {
    if n >= |items| then P else AddFrom(items, AddItem(items, P, n), n + 1)
  }

  /** For each item, the items it waits for. */
  function PredLists<S>(items: seq<HookLink<S>>): (r: Preds)
    ensures |r| == |items|
  {
    AddFrom(items, seq(|items|, i requires 0 <= i < |items| => []), 0)
  }

  /** `k` is to come before `n`: the first item of a name that `n` gives as a predecessor, or `n` is the
      first of a name that `k` gives as a successor. */
  ghost predicate ComesBefore<S>(items: seq<HookLink<S>>, k: nat, n: nat) {
    && k < |items| && n < |items|
    && (NamesFirst(items, items[n].aszPredecessors, k) || NamesFirst(items, items[k].aszSuccessors, n))
  }

  /** One of the names is first that of item `k`. */
  ghost predicate NamesFirst<S>(items: seq<HookLink<S>>, names: seq<string>, k: nat) {
    exists a :: a in names && Named(items, a, 0) == Some(k)
  }

  lemma NamesCons<S>(items: seq<HookLink<S>>, names: seq<string>, k: nat)
    requires names != []
    ensures NamesFirst(items, names, k) <==> Named(items, names[0], 0) == Some(k) || NamesFirst(items, names[1..], k)
  {
    assert names == [names[0]] + names[1..];
  }

  lemma WithPredWf(P: Preds, n: nat, k: nat)
    requires Wf(P) && n < |P| && k < |P|
    ensures Wf(WithPred(P, n, k)) && |P[n]| <= |P|
    ensures k !in P[n] ==> |P[n]| < |P|
    ensures forall i, p | 0 <= i < |P| :: p in WithPred(P, n, k)[i] <==> p in P[i] || (i == n && p == k)
  {
    DistinctBelow(P[n], |P|);
    if k !in P[n] {
      DistinctBelow(P[n] + [k], |P|);
    }
  }

  lemma {:induction false} AddPreIs<S>(items: seq<HookLink<S>>, P: Preds, n: nat, names: seq<string>, i: nat, p: nat)
    requires Wf(P) && |P| == |items| && n < |P| && i < |P|
    ensures Wf(AddPre(items, P, n, names))
    ensures p in AddPre(items, P, n, names)[i] <==> p in P[i] || (i == n && NamesFirst(items, names, p))
    decreases |names|
  {
    if names != [] {
      var k := Named(items, names[0], 0);
      if k.Some? {
        WithPredWf(P, n, k.value);
      }
      NamesCons(items, names, p);
      AddPreIs(items, if k.Some? then WithPred(P, n, k.value) else P, n, names[1..], i, p);
    }
  }

  lemma {:induction false} AddSuccIs<S>(items: seq<HookLink<S>>, P: Preds, n: nat, names: seq<string>, i: nat, p: nat)
    requires Wf(P) && |P| == |items| && n < |P| && i < |P|
    ensures Wf(AddSucc(items, P, n, names))
    ensures p in AddSucc(items, P, n, names)[i] <==> p in P[i] || (p == n && NamesFirst(items, names, i))
    decreases |names|
  {
    if names != [] {
      var k := Named(items, names[0], 0);
      if k.Some? {
        WithPredWf(P, k.value, n);
      }
      NamesCons(items, names, i);
      AddSuccIs(items, if k.Some? then WithPred(P, k.value, n) else P, n, names[1..], i, p);
    }
  }

  /** What the items from the `n`th on ask for. */
  ghost predicate AskedFrom<S>(items: seq<HookLink<S>>, n: nat, k: nat, i: nat) {
    && k < |items| && i < |items|
    && (|| (n <= i && NamesFirst(items, items[i].aszPredecessors, k))
        || (n <= k && NamesFirst(items, items[k].aszSuccessors, i)))
  }

  lemma {:induction false} AddFromIs<S>(items: seq<HookLink<S>>, P: Preds, n: nat, i: nat, p: nat)
    requires Wf(P) && |P| == |items| && i < |P|
    ensures Wf(AddFrom(items, P, n))
    ensures p in AddFrom(items, P, n)[i] <==> p in P[i] || AskedFrom(items, n, p, i)
    decreases |items| - n
  {
    if n < |items| {
      AddPreIs(items, P, n, items[n].aszPredecessors, i, p);
      AddSuccIs(items, AddPre(items, P, n, items[n].aszPredecessors), n, items[n].aszSuccessors, i, p);
      AddFromIs(items, AddItem(items, P, n), n + 1, i, p);
    }
  }

  /** `prepare` makes an item wait for exactly those that are to come before it. */
  lemma PredListsIs<S>(items: seq<HookLink<S>>, n: nat, k: nat)
    requires n < |items|
    ensures Wf(PredLists(items))
    ensures k in PredLists(items)[n] <==> ComesBefore(items, k, n)
  {
    AddFromIs(items, seq(|items|, i requires 0 <= i < |items| => []), 0, n, k);
  }

  /** Items of which each is to come after the next, and the last after the first. */
  ghost predicate Circle<S>(items: seq<HookLink<S>>, c: seq<nat>) {
    && c != [] && (forall j | 0 <= j < |c| - 1 :: ComesBefore(items, c[j + 1], c[j]))
    && ComesBefore(items, c[0], Last(c))
  }

  /** The items wait for each other in a circle just when what the hook functions ask for is one. */
  lemma CircleIff<S>(items: seq<HookLink<S>>, c: seq<nat>)
    ensures IsCycle(PredLists(items), c) <==> Circle(items, c)
  {
    if c != [] {
      forall j | 0 <= j < |c| && c[j] < |items|
        ensures Follower(c, j) in PredLists(items)[c[j]] <==> ComesBefore(items, Follower(c, j), c[j])
      {
        PredListsIs(items, c[j], Follower(c, j));
      }
      if Circle(items, c) {
        forall j | 0 <= j < |c|
          ensures c[j] < |items|
        {
          assert j < |c| - 1 ==> ComesBefore(items, c[j + 1], c[j]);
        }
        assert forall j | 0 <= j < |c| - 1 :: c[j + 1] == Follower(c, j);
      }
      if IsCycle(PredLists(items), c) {
        assert forall j | 0 <= j < |c| - 1 :: c[j + 1] == Follower(c, j) && c[j + 1] in PredLists(items)[c[j]];
      }
    }
  }

  function Follower(c: seq<nat>, j: int): nat
    requires 0 <= j < |c|
  {
    if j < |c| - 1 then c[j + 1] else c[0]
  }

  /** Two functions, each to come after the other: `tsort` is given a circle. */
  lemma TwoInACircle<S>(first: HookLink<S>, second: HookLink<S>)
    requires first.szName != second.szName
    requires second.szName in first.aszPredecessors && first.szName in second.aszPredecessors
    ensures !Acyclic(PredLists([first, second]))
  {
    var items := [first, second];
    assert Named(items, first.szName, 0) == Some(0) && Named(items, second.szName, 0) == Some(1);
    assert ComesBefore(items, 1, 0) && ComesBefore(items, 0, 1);
    CircleIff(items, [0, 1]);
  }

  ghost predicate PreparedAs(data: seq<TSort>, P: Preds) {
    |data| == |P| && forall i {:trigger data[i]} | 0 <= i < |P| :: Waits(data[i], P[i], |P|, {}) && data[i].pNext.None?
  }

  lemma {:induction false} CountAll(preds: seq<nat>)
    ensures CountLeft(preds, {}) == |preds|
    decreases |preds|
  {
    if preds != [] {
      CountAll(preds[1..]);
    }
  }

  function Waiting(t: TSort, k: nat): TSort
    requires 0 <= t.nPredecessors < |t.ppPredecessors|
  {
    t.(nPredecessors := t.nPredecessors + 1, ppPredecessors := t.ppPredecessors[t.nPredecessors := Some(k)])
  }

  lemma WaitsMore(t: TSort, preds: seq<nat>, n: nat, k: nat)
    requires Waits(t, preds, n, {})
    ensures t.nPredecessors == |preds|
    ensures |preds| < n ==> Waits(Waiting(t, k), preds + [k], n, {})
  {
    CountAll(preds);
    CountAll(preds + [k]);
  }

  /** Entry `n` is to wait for entry `k`, if it does not yet. */
  method AddPredecessor(pData: array<TSort>, n: nat, k: nat, ghost P: Preds)
    requires Wf(P) && PreparedAs(pData[..], P) && n < |P| && k < |P|
    modifies pData
    ensures PreparedAs(pData[..], WithPred(P, n, k))
  {
    WithPredWf(P, n, k);
    var t := pData[n];
    assert t == pData[..][n];
    WaitsMore(t, P[n], |P|, k);
    for l := 0 to t.nPredecessors
      invariant pData[..] == old(pData[..]) && k !in P[n][..l]
    {
      if t.ppPredecessors[l] == Some(k) {
        assert P[n][l] == k;
        return;
      }
    }
    assert P[n][..|P[n]|] == P[n];
    ghost var data := pData[..];
    pData[n] := t.(ppPredecessors := t.ppPredecessors[t.nPredecessors := Some(k)],
                   nPredecessors := t.nPredecessors + 1);
    assert pData[..] == data[n := Waiting(t, k)];
  }

  /** The names that item `n` gives as predecessors. */
  method AddPredecessors<S>(pItems: seq<HookLink<S>>, n: nat, pData: array<TSort>, ghost P: Preds)
    requires Wf(P) && PreparedAs(pData[..], P) && |P| == |pItems| && n < |P|
    modifies pData
    ensures PreparedAs(pData[..], AddPre(pItems, P, n, pItems[n].aszPredecessors))
  {
    var names := pItems[n].aszPredecessors;
    ghost var Q := P;
    for i := 0 to |names|
      invariant Wf(Q) && |Q| == |P| && PreparedAs(pData[..], Q)
      invariant AddPre(pItems, Q, n, names[i..]) == AddPre(pItems, P, n, names)
    {
      assert names[i..][0] == names[i] && names[i..][1..] == names[i + 1..];
      var found := FindNamed(pItems, names[i]);
      if found.Some? {
        AddPredecessor(pData, n, found.value, Q);
        WithPredWf(Q, n, found.value);
        Q := WithPred(Q, n, found.value);
      }
    }
  }

  /** The names that item `n` gives as successors. */
  method AddSuccessors<S>(pItems: seq<HookLink<S>>, n: nat, pData: array<TSort>, ghost P: Preds)
    requires Wf(P) && PreparedAs(pData[..], P) && |P| == |pItems| && n < |P|
    modifies pData
    ensures PreparedAs(pData[..], AddSucc(pItems, P, n, pItems[n].aszSuccessors))
  {
    var names := pItems[n].aszSuccessors;
    ghost var Q := P;
    for i := 0 to |names|
      invariant Wf(Q) && |Q| == |P| && PreparedAs(pData[..], Q)
      invariant AddSucc(pItems, Q, n, names[i..]) == AddSucc(pItems, P, n, names)
    {
      assert names[i..][0] == names[i] && names[i..][1..] == names[i + 1..];
      var found := FindNamed(pItems, names[i]);
      if found.Some? {
        AddPredecessor(pData, found.value, n, Q);
        WithPredWf(Q, found.value, n);
        Q := WithPred(Q, found.value, n);
      }
    }
  }

  /** The loop that compares names, up to the first that matches. */
  method FindNamed<S>(pItems: seq<HookLink<S>>, name: string) returns (r: Option<nat>)
    ensures r == Named(pItems, name, 0)
  {
    for k := 0 to |pItems|
      invariant Named(pItems, name, k) == Named(pItems, name, 0)
    {
      if pItems[k].szName == name {
        return Some(k);
      }
    }
    return None;
  }

  /** `prepare`, after the items have been brought into crude order. */
  method Prepare<S>(pItems: seq<HookLink<S>>) returns (pData: array<TSort>)
    ensures fresh(pData) && PreparedAs(pData[..], PredLists(pItems))
  {
    var nItems := |pItems|;
    pData := new TSort[nItems](_ => TSort(0, seq(nItems, _ => None), None));
    ghost var P: Preds := seq(nItems, i requires 0 <= i < nItems => []);
    for n := 0 to nItems
      invariant Wf(P) && |P| == nItems && PreparedAs(pData[..], P)
      invariant AddFrom(pItems, P, n) == PredLists(pItems)
    {
      AddItemWf(pItems, P, n);
      AddPredecessors(pItems, n, pData, P);
      AddSuccessors(pItems, n, pData, AddPre(pItems, P, n, pItems[n].aszPredecessors));
      P := AddItem(pItems, P, n);
    }
  }

  lemma AddItemWf<S>(items: seq<HookLink<S>>, P: Preds, n: nat)
    requires Wf(P) && |P| == |items| && n < |P|
    ensures Wf(AddPre(items, P, n, items[n].aszPredecessors)) && Wf(AddItem(items, P, n))
  {
    AddPreIs(items, P, n, items[n].aszPredecessors, n, 0);
    AddSuccIs(items, AddPre(items, P, n, items[n].aszPredecessors), n, items[n].aszSuccessors, n, 0);
  }

  // sort_hook

  /** What `qsort` may leave: the same items, by ascending `nOrder`. */
  ghost predicate Crude<S>(pHooks: seq<HookLink<S>>, pItems: seq<HookLink<S>>) {
    && |pItems| == |pHooks| && multiset(pItems) == multiset(pHooks)
    && forall i, j | 0 <= i < j < |pItems| :: pItems[i].nOrder <= pItems[j].nOrder
  }

  /** The items at these places. */
  function Picks<T>(items: seq<T>, order: seq<nat>): (r: seq<T>)
    requires forall j | 0 <= j < |order| :: order[j] < |items|
    ensures |r| == |order| && forall j | 0 <= j < |order| :: r[j] == items[order[j]]
  {
    seq(|order|, j requires 0 <= j < |order| => items[order[j]])
  }

  /** `pNew` has the items in the order in which `tsort` picks them. */
  ghost predicate SortedBy<S>(pItems: seq<HookLink<S>>, pNew: seq<HookLink<S>>, order: seq<nat>) {
    && InTurn(PredLists(pItems), order) && |order| == |pItems|
    && |pNew| == |order| && (forall j | 0 <= j < |order| :: order[j] < |pItems| && pNew[j] == pItems[order[j]])
  }

  /** `sort_hook`.  A chain whose items wait for each other in a circle would keep the program in
      `tsort` for ever; an array of hooks is never empty. */
  method SortHook<S>(pHooks: seq<HookLink<S>>, pItems: seq<HookLink<S>>)
    returns (pNew: seq<HookLink<S>>, ghost order: seq<nat>)
    requires pHooks != [] && Crude(pHooks, pItems) && Acyclic(PredLists(pItems))
    ensures SortedBy(pItems, pNew, order)
    ensures order == Visited(PredLists(pItems), [], Counted(|pItems|), |pItems|)
    ensures |pNew| == |pItems| && multiset(pNew) == multiset(pItems)
  {
    ghost var P := PredLists(pItems);
    PredListsIs(pItems, 0, 0);
    var pData := Prepare(pItems);
    var pSort: Option<nat>;
    assert InTurn(P, []) && Elements<nat>([]) == {};
    pSort, order := Tsort(pData, P);
    InTurnRespects(P, order);
    pNew := [];
    ghost var data := pData[..];
    while pSort.Some?
      invariant |pNew| <= |order| && Chained(data, pSort, order[|pNew|..]) && pData[..] == data
      invariant forall j | 0 <= j < |pNew| :: pNew[j] == pItems[order[j]]
      decreases |order| - |pNew|
    {
      assert order[|pNew|..][0] == order[|pNew|] && order[|pNew|..][1..] == order[|pNew| + 1..];
      pNew := pNew + [pItems[pSort.value]];
      pSort := pData[pSort.value].pNext;
    }
    DepthFirst(P, order);
    SortedRight(pItems, pNew, order);
  }

  // What sorting promises.

  /** A permutation of the items, each function after all that are to come before it. */
  lemma SortedRight<S>(pItems: seq<HookLink<S>>, pNew: seq<HookLink<S>>, order: seq<nat>)
    requires SortedBy(pItems, pNew, order)
    ensures multiset(pNew) == multiset(pItems)
    ensures Respects(PredLists(pItems), order)
    ensures forall j, k: nat | 0 <= j < |order| && ComesBefore(pItems, k, order[j]) :: k in order[..j]
  {
    var P := PredLists(pItems);
    if pItems != [] {
      PredListsIs(pItems, 0, 0);
      InTurnRespects(P, order);
      forall j, k: nat | 0 <= j < |order| && ComesBefore(pItems, k, order[j])
        ensures k in order[..j]
      {
        PredListsIs(pItems, order[j], k);
      }
    }
    assert pNew == Picks(pItems, order);
    PicksAll(pItems, order);
  }

  lemma {:induction false} PicksAll<T>(items: seq<T>, order: seq<nat>)
    requires |order| == |items| && Distinct(order) && forall i: nat | i < |items| :: i in order
    requires forall j | 0 <= j < |order| :: order[j] < |items|
    ensures multiset(Picks(items, order)) == multiset(items)
    decreases |items|
  {
    if items != [] {
      var n := |items| - 1;
      assert n in order;
      var j :| 0 <= j < |order| && order[j] == n;
      WithoutLast(order, n, j);
      var rest := order[..j] + order[j + 1..];
      PicksAll(items[..n], rest);
      PicksWithout(items, order, n, j);
      MiddleOut(Picks(items, order), j);
      MiddleOut(items, n);
      assert items[..n] + items[n + 1..] == items[..n];
    }
  }

  ghost predicate Below(s: seq<nat>, n: nat) {
    forall i | 0 <= i < |s| :: s[i] < n
  }

  lemma PicksWithout<T>(items: seq<T>, order: seq<nat>, n: nat, j: int)
    requires n < |items| && 0 <= j < |order| && (forall l | 0 <= l < |order| :: order[l] < |items|)
    requires Below(order[..j] + order[j + 1..], n)
    ensures Picks(items, order)[..j] + Picks(items, order)[j + 1..] == Picks(items[..n], order[..j] + order[j + 1..])
  {
    var a, b := Picks(items, order), Picks(items[..n], order[..j] + order[j + 1..]);
    forall l | 0 <= l < |order| - 1
      ensures (a[..j] + a[j + 1..])[l] == b[l]
    {
      assert (order[..j] + order[j + 1..])[l] == order[if l < j then l else l + 1];
    }
  }

  lemma MiddleOut<T>(s: seq<T>, j: int)
    requires 0 <= j < |s|
    ensures multiset(s) == multiset(s[..j] + s[j + 1..]) + multiset{s[j]}
  {
    assert s == s[..j] + [s[j]] + s[j + 1..];
  }

  lemma WithoutLast(order: seq<nat>, n: nat, j: int)
    requires |order| == n + 1 && Distinct(order) && 0 <= j < |order| && order[j] == n
    requires (forall i: nat | i <= n :: i in order) && forall l | 0 <= l < |order| :: order[l] <= n
    ensures var rest := order[..j] + order[j + 1..];
            Distinct(rest) && (forall i: nat | i < n :: i in rest) && Below(rest, n)
  {
    var rest := order[..j] + order[j + 1..];
    assert forall l | 0 <= l < |rest| :: rest[l] == order[if l < j then l else l + 1];
    forall i: nat | i < n
      ensures i in rest
    {
      assert i in order;
      var l :| 0 <= l < |order| && order[l] == i;
      assert rest[if l < j then l else l - 1] == i;
    }
  }

  /** Where nothing is asked for, the crude order stays. */
  lemma {:induction false} CrudeOrderStays(P: Preds, order: seq<nat>)
    requires InTurn(P, order) && forall i | 0 <= i < |P| :: P[i] == []
    ensures forall j | 0 <= j < |order| :: order[j] == j
    decreases |order|
  {
    if order != [] {
      var n := |order| - 1;
      InTurnPrefix(P, order, n);
      CrudeOrderStays(P, order[..n]);
      var placed := Elements(order[..n]);
      Counting(order[..n]);
      assert Picked(P, placed, order[n]);
      PickedFirst(P, placed, n, order[n]);
      forall j | 0 <= j < |order|
        ensures order[j] == j
      {
        if j < n {
          assert order[..n][j] == j;
        }
      }
    }
  }

  lemma PickedFirst(P: Preds, placed: set<nat>, n: nat, picked: nat)
    requires Picked(P, placed, picked) && forall i | 0 <= i < |P| :: P[i] == []
    requires forall i: nat :: i in placed <==> i < n
    ensures picked == n
  {
    var path: seq<nat> :| HopPath(P, placed, path) && PathEnds(P, placed, path, picked);
    GoesFurther(P, placed, path, 0);
    assert n !in placed && path[0] !in placed;
    assert path[0] == n && P[path[0]] == [] && |path| == 1;
  }

  lemma Counting(s: seq<nat>)
    requires forall j | 0 <= j < |s| :: s[j] == j
    ensures forall i: nat :: i in Elements(s) <==> i < |s|
  {
    forall i: nat
      ensures i in Elements(s) <==> i < |s|
    {
      assert i < |s| ==> s[i] == i && i in s;
      assert i in s ==> exists j :: 0 <= j < |s| && s[j] == i;
    }
  }

  // apr_hook_sort_all

  ghost predicate IsSorted<S>(pItems: seq<HookLink<S>>, pNew: seq<HookLink<S>>) {
    exists order :: SortedBy(pItems, pNew, order)
  }

  method SortOne<S>(pHooks: seq<HookLink<S>>, pItems: seq<HookLink<S>>) returns (pNew: seq<HookLink<S>>)
    requires pHooks != [] && Crude(pHooks, pItems) && Acyclic(PredLists(pItems))
    ensures IsSorted(pItems, pNew)
  {
    ghost var order;
    pNew, order := SortHook(pHooks, pItems);
  }

  ghost predicate SortedAt<S>(crude: map<string, seq<HookLink<S>>>, link: map<string, seq<HookLink<S>>>, name: string) {
    name in crude && name in link && IsSorted(crude[name], link[name])
  }

  /** The hook has functions, `crude` has what `qsort` makes of them, and no circle among those. */
  ghost predicate ReadyAt<S>(crude: map<string, seq<HookLink<S>>>, link: map<string, seq<HookLink<S>>>, name: string) {
    && name in crude && name in link && link[name] != []
    && Crude(link[name], crude[name]) && Acyclic(PredLists(crude[name]))
  }

  ghost predicate SortedUpTo<S>(crude: map<string, seq<HookLink<S>>>, link: map<string, seq<HookLink<S>>>,
                                names: seq<string>, n: int)
  {
    && 0 <= n <= |names| && Distinct(names)
    && (forall i | 0 <= i < n :: SortedAt(crude, link, names[i]))
    && forall i | n <= i < |names| :: ReadyAt(crude, link, names[i])
  }

  lemma SortedOneMore<S>(crude: map<string, seq<HookLink<S>>>, link: map<string, seq<HookLink<S>>>,
                         names: seq<string>, n: int, pNew: seq<HookLink<S>>)
    requires SortedUpTo(crude, link, names, n) && n < |names|
    requires ReadyAt(crude, link, names[n]) ==> IsSorted(crude[names[n]], pNew)
    ensures SortedUpTo(crude, link[names[n] := pNew], names, n + 1)
    ensures names[n] in link
  {
    forall i | 0 <= i < |names| && i != n
      ensures names[i] != names[n]
    {
    }
  }

  /** Every hook's functions sorted, hook by hook; `crude` is what `qsort` makes of each. */
  method SortAll<S>(hooks: HookStruct<S>, crude: map<string, seq<HookLink<S>>>)
    requires SortedOnce(hooks.Now())
    requires forall name | name in hooks.sorted :: ReadyAt(crude, hooks.link, name)
    modifies hooks
    ensures hooks.sorted == old(hooks.sorted) && hooks.link.Keys == old(hooks.link.Keys)
    ensures forall name | name in hooks.sorted :: SortedAt(crude, hooks.link, name)
  {
    var names := hooks.sorted;
    for n := 0 to |names|
      invariant hooks.sorted == names && hooks.link.Keys == old(hooks.link.Keys)
      invariant SortedUpTo(crude, hooks.link, names, n)
    {
      assert ReadyAt(crude, hooks.link, names[n]);
      var pNew := SortOne(hooks.link[names[n]], crude[names[n]]);
      SortedOneMore(crude, hooks.link, names, n, pNew);
      hooks.link := hooks.link[names[n] := pNew];
    }
  }
}
