/** The order of `tsort` told another way: depth first, each item just after those it waits for. */
module HookDepth {
  import opened Sequences
  import opened Hooks
  import opened HookOrder

  /** Each item of `todo` visited in turn, unless it is there already: first the items that it waits for,
      in the order in which they are listed, then the item itself. */
  function Visited(P: Preds, order: seq<nat>, todo: seq<nat>, depth: nat): seq<nat>
    decreases depth, |todo|
  {
    if todo == [] then order
    else if todo[0] in order || todo[0] >= |P| || depth == 0 then Visited(P, order, todo[1..], depth)
    else Visited(P, Visited(P, order, P[todo[0]], depth - 1) + [todo[0]], todo[1..], depth)
  }

  /** 0, 1, 2, ... */
  function Counted(n: nat): (r: seq<nat>)
    ensures |r| == n && forall i | 0 <= i < n :: r[i] == i
  {
    seq(n, i => i)
  }

  /** The list that the search works on: all items at first, else what the last item of the path waits for. */
  ghost predicate WorksOn(P: Preds, placed: set<nat>, path: seq<nat>, done: seq<nat>, todo: seq<nat>) {
    && (forall p | p in done :: p in placed)
    && if path == [] then done + todo == Counted(|P|)
       else HopPath(P, placed, path) && Distinct(path) && done + todo == P[Last(path)]
  }

  /** Where something is missing, it is the first that is left. */
  lemma {:induction false} FirstIs(preds: seq<nat>, done: seq<nat>, todo: seq<nat>, placed: set<nat>)
    requires preds == done + todo && todo != [] && todo[0] !in placed && forall p | p in done :: p in placed
    ensures FirstLeft(preds, placed) == Some(todo[0])
    decreases |done|
  {
    if done != [] {
      assert preds[0] == done[0] && preds[1..] == done[1..] + todo;
      FirstIs(preds[1..], done[1..], todo, placed);
    }
  }

  /** With more items placed, what was first and is still missing is first. */
  lemma {:induction false} FirstStays(preds: seq<nat>, placed: set<nat>, more: set<nat>, p: nat)
    requires FirstLeft(preds, placed) == Some(p) && placed <= more && p !in more
    ensures FirstLeft(preds, more) == Some(p)
    decreases |preds|
  {
    if preds[0] in placed {
      FirstStays(preds[1..], placed, more, p);
    }
  }

  ghost predicate Apart(path: seq<nat>, order: seq<nat>) {
    forall p | p in path :: p !in order
  }

  lemma PathStays(P: Preds, placed: set<nat>, order: seq<nat>, path: seq<nat>)
    requires HopPath(P, placed, path) && placed <= Elements(order) && Apart(path, order)
    ensures HopPath(P, Elements(order), path)
  {
    forall t | 0 <= t < |path| - 1
      ensures FirstLeft(P[path[t]], Elements(order)) == Some(path[t + 1])
    {
      assert FirstLeft(P[path[t]], placed) == Some(path[t + 1]);
      FirstStays(P[path[t]], placed, Elements(order), path[t + 1]);
    }
  }

  lemma AnyCounted(n: nat, done: seq<nat>, todo: seq<nat>, placed: set<nat>)
    requires done + todo == Counted(n) && todo != [] && forall p | p in done :: p in placed
    ensures todo[0] == |done| < n && forall i: nat | i < todo[0] :: i in placed
  {
    assert todo[0] == Counted(n)[|done|];
    forall i: nat | i < |done|
      ensures i in placed
    {
      assert done[i] == Counted(n)[i];
    }
  }

  /** The search goes on to the next item of the list that is missing. */
  lemma PathGoesOn(P: Preds, placed: set<nat>, path: seq<nat>, done: seq<nat>, todo: seq<nat>)
    requires Wf(P) && Acyclic(P) && WorksOn(P, placed, path, done, todo) && todo != [] && todo[0] !in placed
    ensures todo[0] < |P| && todo[0] !in path && |path| < |P|
    ensures WorksOn(P, placed, path + [todo[0]], [], P[todo[0]])
  {
    var c := todo[0];
    if path == [] {
      AnyCounted(|P|, done, todo, placed);
    } else {
      FirstIs(P[Last(path)], done, todo, placed);
      Hopped(P, placed, path);
      NoReturn(P, placed, path, c);
    }
    DistinctBelow(path + [c], |P|);
    assert [] + P[c] == P[c];
  }

  lemma NextOfList(P: Preds, placed: set<nat>, path: seq<nat>, done: seq<nat>, todo: seq<nat>)
    requires WorksOn(P, placed, path, done, todo) && todo != [] && todo[0] in placed
    ensures WorksOn(P, placed, path, done + [todo[0]], todo[1..])
  {
    assert done + [todo[0]] + todo[1..] == done + todo;
  }

  /** The list goes on with more items placed. */
  lemma ListStays(P: Preds, order: seq<nat>, more: seq<nat>, path: seq<nat>, done: seq<nat>, todo: seq<nat>)
    requires WorksOn(P, Elements(order), path, done, todo) && order <= more && Apart(path, more)
    ensures WorksOn(P, Elements(more), path, done, todo)
  {
    PrefixElements(order, more);
    if path != [] {
      PathStays(P, Elements(order), more, path);
    }
  }

  lemma PrefixElements(order: seq<nat>, more: seq<nat>)
    requires order <= more
    ensures Elements(order) <= Elements(more)
  {
    forall p | p in order
      ensures p in more
    {
      var i :| 0 <= i < |order| && order[i] == p;
      assert more[i] == p;
    }
  }

  /** All that the last item of the path waits for has been placed: it is the one picked. */
  lemma EndTaken(P: Preds, placed: set<nat>, order: seq<nat>, path: seq<nat>)
    requires InTurn(P, order) && HopPath(P, placed, path) && placed <= Elements(order) && Apart(path, order)
    requires forall p | p in P[Last(path)] :: p in order
    ensures InTurn(P, order + [Last(path)])
  {
    PathStays(P, placed, order, path);
    EndPicked(P, Elements(order), path);
    TurnTaken(P, order, Last(path));
  }

  /** The items that the next one waits for have been visited: it is placed, and the list goes on. */
  lemma OneVisited(P: Preds, order: seq<nat>, inner: seq<nat>, path: seq<nat>, done: seq<nat>, todo: seq<nat>)
    requires WorksOn(P, Elements(order), path, done, todo) && todo != [] && todo[0] < |P| && todo[0] !in path
    requires WorksOn(P, Elements(order), path + [todo[0]], [], P[todo[0]])
    requires VisitedWell(P, order, path + [todo[0]], P[todo[0]], inner)
    ensures var more := inner + [todo[0]];
            && order <= more && InTurn(P, more) && Apart(path, more)
            && WorksOn(P, Elements(more), path, done + [todo[0]], todo[1..])
  {
    var c := todo[0];
    var more := inner + [c];
    PrefixElements(order, inner);
    EndTaken(P, Elements(order), inner, path + [c]);
    ApartMore(path, c, inner);
    ListStays(P, order, more, path, done, todo);
    assert more[|inner|] == c;
    NextOfList(P, Elements(more), path, done, todo);
  }

  lemma AllVisited(P: Preds, order: seq<nat>, more: seq<nat>, path: seq<nat>, todo: seq<nat>, whole: seq<nat>)
    requires todo != [] && todo[0] in more && order <= more && VisitedWell(P, more, path, todo[1..], whole)
    ensures VisitedWell(P, order, path, todo, whole)
  {
    PrefixElements(more, whole);
    forall p | p in todo
      ensures p in whole
    {
      var i :| 0 <= i < |todo| && todo[i] == p;
      assert i > 0 ==> todo[1..][i - 1] == p;
    }
  }

  /** Visiting a list picks items in turn until all of the list are there, and none of the path. */
  lemma {:induction false} VisitsInTurn(P: Preds, order: seq<nat>, path: seq<nat>, done: seq<nat>, todo: seq<nat>,
                                        depth: nat)
    requires Wf(P) && Acyclic(P) && InTurn(P, order) && WorksOn(P, Elements(order), path, done, todo)
    requires |path| + depth >= |P| && Apart(path, order)
    ensures VisitedWell(P, order, path, todo, Visited(P, order, todo, depth))
    decreases depth, |todo|
  {
    if todo != [] {
      var c, rest, more := todo[0], todo[1..], order;
      if c in order {
        NextOfList(P, Elements(order), path, done, todo);
      } else {
        PathGoesOn(P, Elements(order), path, done, todo);
        VisitsInTurn(P, order, path + [c], [], P[c], depth - 1);
        OneVisited(P, order, Visited(P, order, P[c], depth - 1), path, done, todo);
        more := Visited(P, order, P[c], depth - 1) + [c];
      }
      VisitsInTurn(P, more, path, done + [c], rest, depth);
      AllVisited(P, order, more, path, todo, Visited(P, more, rest, depth));
    }
  }

  /** What visiting a list comes to: more items picked in turn, all those of the list, none of the path. */
  ghost predicate VisitedWell(P: Preds, order: seq<nat>, path: seq<nat>, todo: seq<nat>, whole: seq<nat>) {
    order <= whole && InTurn(P, whole) && Apart(path, whole) && forall p | p in todo :: p in whole
  }

  lemma ApartMore(path: seq<nat>, c: nat, order: seq<nat>)
    requires Apart(path + [c], order) && c !in path
    ensures Apart(path, order + [c])
  {
    assert forall p | p in path :: p in path + [c];
  }

  /** The one order in which `tsort` picks the items is the depth-first one. */
  lemma DepthFirst(P: Preds, order: seq<nat>)
    requires Wf(P) && Acyclic(P) && InTurn(P, order) && |order| == |P|
    ensures order == Visited(P, [], Counted(|P|), |P|)
  {
    var all := Counted(|P|);
    var whole := Visited(P, [], all, |P|);
    assert [] + all == all;
    VisitsInTurn(P, [], [], [], all, |P|);
    InTurnRespects(P, whole);
    forall i: nat | i < |P|
      ensures i in whole
    {
      assert all[i] == i;
    }
    AllThere(whole, |P|);
    InTurnIsUnique(P, order, whole);
  }

  // When only the first item waits for others.

  ghost predicate OnlyFirstWaits(P: Preds) {
    P != [] && 0 !in P[0] && forall i | 0 < i < |P| :: P[i] == []
  }

  /** Items that wait for nothing are visited where they stand in the list. */
  lemma {:induction false} VisitsPlain(P: Preds, order: seq<nat>, todo: seq<nat>, depth: nat)
    requires depth > 0 && Distinct(todo)
    requires forall k | 0 <= k < |todo| :: todo[k] < |P| && P[todo[k]] == [] && todo[k] !in order
    ensures Visited(P, order, todo, depth) == order + todo
    decreases |todo|
  {
    if todo != [] {
      assert Visited(P, order, P[todo[0]], depth - 1) == order;
      VisitsPlain(P, order + [todo[0]], todo[1..], depth);
      assert order + [todo[0]] + todo[1..] == order + todo;
    } else {
      assert order + [] == order;
    }
  }

  /** The items from `n` on that are not there yet. */
  function Others(order: seq<nat>, n: nat, end: nat): (r: seq<nat>)
    ensures forall p | p in r :: n <= p < end && p !in order
    ensures forall i, j | 0 <= i < j < |r| :: r[i] < r[j]
    decreases end - n
  {
    if n >= end then []
    else
      var rest := Others(order, n + 1, end);
      assert forall j | 0 <= j < |rest| :: rest[j] in rest;
      if n in order then rest else [n] + rest
  }

  lemma {:induction false} VisitsRest(P: Preds, order: seq<nat>, n: nat, depth: nat)
    requires depth > 0 && 0 < n <= |P| && 0 in order && forall i | 0 < i < |P| :: P[i] == []
    ensures Visited(P, order, Counted(|P|)[n..], depth) == order + Others(order, n, |P|)
    decreases |P| - n
  {
    var todo := Counted(|P|)[n..];
    if n == |P| {
      assert order + [] == order;
    } else {
      assert todo[0] == n && todo[1..] == Counted(|P|)[n + 1..];
      if n in order {
        VisitsRest(P, order, n + 1, depth);
      } else {
        assert Visited(P, order, P[n], depth - 1) == order;
        VisitsRest(P, order + [n], n + 1, depth);
        OthersOf(order, n, n + 1, |P|);
        assert order + [n] + Others(order, n + 1, |P|) == order + ([n] + Others(order, n + 1, |P|));
      }
    }
  }

  lemma {:induction false} OthersOf(order: seq<nat>, p: nat, n: nat, end: nat)
    requires p < n
    ensures Others(order + [p], n, end) == Others(order, n, end)
    decreases end - n
  {
    if n < end {
      OthersOf(order, p, n + 1, end);
    }
  }

  lemma OneVisits(P: Preds)
    requires Wf(P) && OnlyFirstWaits(P)
    ensures Visited(P, [], Counted(|P|), |P|) == P[0] + [0] + Others(P[0] + [0], 1, |P|)
  {
    var all := Counted(|P|);
    assert all[0] == 0 && all[1..] == Counted(|P|)[1..];
    FirstsVisited(P);
    VisitsRest(P, P[0] + [0], 1, |P|);
  }

  lemma NotTheFirst(P: Preds)
    requires Wf(P) && OnlyFirstWaits(P)
    ensures forall k | 0 <= k < |P[0]| :: 0 < P[0][k] < |P| && P[P[0][k]] == []
  {
    forall k | 0 <= k < |P[0]|
      ensures 0 < P[0][k] < |P|
    {
      assert P[0][k] in P[0];
    }
  }

  lemma FirstsVisited(P: Preds)
    requires Wf(P) && OnlyFirstWaits(P)
    ensures Visited(P, [], P[0], |P| - 1) == P[0]
  {
    NotTheFirst(P);
    if |P| > 1 {
      VisitsPlain(P, [], P[0], |P| - 1);
      assert [] + P[0] == P[0];
    } else {
      DistinctBelow(P[0], 0);
    }
  }

  /** The items that the first waits for come first, as they are listed; then the first; then the others in
      crude order. */
  lemma OneWaits(P: Preds, order: seq<nat>)
    requires Wf(P) && Acyclic(P) && InTurn(P, order) && |order| == |P| && OnlyFirstWaits(P)
    ensures |P[0]| < |order| && order[..|P[0]|] == P[0] && order[|P[0]|] == 0
    ensures forall i, j | |P[0]| < i < j < |order| :: order[i] < order[j]
  {
    DepthFirst(P, order);
    OneVisits(P);
    var rest := Others(P[0] + [0], 1, |P|);
    Ascends(P[0], rest, order);
  }

  lemma Ascends(a: seq<nat>, rest: seq<nat>, order: seq<nat>)
    requires order == a + [0] + rest && forall i, j | 0 <= i < j < |rest| :: rest[i] < rest[j]
    ensures |a| < |order| && order[..|a|] == a && order[|a|] == 0
    ensures forall i, j | |a| < i < j < |order| :: order[i] < order[j]
  {
    assert forall k | 0 <= k < |rest| :: order[|a| + 1 + k] == rest[k];
    forall i, j | |a| < i < j < |order|
      ensures order[i] < order[j]
    {
      assert order[|a| + 1 + (i - |a| - 1)] == rest[i - |a| - 1];
      assert order[|a| + 1 + (j - |a| - 1)] == rest[j - |a| - 1];
    }
  }
}
