/** In which order `prepare` files the items that an item waits for. */
module HookFiling {
  import opened Sequences
  import opened Hooks
  import opened HookOrder
  import opened HookSort
  import opened HookDepth

  /** When a name is looked at: in the round of some item, among its predecessors or after those among
      its successors, at a place in that list. */
  datatype Time = Time(round: nat, after: bool, place: nat)

  predicate Sooner(t: Time, t': Time) {
    || t.round < t'.round
    || (t.round == t'.round && !t.after && t'.after)
    || (t.round == t'.round && t.after == t'.after && t.place < t'.place)
  }

  /** The name looked at then asks that item `n` wait for item `k`. */
  ghost predicate Asks<S>(items: seq<HookLink<S>>, t: Time, k: nat, n: nat) {
    && k < |items| && n < |items|
    && if t.after
       then k == t.round && t.place < |items[k].aszSuccessors|
            && FirstNamed(items, items[k].aszSuccessors[t.place], n)
       else n == t.round && t.place < |items[n].aszPredecessors|
            && FirstNamed(items, items[n].aszPredecessors[t.place], k)
  }

  /** The item is the first of that name. */
  ghost predicate FirstNamed<S>(items: seq<HookLink<S>>, name: string, k: nat) {
    k < |items| && items[k].szName == name && forall l | 0 <= l < k :: items[l].szName != name
  }

  /** It has been asked for by then. */
  ghost predicate Asked<S>(items: seq<HookLink<S>>, end: Time, k: nat, n: nat) {
    exists t :: Asks(items, t, k, n) && Sooner(t, end)
  }

  /** Each was asked for before those after it. */
  ghost predicate InOrder<S>(items: seq<HookLink<S>>, preds: seq<nat>, n: nat) {
    forall a, b, t {:trigger preds[a], Asks(items, t, preds[b], n)} |
      0 <= a < b < |preds| && Asks(items, t, preds[b], n) :: Asked(items, t, preds[a], n)
  }

  /** By then just what has been asked for is filed, and in that order. */
  ghost predicate FiledUpTo<S>(items: seq<HookLink<S>>, P: Preds, end: Time) {
    && |P| == |items|
    && forall n {:trigger P[n]} | 0 <= n < |P| ::
         && InOrder(items, P[n], n)
         && forall k: nat {:trigger Asked(items, end, k, n)} :: k in P[n] <==> Asked(items, end, k, n)
  }

  lemma NamedFirst<S>(items: seq<HookLink<S>>, name: string, k: nat)
    ensures FirstNamed(items, name, k) <==> Named(items, name, 0) == Some(k)
  {
  }

  /** Nothing that is asked for comes from `end` on and before `end'`. */
  ghost predicate NothingBetween<S>(items: seq<HookLink<S>>, end: Time, end': Time) {
    && (forall t | Sooner(t, end) :: Sooner(t, end'))
    && forall t, k, n {:trigger Asks(items, t, k, n)} | Asks(items, t, k, n) && Sooner(t, end') :: Sooner(t, end)
  }

  lemma NothingMore<S>(items: seq<HookLink<S>>, P: Preds, end: Time, end': Time)
    requires FiledUpTo(items, P, end) && NothingBetween(items, end, end')
    ensures FiledUpTo(items, P, end')
  {
    forall n, k: nat | 0 <= n < |P|
      ensures k in P[n] <==> Asked(items, end', k, n)
    {
      assert Asked(items, end, k, n) <==> Asked(items, end', k, n);
    }
  }

  /** Between the two there is just the time `end`, at which item `n` is asked to wait for item `k`. */
  ghost predicate JustOne<S>(items: seq<HookLink<S>>, end: Time, end': Time, k: nat, n: nat) {
    && Asks(items, end, k, n)
    && (forall t :: Sooner(t, end') <==> Sooner(t, end) || t == end)
    && forall k', n' {:trigger Asks(items, end, k', n')} | Asks(items, end, k', n') :: k' == k && n' == n
  }

  lemma AskedThen<S>(items: seq<HookLink<S>>, end: Time, end': Time, k: nat, n: nat, p: nat, i: nat)
    requires JustOne(items, end, end', k, n)
    ensures Asked(items, end', p, i) <==> Asked(items, end, p, i) || (p == k && i == n)
  {
  }

  lemma OrderedMore<S>(items: seq<HookLink<S>>, P: Preds, end: Time, k: nat, n: nat)
    requires FiledUpTo(items, P, end) && n < |P| && k !in P[n]
    ensures InOrder(items, P[n] + [k], n)
  {
    var preds := P[n] + [k];
    assert !Asked(items, end, k, n);
    forall a, b, t | 0 <= a < b < |preds| && Asks(items, t, preds[b], n)
      ensures Asked(items, t, preds[a], n)
    {
      if b < |P[n]| {
        assert Asks(items, t, P[n][b], n) && preds[a] == P[n][a];
      } else {
        assert P[n][a] in P[n] && Asked(items, end, P[n][a], n);
        var u :| Asks(items, u, P[n][a], n) && Sooner(u, end);
        assert !Sooner(t, end);
        assert Sooner(u, t);
      }
    }
  }

  lemma OneMoreFiled<S>(items: seq<HookLink<S>>, P: Preds, end: Time, end': Time, k: nat, n: nat)
    requires FiledUpTo(items, P, end) && n < |P| && JustOne(items, end, end', k, n)
    ensures FiledUpTo(items, WithPred(P, n, k), end')
  {
    var Q := WithPred(P, n, k);
    if k !in P[n] {
      OrderedMore(items, P, end, k, n);
    }
    forall i | 0 <= i < |Q|
      ensures InOrder(items, Q[i], i)
    {
      assert i != n ==> Q[i] == P[i];
    }
    forall i, p: nat | 0 <= i < |Q|
      ensures p in Q[i] <==> Asked(items, end', p, i)
    {
      AskedThen(items, end, end', k, n, p, i);
      assert p in P[i] <==> Asked(items, end, p, i);
    }
  }

  /** One name of the predecessors. */
  lemma PreTime<S>(items: seq<HookLink<S>>, n: nat, i: nat)
    requires n < |items| && i < |items[n].aszPredecessors|
    ensures var found := Named(items, items[n].aszPredecessors[i], 0);
            var now, next := Time(n, false, i), Time(n, false, i + 1);
            if found.Some? then JustOne(items, now, next, found.value, n) else NothingBetween(items, now, next)
  {
    var name, now := items[n].aszPredecessors[i], Time(n, false, i);
    forall k: nat, n': nat | Asks(items, now, k, n')
      ensures n' == n && Named(items, name, 0) == Some(k)
    {
      NamedFirst(items, name, k);
    }
    var found := Named(items, name, 0);
    if found.Some? {
      NamedFirst(items, name, found.value);
    }
  }

  /** One name of the successors. */
  lemma SuccTime<S>(items: seq<HookLink<S>>, n: nat, i: nat)
    requires n < |items| && i < |items[n].aszSuccessors|
    ensures var found := Named(items, items[n].aszSuccessors[i], 0);
            var now, next := Time(n, true, i), Time(n, true, i + 1);
            if found.Some? then JustOne(items, now, next, n, found.value) else NothingBetween(items, now, next)
  {
    var name, now := items[n].aszSuccessors[i], Time(n, true, i);
    forall k: nat, n': nat | Asks(items, now, k, n')
      ensures k == n && Named(items, name, 0) == Some(n')
    {
      NamedFirst(items, name, n');
    }
    var found := Named(items, name, 0);
    if found.Some? {
      NamedFirst(items, name, found.value);
    }
  }

  lemma {:induction false} PreFiled<S>(items: seq<HookLink<S>>, P: Preds, n: nat, i: nat)
    requires FiledUpTo(items, P, Time(n, false, i)) && n < |items| && i <= |items[n].aszPredecessors|
    ensures FiledUpTo(items, AddPre(items, P, n, items[n].aszPredecessors[i..]),
                      Time(n, false, |items[n].aszPredecessors|))
    decreases |items[n].aszPredecessors| - i
  {
    var names := items[n].aszPredecessors;
    if i < |names| {
      assert names[i..][0] == names[i] && names[i..][1..] == names[i + 1..];
      PreTime(items, n, i);
      var found := Named(items, names[i], 0);
      var Q := if found.Some? then WithPred(P, n, found.value) else P;
      if found.Some? {
        OneMoreFiled(items, P, Time(n, false, i), Time(n, false, i + 1), found.value, n);
      } else {
        NothingMore(items, P, Time(n, false, i), Time(n, false, i + 1));
      }
      PreFiled(items, Q, n, i + 1);
    }
  }

  lemma {:induction false} SuccFiled<S>(items: seq<HookLink<S>>, P: Preds, n: nat, i: nat)
    requires FiledUpTo(items, P, Time(n, true, i)) && n < |items| && i <= |items[n].aszSuccessors|
    ensures FiledUpTo(items, AddSucc(items, P, n, items[n].aszSuccessors[i..]),
                      Time(n, true, |items[n].aszSuccessors|))
    decreases |items[n].aszSuccessors| - i
  {
    var names := items[n].aszSuccessors;
    if i < |names| {
      assert names[i..][0] == names[i] && names[i..][1..] == names[i + 1..];
      SuccTime(items, n, i);
      var found := Named(items, names[i], 0);
      var Q := if found.Some? then WithPred(P, found.value, n) else P;
      if found.Some? {
        OneMoreFiled(items, P, Time(n, true, i), Time(n, true, i + 1), n, found.value);
      } else {
        NothingMore(items, P, Time(n, true, i), Time(n, true, i + 1));
      }
      SuccFiled(items, Q, n, i + 1);
    }
  }

  /** One round. */
  lemma ItemFiled<S>(items: seq<HookLink<S>>, P: Preds, n: nat)
    requires FiledUpTo(items, P, Time(n, false, 0)) && n < |items|
    ensures FiledUpTo(items, AddItem(items, P, n), Time(n + 1, false, 0))
  {
    var pre, succ := items[n].aszPredecessors, items[n].aszSuccessors;
    assert pre[0..] == pre && succ[0..] == succ;
    PreFiled(items, P, n, 0);
    NothingMore(items, AddPre(items, P, n, pre), Time(n, false, |pre|), Time(n, true, 0));
    SuccFiled(items, AddPre(items, P, n, pre), n, 0);
    NothingMore(items, AddItem(items, P, n), Time(n, true, |succ|), Time(n + 1, false, 0));
  }

  lemma {:induction false} RestFiled<S>(items: seq<HookLink<S>>, P: Preds, n: nat)
    requires FiledUpTo(items, P, Time(n, false, 0)) && n <= |items|
    ensures FiledUpTo(items, AddFrom(items, P, n), Time(|items|, false, 0))
    decreases |items| - n
  {
    if n < |items| {
      ItemFiled(items, P, n);
      RestFiled(items, AddItem(items, P, n), n + 1);
    }
  }

  /** What an item waits for is filed in the order in which it is asked for: round after round in crude order,
      in each round the names of the predecessors and then those of the successors, in their order. */
  lemma FiledInOrder<S>(items: seq<HookLink<S>>, n: nat)
    requires n < |items|
    ensures InOrder(items, PredLists(items)[n], n)
    ensures forall k: nat :: k in PredLists(items)[n] <==> exists t :: Asks(items, t, k, n)
  {
    var none := seq(|items|, i requires 0 <= i < |items| => []);
    assert FiledUpTo(items, none, Time(0, false, 0));
    RestFiled(items, none, 0);
    forall k: nat
      ensures k in PredLists(items)[n] <==> exists t :: Asks(items, t, k, n)
    {
      assert k in PredLists(items)[n] <==> Asked(items, Time(|items|, false, 0), k, n);
    }
  }

  // What it means for the order of the functions.

  /** The first function in crude order names some to come before it; nothing else is asked for. */
  ghost predicate OnlyFirstAsks<S>(items: seq<HookLink<S>>) {
    && items != [] && items[0].aszSuccessors == []
    && forall i | 0 < i < |items| :: items[i].aszPredecessors == [] && items[i].aszSuccessors == []
  }

  lemma SomeMember(s: seq<nat>)
    requires s != []
    ensures exists k: nat :: k in s
  {
    assert s[0] in s;
  }

  lemma FirstAlone<S>(items: seq<HookLink<S>>)
    requires OnlyFirstAsks(items) && Acyclic(PredLists(items))
    ensures OnlyFirstWaits(PredLists(items))
  {
    var P := PredLists(items);
    forall i | 0 < i < |P|
      ensures P[i] == []
    {
      FiledInOrder(items, i);
      assert forall t, k: nat :: !Asks(items, t, k, i);
      if P[i] != [] {
        SomeMember(P[i]);
        assert false;
      }
    }
    assert 0 in P[0] ==> IsCycle(P, [0]);
  }

  /** The first function gives, as the `i`th of its predecessors, a name that is first that of item `k`. */
  ghost predicate NamedAt<S>(items: seq<HookLink<S>>, i: int, k: nat) {
    && items != [] && 0 <= i < |items[0].aszPredecessors| && FirstNamed(items, items[0].aszPredecessors[i], k)
  }

  lemma NamedAsks<S>(items: seq<HookLink<S>>, k: nat)
    requires OnlyFirstAsks(items)
    ensures k in PredLists(items)[0] <==> exists i :: NamedAt(items, i, k)
  {
    FiledInOrder(items, 0);
    if t :| Asks(items, t, k, 0) {
      assert NamedAt(items, t.place, k);
    }
    if i :| NamedAt(items, i, k) {
      assert Asks(items, Time(0, false, i), k, 0);
    }
  }

  /** Whenever the first function names one of these items, it has named those before it already. */
  ghost predicate AsNamed<S>(items: seq<HookLink<S>>, xs: seq<nat>) {
    forall a, b, i {:trigger xs[a], NamedAt(items, i, xs[b])} | 0 <= a < b < |xs| && NamedAt(items, i, xs[b]) ::
      NamedBefore(items, i, xs[a])
  }

  ghost predicate NamedBefore<S>(items: seq<HookLink<S>>, i: int, k: nat) {
    exists i' :: i' < i && NamedAt(items, i', k)
  }

  lemma FiledAsNamed<S>(items: seq<HookLink<S>>)
    requires OnlyFirstAsks(items)
    ensures AsNamed(items, PredLists(items)[0])
  {
    var preds := PredLists(items)[0];
    forall a: int, b: int, i: int | 0 <= a < b < |preds| && NamedAt(items, i, preds[b])
      ensures NamedBefore(items, i, preds[a])
    {
      var i' := NamedSooner(items, a, b, i);
    }
  }

  lemma NamedSooner<S>(items: seq<HookLink<S>>, a: nat, b: nat, i: int) returns (i': int)
    requires OnlyFirstAsks(items) && a < b < |PredLists(items)[0]| && NamedAt(items, i, PredLists(items)[0][b])
    ensures i' < i && NamedAt(items, i', PredLists(items)[0][a])
  {
    FiledInOrder(items, 0);
    var preds := PredLists(items)[0];
    assert Asks(items, Time(0, false, i), preds[b], 0);
    assert Asked(items, Time(0, false, i), preds[a], 0);
    var t :| Asks(items, t, preds[a], 0) && Sooner(t, Time(0, false, i));
    i' := t.place;
  }

  /** Then the functions that it names come first, in the order in which it first names them; then the function
      itself; then the others in crude order. */
  lemma OneAsks<S>(pItems: seq<HookLink<S>>, pNew: seq<HookLink<S>>, order: seq<nat>) returns (m: nat)
    requires SortedBy(pItems, pNew, order) && OnlyFirstAsks(pItems)
    ensures m < |pNew| && order[m] == 0 && pNew[m] == pItems[0]
    ensures forall k: nat :: k in order[..m] <==> exists i :: NamedAt(pItems, i, k)
    ensures AsNamed(pItems, order[..m])
    ensures forall i, j | m < i < j < |order| :: order[i] < order[j]
  {
    PredListsIs(pItems, 0, 0);
    SortsIffAcyclic(PredLists(pItems));
    FirstAlone(pItems);
    OneWaits(PredLists(pItems), order);
    m := |PredLists(pItems)[0]|;
    forall k: nat
      ensures k in order[..m] <==> exists i :: NamedAt(pItems, i, k)
    {
      NamedAsks(pItems, k);
    }
    FiledAsNamed(pItems);
  }
}
