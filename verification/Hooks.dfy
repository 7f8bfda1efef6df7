/** Hook registration and the hook runners of `apr_hooks.h` and `apr_optional_hooks.h`. */
module Hooks {
  import opened Sequences

  type Ret = int

  /** A hook function: it is given the state of everything it can reach, its arguments included,
      and leaves a new state and a return value. */
  type HookFn<!S> = S -> (S, Ret)

  /** One registered function. */
  datatype HookLink<!S> = HookLink(pFunc: HookFn<S>, szName: string, aszPredecessors: seq<string>,
                                   aszSuccessors: seq<string>, nOrder: int)

  /** What a runner did: the state it left, what it returned, and the state in which it called each
      of the functions it called. */
  datatype Result<S> = Result(end: S, rv: Ret, trace: seq<S>)

  // What a runner should do.

  function Returned<S>(chain: seq<HookLink<S>>, trace: seq<S>, i: nat): Ret
    requires i < |trace| <= |chain|
  {
    chain[i].pFunc(trace[i]).1
  }

  function Left<S>(chain: seq<HookLink<S>>, trace: seq<S>, i: nat): S
    requires i < |trace| <= |chain|
  {
    chain[i].pFunc(trace[i]).0
  }

  /** The functions are called in order, each in the state the one before it left. */
  ghost predicate Threaded<S>(chain: seq<HookLink<S>>, s: S, trace: seq<S>, end: S) {
    && |trace| <= |chain|
    && (trace != [] ==> trace[0] == s)
    && (forall i {:trigger Left(chain, trace, i)} | 0 <= i < |trace| - 1 :: trace[i + 1] == Left(chain, trace, i))
    && end == if trace == [] then s else Left(chain, trace, |trace| - 1)
  }

  /** Every function called so far has returned something in `skip`. */
  ghost predicate Passed<S>(chain: seq<HookLink<S>>, trace: seq<S>, skip: set<Ret>) {
    |trace| <= |chain|
    && forall i {:trigger Returned(chain, trace, i)} | 0 <= i < |trace| :: Returned(chain, trace, i) in skip
  }

  /** The chain is run until a function returns something outside `skip`: that value is the result,
      and nothing is called after it.  When there is none, all were called and `default` is it. */
  ghost predicate Ran<S>(chain: seq<HookLink<S>>, s: S, skip: set<Ret>, default: Ret, r: Result<S>) {
    && Threaded(chain, s, r.trace, r.end)
    && if Passed(chain, r.trace, skip) then |r.trace| == |chain| && r.rv == default
       else Stopped(chain, r, skip)
  }

  /** The last function called, and no other, returned something outside `skip`. */
  ghost predicate Stopped<S>(chain: seq<HookLink<S>>, r: Result<S>, skip: set<Ret>) {
    var n := |r.trace| - 1;
    && 0 <= n < |chain| && r.rv !in skip && r.rv == Returned(chain, r.trace, n)
    && forall i {:trigger Returned(chain, r.trace, i)} | 0 <= i < n :: Returned(chain, r.trace, i) in skip
  }

  /** One more call. */
  lemma Called<S>(chain: seq<HookLink<S>>, s: S, trace: seq<S>, end: S)
    requires Threaded(chain, s, trace, end) && |trace| < |chain|
    ensures Threaded(chain, s, trace + [end], chain[|trace|].pFunc(end).0)
    ensures forall i | 0 <= i < |trace| :: Returned(chain, trace + [end], i) == Returned(chain, trace, i)
    ensures Returned(chain, trace + [end], |trace|) == chain[|trace|].pFunc(end).1
  {
    var longer := trace + [end];
    forall i | 0 <= i < |longer| - 1
      ensures longer[i + 1] == Left(chain, longer, i)
    {
      assert Left(chain, longer, i) == Left(chain, trace, i);
    }
  }

  /** One more call, after which the run goes on or stops. */
  lemma CalledNext<S>(chain: seq<HookLink<S>>, s: S, trace: seq<S>, end: S, skip: set<Ret>)
    requires Threaded(chain, s, trace, end) && |trace| < |chain| && Passed(chain, trace, skip)
    ensures var (end', rv) := chain[|trace|].pFunc(end);
            && Threaded(chain, s, trace + [end], end')
            && if rv in skip then Passed(chain, trace + [end], skip)
               else !Passed(chain, trace + [end], skip) && Stopped(chain, Result(end', rv, trace + [end]), skip)
  {
    Called(chain, s, trace, end);
    assert Returned(chain, trace + [end], |trace|) == chain[|trace|].pFunc(end).1;
  }

  /** There is only one way to run a chain. */
  lemma RanIsUnique<S>(chain: seq<HookLink<S>>, s: S, skip: set<Ret>, default: Ret, r: Result<S>, r': Result<S>)
    requires Ran(chain, s, skip, default, r) && Ran(chain, s, skip, default, r')
    ensures r == r'
  {
    if |r.trace| <= |r'.trace| {
      SameRun(chain, s, skip, default, r, r');
    } else {
      SameRun(chain, s, skip, default, r', r);
    }
  }

  lemma SameRun<S>(chain: seq<HookLink<S>>, s: S, skip: set<Ret>, default: Ret, r: Result<S>, r': Result<S>)
    requires Ran(chain, s, skip, default, r) && Ran(chain, s, skip, default, r') && |r.trace| <= |r'.trace|
    ensures r == r'
  {
    SamePrefix(chain, s, r.trace, r.end, r'.trace, r'.end, |r.trace|);
    var n := |r.trace|;
    assert forall i | 0 <= i < n :: Returned(chain, r.trace, i) == Returned(chain, r'.trace, i);
    if Passed(chain, r.trace, skip) {
      assert r.trace == r'.trace;
      assert Passed(chain, r'.trace, skip);
    } else {
      assert Returned(chain, r'.trace, n - 1) !in skip;
      assert |r'.trace| == n;
      assert r.trace == r'.trace;
    }
  }

  lemma {:induction false} SamePrefix<S>(chain: seq<HookLink<S>>, s: S, t: seq<S>, end: S, t': seq<S>, end': S, n: nat)
    requires Threaded(chain, s, t, end) && Threaded(chain, s, t', end') && n <= |t| <= |t'|
    ensures forall i | 0 <= i < n :: t[i] == t'[i]
    decreases n
  {
    if n > 1 {
      SamePrefix(chain, s, t, end, t', end', n - 1);
      assert t[n - 1] == Left(chain, t, n - 2) && t'[n - 1] == Left(chain, t', n - 2);
    }
  }

  // The runners.  `_hooks.link_name` is a null pointer until the first function is registered.

  datatype Option<+T> = None | Some(value: T)

  function Chain<S>(link: Option<seq<HookLink<S>>>): seq<HookLink<S>> {
    if link.Some? then link.value else []
  }

  /** `APR_IMPLEMENT_EXTERNAL_HOOK_RUN_ALL` */
  method RunAllExternal<S>(link: Option<seq<HookLink<S>>>, s: S, ok: Ret, decline: Ret)
    returns (end: S, rv: Ret, trace: seq<S>)
    ensures Ran(Chain(link), s, {ok, decline}, ok, Result(end, rv, trace))
  {
    end, rv, trace := s, ok, [];
    if link.Some? {
      var pHook := link.value;
      var n := 0;
      while n < |pHook|
        invariant 0 <= n == |trace| <= |pHook| && rv == ok
        invariant Threaded(pHook, s, trace, end)
        invariant Passed(pHook, trace, {ok, decline})
      {
        CalledNext(pHook, s, trace, end, {ok, decline});
        trace := trace + [end];
        var result := pHook[n].pFunc(end);
        end, rv := result.0, result.1;
        if rv != ok && rv != decline {
          break;
        }
        rv := ok;
        n := n + 1;
      }
    }
  }

  /** `APR_IMPLEMENT_OPTIONAL_HOOK_RUN_ALL` */
  method RunAllOptional<S>(link: Option<seq<HookLink<S>>>, s: S, ok: Ret, decline: Ret)
    returns (end: S, rv: Ret, trace: seq<S>)
    ensures Ran(Chain(link), s, {ok, decline}, ok, Result(end, rv, trace))
  {
    end, trace := s, [];
    if link.None? {
      return end, ok, trace;
    }
    var pHook := link.value;
    for n := 0 to |pHook|
      invariant n == |trace| && Threaded(pHook, s, trace, end)
      invariant Passed(pHook, trace, {ok, decline})
    {
      CalledNext(pHook, s, trace, end, {ok, decline});
      trace := trace + [end];
      var result := pHook[n].pFunc(end);
      end, rv := result.0, result.1;
      if rv != ok && rv != decline {
        return end, rv, trace;
      }
    }
    return end, ok, trace;
  }

  /** `APR_IMPLEMENT_EXTERNAL_HOOK_RUN_FIRST` */
  method RunFirst<S>(link: Option<seq<HookLink<S>>>, s: S, decline: Ret)
    returns (end: S, rv: Ret, trace: seq<S>)
    ensures Ran(Chain(link), s, {decline}, decline, Result(end, rv, trace))
  {
    end, rv, trace := s, decline, [];
    if link.Some? {
      var pHook := link.value;
      var n := 0;
      while n < |pHook|
        invariant 0 <= n == |trace| <= |pHook| && rv == decline
        invariant Threaded(pHook, s, trace, end)
        invariant Passed(pHook, trace, {decline})
      {
        CalledNext(pHook, s, trace, end, {decline});
        trace := trace + [end];
        var result := pHook[n].pFunc(end);
        end, rv := result.0, result.1;
        if rv != decline {
          break;
        }
        n := n + 1;
      }
    }
  }

  /** `APR_IMPLEMENT_EXTERNAL_HOOK_VOID`: every function is called. */
  method RunVoid<S>(link: Option<seq<HookLink<S>>>, s: S) returns (end: S, trace: seq<S>)
    ensures Threaded(Chain(link), s, trace, end) && |trace| == |Chain(link)|
  {
    end, trace := s, [];
    if link.Some? {
      var pHook := link.value;
      for n := 0 to |pHook|
        invariant n == |trace| && Threaded(pHook, s, trace, end)
      {
        Called(pHook, s, trace, end);
        trace := trace + [end];
        end := pHook[n].pFunc(end).0;
      }
    }
  }

  // Laws of runs.

  /** What the chain `X + Y` does, from what `X` does and what `Y` does after it. */
  function Then<S>(x: Result<S>, y: Result<S>, default: Ret): Result<S> {
    if x.rv != default then x else Result(y.end, y.rv, x.trace + y.trace)
  }

  lemma ThreadedPrefix<S>(X: seq<HookLink<S>>, Y: seq<HookLink<S>>, s: S, t: seq<S>, end: S)
    requires Threaded(X, s, t, end)
    ensures Threaded(X + Y, s, t, end)
    ensures forall i | 0 <= i < |t| :: Returned(X + Y, t, i) == Returned(X, t, i)
  {
    forall i | 0 <= i < |t|
      ensures Left(X + Y, t, i) == Left(X, t, i)
    {
      assert (X + Y)[i] == X[i];
    }
  }

  lemma ThreadedConcat<S>(X: seq<HookLink<S>>, Y: seq<HookLink<S>>, s: S, t: seq<S>, mid: S, u: seq<S>, end: S)
    requires Threaded(X, s, t, mid) && Threaded(Y, mid, u, end) && |t| == |X|
    ensures Threaded(X + Y, s, t + u, end)
    ensures forall i | 0 <= i < |t| :: Returned(X + Y, t + u, i) == Returned(X, t, i)
    ensures forall i | |t| <= i < |t + u| :: Returned(X + Y, t + u, i) == Returned(Y, u, i - |t|)
  {
    var c, v, k := X + Y, t + u, |t|;
    forall i | 0 <= i < |v|
      ensures Left(c, v, i) == if i < k then Left(X, t, i) else Left(Y, u, i - k)
    {
      assert c[i] == if i < k then X[i] else Y[i - k];
    }
    forall i | 0 <= i < |v| - 1
      ensures v[i + 1] == Left(c, v, i)
    {
      if i + 1 < k {
        assert t[i + 1] == Left(X, t, i);
      } else if i + 1 > k {
        assert u[i + 1 - k] == Left(Y, u, i - k);
      }
    }
  }

  /** Running `X + Y` is running `X`, and then `Y` just when `X` came to the default. */
  lemma RunConcat<S>(X: seq<HookLink<S>>, Y: seq<HookLink<S>>, s: S, skip: set<Ret>, default: Ret,
                     x: Result<S>, y: Result<S>)
    requires default in skip && Ran(X, s, skip, default, x) && Ran(Y, x.end, skip, default, y)
    ensures Ran(X + Y, s, skip, default, Then(x, y, default))
  {
    var k := |x.trace|;
    if x.rv != default {
      ThreadedPrefix(X, Y, s, x.trace, x.end);
      assert Returned(X + Y, x.trace, k - 1) !in skip;
    } else {
      assert Passed(X, x.trace, skip);
      ThreadedConcat(X, Y, s, x.trace, x.end, y.trace, y.end);
      ConcatPassed(X, Y, x.trace, y, skip);
    }
  }

  lemma ConcatPassed<S>(X: seq<HookLink<S>>, Y: seq<HookLink<S>>, t: seq<S>, y: Result<S>, skip: set<Ret>)
    requires Passed(X, t, skip) && |t| == |X| && |y.trace| <= |Y|
    requires forall i | 0 <= i < |t| :: Returned(X + Y, t + y.trace, i) == Returned(X, t, i)
    requires forall i | |t| <= i < |t + y.trace| :: Returned(X + Y, t + y.trace, i) == Returned(Y, y.trace, i - |t|)
    ensures Passed(Y, y.trace, skip) <==> Passed(X + Y, t + y.trace, skip)
    ensures Stopped(Y, y, skip) ==> Stopped(X + Y, y.(trace := t + y.trace), skip)
  {
    if Passed(X + Y, t + y.trace, skip) {
      forall i | 0 <= i < |y.trace|
        ensures Returned(Y, y.trace, i) in skip
      {
        assert Returned(X + Y, t + y.trace, |t| + i) in skip;
      }
    }
  }

  /** The two RUN_ALL loops end in the same state, having made the same calls, with the same value;
      and RUN_FIRST does too when `ok` and `decline` are the same. */
  lemma RunnersAgree<S>(link: Option<seq<HookLink<S>>>, s: S, ok: Ret, decline: Ret,
                        external: Result<S>, optional: Result<S>, first: Result<S>)
    requires Ran(Chain(link), s, {ok, decline}, ok, external)
    requires Ran(Chain(link), s, {ok, decline}, ok, optional)
    requires Ran(Chain(link), s, {decline}, decline, first)
    ensures external == optional
    ensures ok == decline ==> first == external
  {
    RanIsUnique(Chain(link), s, {ok, decline}, ok, external, optional);
    if ok == decline {
      assert {ok, decline} == {decline};
      RanIsUnique(Chain(link), s, {decline}, decline, first, external);
    }
  }

  /** Every chain can be run, one way or the other. */
  lemma {:induction false} SomeRun<S>(chain: seq<HookLink<S>>, s: S, skip: set<Ret>, default: Ret)
    returns (r: Result<S>)
    requires default in skip
    ensures Ran(chain, s, skip, default, r)
    decreases |chain|
  {
    if chain == [] {
      r := Result(s, default, []);
    } else {
      var X, Y := chain[..|chain| - 1], chain[|chain| - 1..];
      assert X + Y == chain;
      var x := SomeRun(X, s, skip, default);
      var y := OneRun(Y, x.end, skip, default);
      RunConcat(X, Y, s, skip, default, x, y);
      r := Then(x, y, default);
    }
  }

  lemma OneRun<S>(chain: seq<HookLink<S>>, s: S, skip: set<Ret>, default: Ret) returns (r: Result<S>)
    requires |chain| == 1
    ensures Ran(chain, s, skip, default, r)
  {
    var (end, rv) := chain[0].pFunc(s);
    r := Result(end, if rv in skip then default else rv, [s]);
    assert Left(chain, [s], 0) == end && Returned(chain, [s], 0) == rv;
  }

  // Registration.

  /** The arguments of one call of a registration function `ns_hook_name`. */
  datatype Registration<!S> = Registration(name: string, link: HookLink<S>)

  /** The arrays of the hooks that have any function, and the names given to
      `apr_hook_sort_register`, in order. */
  datatype Table<!S> = Table(link: map<string, seq<HookLink<S>>>, sorted: seq<string>)

  function Registered<S>(t: Table<S>, r: Registration<S>): Table<S> {
    if r.name in t.link then Table(t.link[r.name := t.link[r.name] + [r.link]], t.sorted)
    else Table(t.link[r.name := [r.link]], t.sorted + [r.name])
  }

  function RegisteredAll<S>(t: Table<S>, rs: seq<Registration<S>>): Table<S>
    decreases |rs|
  {
    if rs == [] then t else RegisteredAll(Registered(t, rs[0]), rs[1..])
  }

  function ChainOf<S>(t: Table<S>, name: string): seq<HookLink<S>> {
    if name in t.link then t.link[name] else []
  }

  /** The functions registered for one hook, in order. */
  function Under<S>(rs: seq<Registration<S>>, name: string): seq<HookLink<S>> {
    if rs == [] then []
    else (if rs[0].name == name then [rs[0].link] else []) + Under(rs[1..], name)
  }

  /** Each hook with functions has been registered for sorting once. */
  ghost predicate SortedOnce<S>(t: Table<S>) {
    && (forall i, j | 0 <= i < j < |t.sorted| :: t.sorted[i] != t.sorted[j])
    && (forall name :: name in t.link <==> name in t.sorted)
  }

  lemma RegisteredOnce<S>(t: Table<S>, r: Registration<S>)
    requires SortedOnce(t)
    ensures SortedOnce(Registered(t, r)) && t.sorted <= Registered(t, r).sorted
  {
  }

  lemma RegisteredLast<S>(t: Table<S>, r: Registration<S>, name: string)
    ensures ChainOf(Registered(t, r), name) == ChainOf(t, name) + if r.name == name then [r.link] else []
  {
  }

  lemma {:induction false} RegistrationChain<S>(t: Table<S>, rs: seq<Registration<S>>, name: string)
    ensures ChainOf(RegisteredAll(t, rs), name) == ChainOf(t, name) + Under(rs, name)
    decreases |rs|
  {
    if rs == [] {
      assert ChainOf(t, name) + [] == ChainOf(t, name);
    } else {
      var one := if rs[0].name == name then [rs[0].link] else [];
      RegisteredLast(t, rs[0], name);
      RegistrationChain(Registered(t, rs[0]), rs[1..], name);
      Associative(ChainOf(t, name), one, Under(rs[1..], name));
    }
  }

  lemma {:induction false} RegistrationSorted<S>(t: Table<S>, rs: seq<Registration<S>>)
    requires SortedOnce(t)
    ensures SortedOnce(RegisteredAll(t, rs)) && t.sorted <= RegisteredAll(t, rs).sorted
    decreases |rs|
  {
    if rs != [] {
      RegisteredOnce(t, rs[0]);
      RegistrationSorted(Registered(t, rs[0]), rs[1..]);
    }
  }

  /** Registrations for any hooks in any order: each hook's chain is its own registrations in the
      order they were made, and each hook is registered for sorting exactly once. */
  lemma RegistrationOrder<S>(t: Table<S>, rs: seq<Registration<S>>, name: string)
    requires SortedOnce(t)
    ensures ChainOf(RegisteredAll(t, rs), name) == ChainOf(t, name) + Under(rs, name)
    ensures SortedOnce(RegisteredAll(t, rs))
    ensures t.sorted <= RegisteredAll(t, rs).sorted
  {
    RegistrationChain(t, rs, name);
    RegistrationSorted(t, rs);
  }

  /** `_hooks`: for each hook a pointer to an array, null until a function is registered. */
  class HookStruct<!S> {
    var link: map<string, seq<HookLink<S>>>
    var sorted: seq<string>

    ghost function Now(): Table<S>
      reads this
    {
      Table(link, sorted)
    }

    constructor ()
      ensures Now() == Table(map[], [])
    {
      link, sorted := map[], [];
    }

    /** `APR_IMPLEMENT_EXTERNAL_HOOK_BASE`; `current` is `apr_hook_debug_current`. */
    method Hook(name: string, pf: HookFn<S>, aszPre: seq<string>, aszSucc: seq<string>, nOrder: int, current: string)
      modifies this
      ensures Now() == Registered(old(Now()), Registration(name, HookLink(pf, current, aszPre, aszSucc, nOrder)))
    {
      if name !in link {
        link := link[name := []];
        sorted := sorted + [name];
      }
      var pHook := HookLink(pf, current, aszPre, aszSucc, nOrder);
      link := link[name := link[name] + [pHook]];
      assert [] + [pHook] == [pHook];
      assert Now().link == Registered(old(Now()), Registration(name, pHook)).link;
    }

    /** The pointer a runner looks at. */
    function HookGet(name: string): (r: Option<seq<HookLink<S>>>)
      reads this
      ensures Chain(r) == ChainOf(Now(), name)
    {
      if name in link then Some(link[name]) else None
    }
  }
}
