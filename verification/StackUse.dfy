/** `calcmaxstack`: memoised recursion over the call graph. */
module StackUse {
  import Common
  import opened CallChains

  /** The pairs `noteCall` has noted. */
  function Noted(calls: seq<Call>): set<(int, nat)> {
    set i | 0 <= i < |calls| :: (calls[i].target, calls[i].usage)
  }

  /** The calls of the function being listed. */
  class Notes {
    var calledFuncs: seq<Call>
    var subfuncs: set<(int, nat)>

    constructor ()
      ensures calledFuncs == [] && Valid()
    {
      calledFuncs, subfuncs := [], {};
    }

    ghost predicate Valid()
      reads this
    {
      && subfuncs == Noted(calledFuncs)
      && forall i, j :: 0 <= i < j < |calledFuncs| ==>
           (calledFuncs[i].target, calledFuncs[i].usage) != (calledFuncs[j].target, calledFuncs[j].usage)
    }

    /** The first call of a function at each stack depth is kept. */
    method NoteCall(insn: int, target: int, usage: nat)
      requires Valid()
      modifies this
      ensures Valid() && Noted(calledFuncs) == Noted(old(calledFuncs)) + {(target, usage)}
      ensures calledFuncs == if (target, usage) in Noted(old(calledFuncs)) then old(calledFuncs)
                             else old(calledFuncs) + [Call(insn, target, usage)]
    {
      if (target, usage) in subfuncs {
        return;
      }
      calledFuncs := calledFuncs + [Call(insn, target, usage)];
      subfuncs := subfuncs + {(target, usage)};
      assert calledFuncs[|calledFuncs| - 1] == Call(insn, target, usage);
      assert forall i :: 0 <= i < |old(calledFuncs)| ==> calledFuncs[i] == old(calledFuncs)[i];
    }
  }

  predicate WellFormed(g: Graph) {
    forall a :: a in g ==> g[a].yielding >= -1
  }

  ghost predicate AllHonest(g: Graph, memo: map<int, Memo>) {
    forall a :: a in memo ==> a in g && Honest(g, a, memo[a])
  }

  /** The memos of the functions that rank below `bound` are final. */
  ghost predicate FinalBelow(g: Graph, rank: int -> nat, memo: map<int, Memo>, bound: nat) {
    Acyclic(g, rank) ==> forall a :: a in memo && a in g && rank(a) < bound ==> memo[a] == Result(g, rank, a)
  }

  /** From `was` to `memo`, entries were only added. */
  ghost predicate Keeps(was: map<int, Memo>, memo: map<int, Memo>) {
    forall a :: a in was ==> a in memo && memo[a] == was[a]
  }

  /** The added entries are final and rank below `bound`. */
  ghost predicate Extends(g: Graph, rank: int -> nat, was: map<int, Memo>, memo: map<int, Memo>, bound: nat) {
    && Keeps(was, memo)
    && (Acyclic(g, rank) ==>
          forall a :: a in memo && a !in was && a in g ==> rank(a) < bound && memo[a] == Result(g, rank, a))
  }

  lemma ExtendsKeepsFinal(g: Graph, rank: int -> nat, was: map<int, Memo>, memo: map<int, Memo>, bound: nat, b: nat)
    requires Extends(g, rank, was, memo, bound) && FinalBelow(g, rank, was, b)
    ensures FinalBelow(g, rank, memo, b)
  {
  }

  lemma ExtendsTwice(g: Graph, rank: int -> nat, m0: map<int, Memo>, m1: map<int, Memo>, m2: map<int, Memo>, b: nat,
                     c: nat)
    requires Extends(g, rank, m0, m1, c) && Extends(g, rank, m1, m2, b) && (Acyclic(g, rank) ==> b <= c)
    ensures Extends(g, rank, m0, m2, c)
  {
  }

  lemma Smaller(keys: set<int>, m: map<int, Memo>, n: map<int, Memo>)
    requires Keeps(m, n)
    ensures |keys - n.Keys| <= |keys - m.Keys|
  {
    forall x | x in keys - n.Keys
      ensures x in keys - m.Keys
    {
    }
    Common.SubsetSize(keys - n.Keys, keys - m.Keys);
  }

  lemma Fewer(keys: set<int>, m: map<int, Memo>, x: int, v: Memo)
    requires x in keys && x !in m
    ensures |keys - m[x := v].Keys| < |keys - m.Keys|
  {
    assert keys - m[x := v].Keys == (keys - m.Keys) - {x};
  }

  /** Between two calls of `a`, entered with the memos `was`. */
  ghost predicate InCalls(g: Graph, a: int, n: nat, m: Memo, was: map<int, Memo>, memo: map<int, Memo>,
                          rank: int -> nat,
                          left: nat)
    requires a in g && n <= |g[a].calls|
  {
    && AllHonest(g, memo) && FinalBelow(g, rank, memo, rank(a))
    && Extends(g, rank, was, memo, rank(a)) && Honest(g, a, m)
    && |g.Keys - memo.Keys| <= left
    && (Acyclic(g, rank) ==> m == Memoised(g, rank, a, n))
  }

  lemma StartCalls(g: Graph, a: int, memo: map<int, Memo>, rank: int -> nat, left: nat)
    requires |g.Keys - memo.Keys| <= left
    requires a in g && WellFormed(g) && AllHonest(g, memo) && FinalBelow(g, rank, memo, rank(a))
    ensures InCalls(g, a, 0, Memo(g[a].basic, g[a].yielding, 0), memo, memo, rank, left)
  {
    StartHonest(g, a);
  }

  lemma EndCalls(g: Graph, a: int, m: Memo, was: map<int, Memo>, memo: map<int, Memo>, rank: int -> nat, left: nat)
    requires a in g && InCalls(g, a, |g[a].calls|, m, was, memo, rank, left)
    ensures AllHonest(g, memo) && Extends(g, rank, was, memo, rank(a)) && Honest(g, a, m)
    ensures Acyclic(g, rank) ==> m == Result(g, rank, a)
  {
  }

  ghost predicate AllFinal(g: Graph, rank: int -> nat, memo: map<int, Memo>) {
    Acyclic(g, rank) ==> forall a :: a in memo && a in g ==> memo[a] == Result(g, rank, a)
  }

  lemma StillThere(order: seq<int>, n: nat, was: map<int, Memo>, memo: map<int, Memo>)
    requires Keeps(was, memo) && n <= |order| && forall i :: 0 <= i < n ==> order[i] in was
    ensures forall i :: 0 <= i < n ==> order[i] in memo
  {
    forall i | 0 <= i < n
      ensures order[i] in memo
    {
      var a: int := order[i];
      assert a in was && a in memo;
    }
  }

  lemma AllFinalAfter(g: Graph, rank: int -> nat, was: map<int, Memo>, memo: map<int, Memo>, bound: nat)
    requires AllFinal(g, rank, was) && Extends(g, rank, was, memo, bound)
    ensures AllFinal(g, rank, memo)
  {
  }

  /** Final memos are maxima, so they do not depend on the order of evaluation. */
  lemma AllMaximal(g: Graph, rank: int -> nat, memo: map<int, Memo>)
    requires WellFormed(g) && AllFinal(g, rank, memo)
    ensures Acyclic(g, rank) ==> forall a :: a in memo && a in g ==> Maximal(g, a, memo[a])
  {
    if Acyclic(g, rank) {
      forall a | a in memo && a in g
        ensures Maximal(g, a, memo[a])
      {
        ResultIsMaximum(g, rank, a);
      }
    }
  }

  predicate HasIndirect(g: Graph) {
    -1 in g && g[-1] == Func("<indirect>", 0, -1, [])
  }

  lemma StartMemo(g: Graph, rank: int -> nat)
    requires HasIndirect(g)
    ensures AllHonest(g, map[-1 := Memo(0, -1, 0)]) && AllFinal(g, rank, map[-1 := Memo(0, -1, 0)])
  {
    StartHonest(g, -1);
  }

  lemma EntersFinal(g: Graph, rank: int -> nat, was: map<int, Memo>, a: int, v: Memo)
    requires a in g && a !in was && FinalBelow(g, rank, was, rank(a) + 1)
    ensures FinalBelow(g, rank, was[a := v], rank(a))
  {
  }

  /** Storing the result of `a` over its placeholder. */
  lemma Leaves(g: Graph, rank: int -> nat, was: map<int, Memo>, start: map<int, Memo>, memo: map<int, Memo>, a: int,
               m: Memo)
    requires a in g && a !in was && a in start && start == was[a := start[a]]
    requires AllHonest(g, memo) && Extends(g, rank, start, memo, rank(a)) && Honest(g, a, m)
    requires Acyclic(g, rank) ==> m == Result(g, rank, a)
    ensures AllHonest(g, memo[a := m]) && Extends(g, rank, was, memo[a := m], rank(a) + 1)
  {
  }

  class Analysis {
    const funcs: Graph
    var memo: map<int, Memo>

    /** Calls through a pointer lead to a function that is known to use nothing. */
    constructor (funcs: Graph)
      requires HasIndirect(funcs)
      ensures this.funcs == funcs && memo == map[-1 := Memo(0, -1, 0)]
    {
      this.funcs := funcs;
      memo := map[-1 := Memo(0, -1, 0)];
    }

    method CalcMaxStack(a: int, ghost rank: int -> nat, ghost left: nat)
      requires a in funcs && WellFormed(funcs) && AllHonest(funcs, memo) && FinalBelow(funcs, rank, memo, rank(a) + 1)
      requires |funcs.Keys - memo.Keys| <= left
      modifies `memo
      ensures a in memo && AllHonest(funcs, memo) && Extends(funcs, rank, old(memo), memo, rank(a) + 1)
      decreases left, 0
    {
      if a in memo {
        return;
      }
      Fewer(funcs.Keys, memo, a, Memo(funcs[a].basic, funcs[a].yielding, 0));
      memo := memo[a := Memo(funcs[a].basic, funcs[a].yielding, 0)];
      StartHonest(funcs, a);
      EntersFinal(funcs, rank, old(memo), a, memo[a]);
      ghost var start := memo;
      var m := CalcCalls(a, rank, left - 1);
      Leaves(funcs, rank, old(memo), start, memo, a, m);
      memo := memo[a := m];
    }

    method CalcCalls(a: int, ghost rank: int -> nat, ghost left: nat) returns (m: Memo)
      requires a in funcs && WellFormed(funcs) && AllHonest(funcs, memo) && FinalBelow(funcs, rank, memo, rank(a))
      requires |funcs.Keys - memo.Keys| <= left
      modifies `memo
      ensures AllHonest(funcs, memo) && Extends(funcs, rank, old(memo), memo, rank(a)) && Honest(funcs, a, m)
      ensures Acyclic(funcs, rank) ==> m == Result(funcs, rank, a)
      decreases left, 4
    {
      ghost var was := memo;
      StartCalls(funcs, a, memo, rank, left);
      m := CalcEach(a, was, rank, left);
      EndCalls(funcs, a, m, was, memo, rank, left);
    }

    /** The loop over the calls of `a`. */
    method CalcEach(a: int, ghost was: map<int, Memo>, ghost rank: int -> nat, ghost left: nat) returns (m: Memo)
      requires a in funcs && WellFormed(funcs)
      requires InCalls(funcs, a, 0, Memo(funcs[a].basic, funcs[a].yielding, 0), was, memo, rank, left)
      modifies `memo
      ensures InCalls(funcs, a, |funcs[a].calls|, m, was, memo, rank, left)
      decreases left, 3
    {
      m := Memo(funcs[a].basic, funcs[a].yielding, 0);
      var seenBefore: set<string> := {};
      var calls := |funcs[a].calls|;
      var n := 0;
      while n < calls
        invariant 0 <= n <= calls
        invariant InCalls(funcs, a, n, m, was, memo, rank, left)
        invariant seenBefore == Seen(funcs, a, n)
      {
        m, seenBefore := CalcCall(a, n, m, seenBefore, was, rank, left);
        n := n + 1;
      }
    }

    /** One turn of that loop. */
    method CalcCall(a: int, n: nat, m: Memo, seenBefore: set<string>, ghost was: map<int, Memo>,
                    ghost rank: int -> nat, ghost left: nat)
      returns (m': Memo, seen: set<string>)
      requires a in funcs && n < |funcs[a].calls|
      requires WellFormed(funcs) && InCalls(funcs, a, n, m, was, memo, rank, left) && seenBefore == Seen(funcs, a, n)
      modifies `memo
      ensures InCalls(funcs, a, n + 1, m', was, memo, rank, left) && seen == Seen(funcs, a, n + 1)
      decreases left, 2
    {
      var call := funcs[a].calls[n];
      if call.target !in funcs {
        return m, seenBefore;
      }
      CalcKnown(call.target, a, was, rank, left);
      var callInfo := funcs[call.target];
      var again := callInfo.name in seenBefore;
      TurnHonest(funcs, a, n, m, memo[call.target], again);
      m' := Turn(callInfo, m, call, memo[call.target], again);
      seen := seenBefore + {callInfo.name};
    }

    /** The recursive call for callee `c` of `a`. */
    method CalcKnown(c: int, ghost a: int, ghost was: map<int, Memo>, ghost rank: int -> nat, ghost left: nat)
      requires a in funcs && c in funcs && WellFormed(funcs) && AllHonest(funcs, memo)
      requires FinalBelow(funcs, rank, memo, rank(a)) && Extends(funcs, rank, was, memo, rank(a))
      requires Acyclic(funcs, rank) ==> rank(c) < rank(a)
      requires |funcs.Keys - memo.Keys| <= left
      modifies `memo
      ensures c in memo && AllHonest(funcs, memo)
      ensures FinalBelow(funcs, rank, memo, rank(a)) && Extends(funcs, rank, was, memo, rank(a))
      ensures |funcs.Keys - memo.Keys| <= left
      ensures Acyclic(funcs, rank) ==> memo[c] == Result(funcs, rank, c)
      decreases left, 1
    {
      ghost var before := memo;
      CalcMaxStack(c, rank, left);
      ExtendsKeepsFinal(funcs, rank, before, memo, rank(c) + 1, rank(a));
      ExtendsTwice(funcs, rank, was, before, memo, rank(c) + 1, rank(a));
      Smaller(funcs.Keys, before, memo);
    }

    /** The loop of `main` over all functions, in any order. */
    method CalcAll(order: seq<int>, ghost rank: int -> nat)
      requires WellFormed(funcs) && HasIndirect(funcs) && memo == map[-1 := Memo(0, -1, 0)]
      requires forall i :: 0 <= i < |order| ==> order[i] in funcs
      modifies `memo
      ensures forall i :: 0 <= i < |order| ==> order[i] in memo
      ensures AllHonest(funcs, memo) && AllFinal(funcs, rank, memo)
      ensures Acyclic(funcs, rank) ==> forall a :: a in memo && a in funcs ==> Maximal(funcs, a, memo[a])
    {
      StartMemo(funcs, rank);
      var n := 0;
      while n < |order|
        invariant 0 <= n <= |order|
        invariant AllHonest(funcs, memo) && AllFinal(funcs, rank, memo)
        invariant forall i :: 0 <= i < n ==> order[i] in memo
      {
        ghost var before := memo;
        CalcOne(order[n], rank);
        StillThere(order, n, before, memo);
        n := n + 1;
      }
      AllMaximal(funcs, rank, memo);
    }

    method CalcOne(a: int, ghost rank: int -> nat)
      requires a in funcs && WellFormed(funcs) && AllHonest(funcs, memo) && AllFinal(funcs, rank, memo)
      modifies `memo
      ensures a in memo && AllHonest(funcs, memo) && AllFinal(funcs, rank, memo)
      ensures Keeps(old(memo), memo)
    {
      ghost var before := memo;
      CalcMaxStack(a, rank, |funcs.Keys - memo.Keys|);
      AllFinalAfter(funcs, rank, before, memo, rank(a) + 1);
    }
  }
}
