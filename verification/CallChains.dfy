/** The call graph of `checkstack.py` and the stack its call chains use. */
module CallChains {
  datatype Call = Call(insn: int, target: int, usage: nat)

  /** A function as the listing shows it; `yielding` is -1 when it never yields. */
  datatype Func = Func(name: string, basic: nat, yielding: int, calls: seq<Call>)

  type Graph = map<int, Func>

  /** The part of a name in front of the first dot. */
  function Root(name: string): string {
    if name == [] || name[0] == '.' then [] else [name[0]] + Root(name[1..])
  }

  predicate Ignored(f: Func) {
    Root(f.name) == "panic"
  }

  predicate Hops(f: Func) {
    Root(f.name) in {"stack_hop", "stack_hop_back"}
  }

  /** Call `i` of `a` leads to a function that counts. */
  predicate Counts(g: Graph, a: int, i: nat) {
    a in g && i < |g[a].calls| && g[a].calls[i].target in g && !Ignored(g[g[a].calls[i].target])
  }

  /** A chain of calls from `a`, by the positions of the calls in their functions. */
  predicate IsChain(g: Graph, a: int, chain: seq<nat>)
    decreases |chain|
  {
    a in g && (chain == [] || (Counts(g, a, chain[0]) && IsChain(g, g[a].calls[chain[0]].target, chain[1..])))
  }

  /** The stack in use at the end of a chain; behind a hop there is another stack. */
  function Use(g: Graph, a: int, chain: seq<nat>): nat
    requires IsChain(g, a, chain)
    decreases |chain|
  {
    if chain == [] then g[a].basic
    else
      var call := g[a].calls[chain[0]];
      call.usage + if Hops(g[call.target]) then 0 else Use(g, call.target, chain[1..])
  }

  /** The function a chain ends in. */
  function End(g: Graph, a: int, chain: seq<nat>): (e: int)
    requires IsChain(g, a, chain)
    ensures e in g
    decreases |chain|
  {
    if chain == [] then a else End(g, g[a].calls[chain[0]].target, chain[1..])
  }

  /** The chain ends where the processor may be given up. */
  predicate Yields(g: Graph, a: int, chain: seq<nat>) {
    IsChain(g, a, chain) && g[End(g, a, chain)].yielding >= 0
  }

  function YieldUse(g: Graph, a: int, chain: seq<nat>): nat
    requires Yields(g, a, chain)
    decreases |chain|
  {
    if chain == [] then g[a].yielding
    else
      var call := g[a].calls[chain[0]];
      call.usage + if Hops(g[call.target]) then 0 else YieldUse(g, call.target, chain[1..])
  }

  // ---------- what the analysis computes ----------

  /** The three memo fields of a function object. */
  datatype Memo = Memo(stack: nat, yielding: int, total: nat)

  /** The names of the known functions among the first `n` calls. */
  function Seen(g: Graph, a: int, n: nat): set<string>
    requires a in g && n <= |g[a].calls|
  {
    if n == 0 then {}
    else
      var t := g[a].calls[n - 1].target;
      if t in g then Seen(g, a, n - 1) + {g[t].name} else Seen(g, a, n - 1)
  }

  /** One turn of the loop over the calls, with the callee's memo. */
  function Turn(f: Func, m: Memo, call: Call, callee: Memo, again: bool): Memo {
    var total := if again then m.total else m.total + callee.total + 1;
    if Ignored(f) then m.(total := total)
    else
      var stack := if Hops(f) then call.usage else call.usage + callee.stack;
      var yielding := if Hops(f) then call.usage else call.usage + callee.yielding;
      Memo(if stack > m.stack then stack else m.stack,
           if callee.yielding >= 0 && yielding > m.yielding then yielding else m.yielding, total)
  }

  ghost predicate Acyclic(g: Graph, rank: int -> nat) {
    forall a, i :: a in g && 0 <= i < |g[a].calls| && g[a].calls[i].target in g ==> rank(g[a].calls[i].target) < rank(a)
  }

  /** The memo of `a` after its first `n` calls, in a graph without cycles. */
  ghost function Memoised(g: Graph, rank: int -> nat, a: int, n: nat): Memo
    requires Acyclic(g, rank) && a in g && n <= |g[a].calls|
    decreases rank(a), n
  {
    if n == 0 then Memo(g[a].basic, g[a].yielding, 0)
    else
      var call := g[a].calls[n - 1];
      var m := Memoised(g, rank, a, n - 1);
      if call.target !in g then m
      else Turn(g[call.target], m, call, Result(g, rank, call.target), g[call.target].name in Seen(g, a, n - 1))
  }

  ghost function Result(g: Graph, rank: int -> nat, a: int): Memo
    requires Acyclic(g, rank) && a in g
    decreases rank(a), |g[a].calls| + 1
  {
    Memoised(g, rank, a, |g[a].calls|)
  }

  // ---------- any graph: every value is the use of a chain ----------

  ghost predicate UsedBy(g: Graph, a: int, m: int) {
    exists chain :: IsChain(g, a, chain) && Use(g, a, chain) == m
  }

  ghost predicate YieldedBy(g: Graph, a: int, m: int) {
    exists chain :: Yields(g, a, chain) && YieldUse(g, a, chain) == m
  }

  /** The memo of `a` reports nothing that no call chain does. */
  ghost predicate Honest(g: Graph, a: int, m: Memo) {
    UsedBy(g, a, m.stack) && (m.yielding >= 0 ==> YieldedBy(g, a, m.yielding)) && m.yielding >= -1
  }

  lemma StartHonest(g: Graph, a: int)
    requires a in g && g[a].yielding >= -1
    ensures Honest(g, a, Memo(g[a].basic, g[a].yielding, 0))
  {
    assert IsChain(g, a, []) && Use(g, a, []) == g[a].basic;
    if g[a].yielding >= 0 {
      assert Yields(g, a, []) && YieldUse(g, a, []) == g[a].yielding;
    }
  }

  lemma TurnHonest(g: Graph, a: int, i: nat, m: Memo, callee: Memo, again: bool)
    requires a in g && i < |g[a].calls| && g[a].calls[i].target in g
    requires Honest(g, a, m) && Honest(g, g[a].calls[i].target, callee)
    ensures Honest(g, a, Turn(g[g[a].calls[i].target], m, g[a].calls[i], callee, again))
  {
    var b := g[a].calls[i].target;
    if !Ignored(g[b]) {
      var chain :| IsChain(g, b, chain) && Use(g, b, chain) == callee.stack;
      Longer(g, a, i, chain);
      if callee.yielding >= 0 {
        var c :| Yields(g, b, c) && YieldUse(g, b, c) == callee.yielding;
        Longer(g, a, i, c);
      }
    }
  }

  /** A call in front of a chain. */
  lemma Longer(g: Graph, a: int, i: nat, chain: seq<nat>)
    requires Counts(g, a, i) && IsChain(g, g[a].calls[i].target, chain)
    ensures var b, c := g[a].calls[i].target, [i] + chain;
            && IsChain(g, a, c) && End(g, a, c) == End(g, b, chain)
            && Use(g, a, c) == g[a].calls[i].usage + (if Hops(g[b]) then 0 else Use(g, b, chain))
            && (Yields(g, b, chain) ==> Yields(g, a, c))
            && (Yields(g, b, chain) ==>
                  YieldUse(g, a, c) == g[a].calls[i].usage + (if Hops(g[b]) then 0 else YieldUse(g, b, chain)))
  {
    assert ([i] + chain)[1..] == chain;
  }

  // ---------- graphs without cycles: no chain uses more ----------

  /** Calls only raise the memo. */
  lemma {:induction false} MemoGrows(g: Graph, rank: int -> nat, a: int, i: nat, n: nat)
    requires Acyclic(g, rank) && a in g && i <= n <= |g[a].calls|
    ensures Memoised(g, rank, a, i).stack <= Memoised(g, rank, a, n).stack
    ensures Memoised(g, rank, a, i).yielding <= Memoised(g, rank, a, n).yielding
  {
    if i < n {
      MemoGrows(g, rank, a, i, n - 1);
    }
  }

  /** A call that counts is counted. */
  lemma Counted(g: Graph, rank: int -> nat, a: int, i: nat)
    requires Acyclic(g, rank) && Counts(g, a, i)
    ensures var call, b := g[a].calls[i], g[a].calls[i].target;
            && call.usage + (if Hops(g[b]) then 0 else Result(g, rank, b).stack) <= Result(g, rank, a).stack
            && (Result(g, rank, b).yielding >= 0 ==>
                  call.usage + (if Hops(g[b]) then 0 else Result(g, rank, b).yielding) <= Result(g, rank, a).yielding)
  {
    MemoGrows(g, rank, a, i + 1, |g[a].calls|);
  }

  /** No chain uses more stack than the analysis reports. */
  lemma {:induction false} NothingHigher(g: Graph, rank: int -> nat, a: int, chain: seq<nat>)
    requires Acyclic(g, rank) && IsChain(g, a, chain)
    ensures Use(g, a, chain) <= Result(g, rank, a).stack
    ensures Yields(g, a, chain) ==> YieldUse(g, a, chain) <= Result(g, rank, a).yielding
    decreases |chain|
  {
    if chain == [] {
      MemoGrows(g, rank, a, 0, |g[a].calls|);
    } else {
      NothingHigher(g, rank, g[a].calls[chain[0]].target, chain[1..]);
      Counted(g, rank, a, chain[0]);
    }
  }

  lemma {:induction false} MemoHonest(g: Graph, rank: int -> nat, a: int, n: nat)
    requires Acyclic(g, rank) && a in g && n <= |g[a].calls|
    requires forall b :: b in g ==> g[b].yielding >= -1
    ensures Honest(g, a, Memoised(g, rank, a, n))
    decreases rank(a), n
  {
    if n == 0 {
      StartHonest(g, a);
    } else {
      MemoHonest(g, rank, a, n - 1);
      var b := g[a].calls[n - 1].target;
      if b in g {
        MemoHonest(g, rank, b, |g[b].calls|);
        TurnHonest(g, a, n - 1, Memoised(g, rank, a, n - 1), Result(g, rank, b), g[b].name in Seen(g, a, n - 1));
      }
    }
  }

  /** `r` is the maximum over all call chains from `a`; yields are -1 when no chain yields. */
  ghost predicate Maximal(g: Graph, a: int, r: Memo) {
    && UsedBy(g, a, r.stack)
    && (forall chain :: IsChain(g, a, chain) ==> Use(g, a, chain) <= r.stack)
    && (forall chain :: Yields(g, a, chain) ==> YieldUse(g, a, chain) <= r.yielding)
    && (if r.yielding >= 0 then YieldedBy(g, a, r.yielding)
        else r.yielding == -1 && forall chain :: !Yields(g, a, chain))
  }

  lemma ResultIsMaximum(g: Graph, rank: int -> nat, a: int)
    requires Acyclic(g, rank) && a in g
    requires forall b :: b in g ==> g[b].yielding >= -1
    ensures Maximal(g, a, Result(g, rank, a))
  {
    MemoHonest(g, rank, a, |g[a].calls|);
    forall chain | IsChain(g, a, chain)
      ensures Use(g, a, chain) <= Result(g, rank, a).stack
    {
      NothingHigher(g, rank, a, chain);
    }
    forall chain | Yields(g, a, chain)
      ensures YieldUse(g, a, chain) <= Result(g, rank, a).yielding
    {
      NothingHigher(g, rank, a, chain);
    }
  }
}
