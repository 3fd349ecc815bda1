/** What `checkstack.py` means by the names of functions, the stack of a chain of calls, and the totals. */
module CallTotals {
  import opened CallChains

  // ---------- names ----------

  /** The name up to its first dot. */
  lemma {:induction false} RootIs(name: string)
    ensures Root(name) <= name && '.' !in Root(name)
    ensures |Root(name)| < |name| ==> name[|Root(name)|] == '.'
  {
    if name != [] && name[0] != '.' {
      RootIs(name[1..]);
    }
  }

  /** A suffix behind a dot changes nothing about what a function is. */
  lemma {:induction false} RootOfSuffixed(base: string, suffix: string)
    requires '.' !in base
    ensures Root(base) == base && Root(base + "." + suffix) == base
  {
    var name := base + "." + suffix;
    if base == [] {
      assert name[0] == '.';
    } else {
      RootOfSuffixed(base[1..], suffix);
      assert name[1..] == base[1..] + "." + suffix;
      assert base == [base[0]] + base[1..] && '.' !in base[1..];
    }
  }

  ghost predicate Named(name: string, base: string) {
    name == base || exists suffix :: name == base + "." + suffix
  }

  lemma {:induction false} NamedIffRoot(name: string, base: string)
    requires '.' !in base
    ensures Root(name) == base <==> Named(name, base)
  {
    RootIs(name);
    if Root(name) == base && |base| < |name| {
      assert name == base + "." + name[|base| + 1..];
    }
    RootOfSuffixed(base, []);
    forall suffix | name == base + "." + suffix
      ensures Root(name) == base
    {
      RootOfSuffixed(base, suffix);
    }
  }

  /** `panic` is left out, and the two hops change the stack, with any suffix behind a dot. */
  lemma SpecialFunctions(f: Func)
    ensures Ignored(f) <==> Named(f.name, "panic")
    ensures Hops(f) <==> Named(f.name, "stack_hop") || Named(f.name, "stack_hop_back")
  {
    NamedIffRoot(f.name, "panic");
    NamedIffRoot(f.name, "stack_hop");
    NamedIffRoot(f.name, "stack_hop_back");
  }

  // ---------- the stack of a chain ----------

  ghost predicate IsCall(g: Graph, a: int, i: nat, b: int) {
    a in g && b in g && i < |g[a].calls| && g[a].calls[i].target == b && !Ignored(g[b])
  }

  /** The functions along a chain of calls; none behind the first is left out. */
  ghost predicate IsPath(g: Graph, chain: seq<nat>, path: seq<int>) {
    && |path| == |chain| + 1 && path[|chain|] in g
    && forall i :: 0 <= i < |chain| ==> IsCall(g, path[i], chain[i], path[i + 1])
  }

  ghost function UsageAt(g: Graph, chain: seq<nat>, path: seq<int>, i: nat): nat
    requires IsPath(g, chain, path) && i < |chain|
  {
    assert IsCall(g, path[i], chain[i], path[i + 1]);
    g[path[i]].calls[chain[i]].usage
  }

  /** The stack in use at the first `n` calls, added up. */
  ghost function Usages(g: Graph, chain: seq<nat>, path: seq<int>, n: nat): nat
    requires IsPath(g, chain, path) && n <= |chain|
  {
    if n == 0 then 0 else Usages(g, chain, path, n - 1) + UsageAt(g, chain, path, n - 1)
  }

  lemma {:induction false} UsagesSplit(g: Graph, chain: seq<nat>, path: seq<int>, n: nat)
    requires IsPath(g, chain, path) && 0 < n <= |chain|
    ensures IsPath(g, chain[1..], path[1..])
    ensures Usages(g, chain, path, n) == UsageAt(g, chain, path, 0) + Usages(g, chain[1..], path[1..], n - 1)
  {
    if n > 1 {
      UsagesSplit(g, chain, path, n - 1);
    }
  }

  /** The first hop on the path is behind the `n`th call. */
  ghost predicate FirstHop(g: Graph, chain: seq<nat>, path: seq<int>, n: nat)
    requires IsPath(g, chain, path)
  {
    0 < n <= |chain| && path[n] in g && Hops(g[path[n]]) && NoHop(g, chain, path, n - 1)
  }

  ghost predicate NoHop(g: Graph, chain: seq<nat>, path: seq<int>, n: nat)
    requires IsPath(g, chain, path) && n <= |chain|
  {
    forall i :: 0 < i <= n ==> path[i] in g && !Hops(g[path[i]])
  }

  lemma {:induction false} PathOf(g: Graph, a: int, chain: seq<nat>) returns (path: seq<int>)
    requires IsChain(g, a, chain)
    ensures IsPath(g, chain, path) && path[0] == a
    decreases |chain|
  {
    path := [a];
    if chain != [] {
      var rest := PathOf(g, g[a].calls[chain[0]].target, chain[1..]);
      path := [a] + rest;
      forall i | 0 <= i < |chain|
        ensures IsCall(g, path[i], chain[i], path[i + 1])
      {
        if i > 0 {
          assert chain[i] == chain[1..][i - 1] && path[i] == rest[i - 1] && path[i + 1] == rest[i];
        }
      }
    }
  }

  lemma {:induction false} PathIsChain(g: Graph, chain: seq<nat>, path: seq<int>)
    requires IsPath(g, chain, path)
    ensures IsChain(g, path[0], chain) && End(g, path[0], chain) == path[|chain|]
    decreases |chain|
  {
    if chain != [] {
      UsagesSplit(g, chain, path, 1);
      PathIsChain(g, chain[1..], path[1..]);
      assert IsCall(g, path[0], chain[0], path[1]);
    }
  }

  /**
   * A chain uses the stack of its calls up to the first hop; without a hop, that of all its
   * calls and the own use of the function it ends in.
   */
  lemma {:induction false} UseAddsUp(g: Graph, chain: seq<nat>, path: seq<int>)
    requires IsPath(g, chain, path)
    ensures IsChain(g, path[0], chain)
    ensures NoHop(g, chain, path, |chain|) ==>
              Use(g, path[0], chain) == Usages(g, chain, path, |chain|) + g[path[|chain|]].basic
    ensures forall n :: FirstHop(g, chain, path, n) ==> Use(g, path[0], chain) == Usages(g, chain, path, n)
    decreases |chain|
  {
    PathIsChain(g, chain, path);
    if chain != [] {
      assert IsCall(g, path[0], chain[0], path[1]);
      UsagesSplit(g, chain, path, |chain|);
      UseAddsUp(g, chain[1..], path[1..]);
      if NoHop(g, chain, path, |chain|) {
        LaterHops(g, chain, path, |chain|);
      }
      forall n | FirstHop(g, chain, path, n)
        ensures Use(g, path[0], chain) == Usages(g, chain, path, n)
      {
        UsagesSplit(g, chain, path, n);
        LaterHops(g, chain, path, n);
      }
    }
  }

  /** The same for a chain that ends where the processor may be given up. */
  lemma {:induction false} YieldAddsUp(g: Graph, chain: seq<nat>, path: seq<int>)
    requires IsPath(g, chain, path) && g[path[|chain|]].yielding >= 0
    ensures Yields(g, path[0], chain)
    ensures NoHop(g, chain, path, |chain|) ==>
              YieldUse(g, path[0], chain) == Usages(g, chain, path, |chain|) + g[path[|chain|]].yielding
    ensures forall n :: FirstHop(g, chain, path, n) ==> YieldUse(g, path[0], chain) == Usages(g, chain, path, n)
    decreases |chain|
  {
    PathIsChain(g, chain, path);
    if chain != [] {
      assert IsCall(g, path[0], chain[0], path[1]);
      UsagesSplit(g, chain, path, |chain|);
      YieldAddsUp(g, chain[1..], path[1..]);
      if NoHop(g, chain, path, |chain|) {
        LaterHops(g, chain, path, |chain|);
      }
      forall n | FirstHop(g, chain, path, n)
        ensures YieldUse(g, path[0], chain) == Usages(g, chain, path, n)
      {
        UsagesSplit(g, chain, path, n);
        LaterHops(g, chain, path, n);
      }
    }
  }

  lemma LaterHops(g: Graph, chain: seq<nat>, path: seq<int>, n: nat)
    requires 0 < n <= |chain| && IsPath(g, chain, path) && IsPath(g, chain[1..], path[1..])
    ensures NoHop(g, chain, path, n) ==> !Hops(g[path[1]]) && NoHop(g, chain[1..], path[1..], n - 1)
    ensures n > 1 && FirstHop(g, chain, path, n) ==>
              !Hops(g[path[1]]) && FirstHop(g, chain[1..], path[1..], n - 1)
  {
  }

  // ---------- totals ----------

  /** Call `i` of `a` is the first to a known function of its name. */
  ghost predicate First(g: Graph, a: int, i: nat) {
    && a in g && i < |g[a].calls| && g[a].calls[i].target in g
    && forall j :: 0 <= j < i && g[a].calls[j].target in g ==>
         g[g[a].calls[j].target].name != g[g[a].calls[i].target].name
  }

  /** One or more calls, each the first of its name in its function. */
  ghost predicate IsFirstChain(g: Graph, a: int, chain: seq<nat>)
    decreases |chain|
  {
    && chain != [] && First(g, a, chain[0])
    && (|chain| > 1 ==> IsFirstChain(g, g[a].calls[chain[0]].target, chain[1..]))
  }

  ghost function Behind(i: nat, s: set<seq<nat>>): set<seq<nat>> {
    set c | c in s :: [i] + c
  }

  lemma {:induction false} BehindSize(i: nat, s: set<seq<nat>>)
    ensures |Behind(i, s)| == |s|
  {
    if s != {} {
      var c :| c in s;
      BehindSize(i, s - {c});
      assert Behind(i, s) == Behind(i, s - {c}) + {[i] + c};
      assert [i] + c !in Behind(i, s - {c}) by {
        forall d | d in s - {c}
          ensures [i] + d != [i] + c
        {
          assert ([i] + d)[1..] == d && ([i] + c)[1..] == c;
        }
      }
    }
  }

  /** The chains of `a` that start with one of its first `n` calls. */
  ghost function Chains(g: Graph, rank: int -> nat, a: int, n: nat): set<seq<nat>>
    requires Acyclic(g, rank) && a in g && n <= |g[a].calls|
    decreases rank(a), n
  {
    if n == 0 then {}
    else
      var before := Chains(g, rank, a, n - 1);
      if First(g, a, n - 1) then before + {[n - 1]} + Behind(n - 1, AllChains(g, rank, g[a].calls[n - 1].target))
      else before
  }

  ghost function AllChains(g: Graph, rank: int -> nat, a: int): set<seq<nat>>
    requires Acyclic(g, rank) && a in g
    decreases rank(a), |g[a].calls| + 1
  {
    Chains(g, rank, a, |g[a].calls|)
  }

  lemma {:induction false} ChainsAre(g: Graph, rank: int -> nat, a: int, n: nat, chain: seq<nat>)
    requires Acyclic(g, rank) && a in g && n <= |g[a].calls|
    ensures chain in Chains(g, rank, a, n) <==> IsFirstChain(g, a, chain) && chain[0] < n
    decreases rank(a), n
  {
    if n > 0 {
      ChainsAre(g, rank, a, n - 1, chain);
      if First(g, a, n - 1) && chain != [] && chain[0] == n - 1 {
        var b := g[a].calls[n - 1].target;
        ChainsAre(g, rank, b, |g[b].calls|, chain[1..]);
        assert chain == [n - 1] + chain[1..];
        if |chain| == 1 {
          assert chain == [n - 1];
        }
      }
      if First(g, a, n - 1) && chain in Behind(n - 1, AllChains(g, rank, g[a].calls[n - 1].target)) {
        assert chain != [] && chain[0] == n - 1;
      }
    }
  }

  lemma {:induction false} SeenAre(g: Graph, a: int, n: nat, name: string)
    requires a in g && n <= |g[a].calls|
    ensures name in Seen(g, a, n) <==>
            exists j :: 0 <= j < n && g[a].calls[j].target in g && g[g[a].calls[j].target].name == name
  {
    if n > 0 {
      SeenAre(g, a, n - 1, name);
    }
  }

  lemma {:induction false} TotalCounts(g: Graph, rank: int -> nat, a: int, n: nat)
    requires Acyclic(g, rank) && a in g && n <= |g[a].calls|
    ensures Memoised(g, rank, a, n).total == |Chains(g, rank, a, n)|
    decreases rank(a), n
  {
    if n > 0 {
      TotalCounts(g, rank, a, n - 1);
      var b := g[a].calls[n - 1].target;
      if b in g {
        SeenAre(g, a, n - 1, g[b].name);
        TotalCounts(g, rank, b, |g[b].calls|);
        if First(g, a, n - 1) {
          OneMoreCall(g, rank, a, n);
        }
      }
    }
  }

  lemma OneMoreCall(g: Graph, rank: int -> nat, a: int, n: nat)
    requires Acyclic(g, rank) && a in g && 0 < n <= |g[a].calls| && First(g, a, n - 1)
    ensures |Chains(g, rank, a, n)|
            == |Chains(g, rank, a, n - 1)| + |AllChains(g, rank, g[a].calls[n - 1].target)| + 1
  {
    var before, more := Chains(g, rank, a, n - 1), AllChains(g, rank, g[a].calls[n - 1].target);
    BehindSize(n - 1, more);
    forall c | c in before
      ensures c != [n - 1] && c !in Behind(n - 1, more)
    {
      ChainsAre(g, rank, a, n - 1, c);
    }
    EmptyIsNone(g, rank, g[a].calls[n - 1].target);
    assert [n - 1] !in Behind(n - 1, more) by {
      forall c | c in more
        ensures [n - 1] + c != [n - 1]
      {
        assert |[n - 1] + c| == 1 + |c|;
      }
    }
  }

  lemma EmptyIsNone(g: Graph, rank: int -> nat, a: int)
    requires Acyclic(g, rank) && a in g
    ensures [] !in AllChains(g, rank, a)
  {
    ChainsAre(g, rank, a, |g[a].calls|, []);
  }

  /** Without cycles, the total of a function is the number of chains of first calls from it. */
  lemma TotalIsChains(g: Graph, rank: int -> nat, a: int) returns (chains: set<seq<nat>>)
    requires Acyclic(g, rank) && a in g
    ensures forall chain :: chain in chains <==> IsFirstChain(g, a, chain)
    ensures Result(g, rank, a).total == |chains|
  {
    chains := AllChains(g, rank, a);
    TotalCounts(g, rank, a, |g[a].calls|);
    forall chain
      ensures chain in chains <==> IsFirstChain(g, a, chain)
    {
      ChainsAre(g, rank, a, |g[a].calls|, chain);
    }
  }
}
