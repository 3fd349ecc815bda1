/** `orderfuncs`: a destructive depth-first order of the functions for the report. */
module FunctionOrder {
  import opened Sorting
  import opened CallChains
  import Common

  type Totals = map<int, nat>

  predicate Known(g: Graph, total: Totals) {
    forall a :: a in g ==> a in total
  }

  /** The available ones among the first `n` addresses, with their sort keys. */
  function Listed(g: Graph, total: Totals, addrs: seq<int>, avail: set<int>, n: nat): seq<Keyed<int>>
    requires Known(g, total) && avail <= g.Keys && n <= |addrs|
  {
    if n == 0 then []
    else
      var before := Listed(g, total, addrs, avail, n - 1);
      var a := addrs[n - 1];
      if a in avail then before + [(Key(total[a], 0, g[a].name, a), a)] else before
  }

  function Backwards(s: seq<Keyed<int>>): (r: seq<int>)
    ensures |r| == |s|
  {
    seq(|s|, i requires 0 <= i < |s| => s[|s| - 1 - i].1)
  }

  /** The work list: most calls first, then the later name, then the higher address. */
  function Queue(g: Graph, total: Totals, addrs: seq<int>, avail: set<int>): seq<int>
    requires Known(g, total) && avail <= g.Keys
  {
    Backwards(Sort(Listed(g, total, addrs, avail, |addrs|)))
  }

  function Targets(f: Func): (t: seq<int>)
    ensures |t| == |f.calls|
  {
    seq(|f.calls|, i requires 0 <= i < |f.calls| => f.calls[i].target)
  }

  datatype Placed = Placed(out: seq<int>, left: set<int>)

  /** The functions in front of a work list, and those still available behind it. */
  function Order(g: Graph, total: Totals, l: seq<int>, avail: set<int>): (r: Placed)
    requires Known(g, total) && avail <= g.Keys
    ensures r.left <= avail
    decreases |avail|, |l|
  {
    if l == [] then Placed([], avail)
    else if l[0] !in avail then Order(g, total, l[1..], avail)
    else
      var less := avail - {l[0]};
      var inner := Order(g, total, Queue(g, total, Targets(g[l[0]]), less), less);
      Common.SubsetSize(inner.left, less);
      var rest := Order(g, total, l[1..], inner.left);
      Placed(inner.out + [l[0]] + rest.out, rest.left)
  }

  class Orderer {
    const funcs: Graph
    const total: Totals
    var avail: set<int>

    constructor (funcs: Graph, total: Totals)
      ensures this.funcs == funcs && this.total == total && avail == funcs.Keys
    {
      this.funcs, this.total, avail := funcs, total, funcs.Keys;
    }

    method OrderFuncs(funcAddrs: seq<int>) returns (out: seq<int>)
      requires Known(funcs, total) && avail <= funcs.Keys
      modifies `avail
      ensures Placed(out, avail) == Order(funcs, total, Queue(funcs, total, funcAddrs, old(avail)), old(avail))
      decreases |avail|
    {
      var l := Queue(funcs, total, funcAddrs, avail);
      ghost var goal := Order(funcs, total, l, avail);
      out := [];
      while l != []
        invariant avail <= old(avail)
        invariant goal == Placed(out + Order(funcs, total, l, avail).out, Order(funcs, total, l, avail).left)
        decreases |l|
      {
        var a := l[0];
        l := l[1..];
        if a in avail {
          Common.SubsetSize(avail, old(avail));
          avail := avail - {a};
          var inner := OrderFuncs(Targets(funcs[a]));
          out := out + inner + [a];
        }
      }
    }
  }

  // ---------- the work list ----------

  lemma {:induction false} ListedFrom(g: Graph, total: Totals, addrs: seq<int>, avail: set<int>, n: nat, i: nat)
    requires Known(g, total) && avail <= g.Keys && n <= |addrs| && i < |Listed(g, total, addrs, avail, n)|
    ensures var x := Listed(g, total, addrs, avail, n)[i];
            && x.1 in avail && x.1 in addrs[..n] && x.1 in total
            && x.0 == Key(total[x.1], 0, g[x.1].name, x.1)
  {
    var before := Listed(g, total, addrs, avail, n - 1);
    if i < |before| {
      ListedFrom(g, total, addrs, avail, n - 1, i);
      assert addrs[..n] == addrs[..n - 1] + [addrs[n - 1]];
    }
  }

  lemma {:induction false} ListedTo(g: Graph, total: Totals, addrs: seq<int>, avail: set<int>, n: nat, k: nat)
    returns (i: nat)
    requires Known(g, total) && avail <= g.Keys && k < n <= |addrs| && addrs[k] in avail
    ensures i < |Listed(g, total, addrs, avail, n)| && Listed(g, total, addrs, avail, n)[i].1 == addrs[k]
  {
    if k == n - 1 {
      i := |Listed(g, total, addrs, avail, n - 1)|;
    } else {
      i := ListedTo(g, total, addrs, avail, n - 1, k);
    }
  }

  /** An entry of the work list, with its key. */
  lemma QueueFrom(g: Graph, total: Totals, addrs: seq<int>, avail: set<int>, i: nat)
    requires Known(g, total) && avail <= g.Keys && i < |Queue(g, total, addrs, avail)|
    ensures var s := Sort(Listed(g, total, addrs, avail, |addrs|));
            var a := Queue(g, total, addrs, avail)[i];
            && a in avail && a in addrs && a in total
            && s[|s| - 1 - i] == (Key(total[a], 0, g[a].name, a), a)
  {
    var t := Listed(g, total, addrs, avail, |addrs|);
    var j := SortedFrom(t, |t| - 1 - i);
    ListedFrom(g, total, addrs, avail, |addrs|, j);
    assert addrs[..|addrs|] == addrs;
  }

  /** The work list holds exactly the available addresses it was asked for. */
  lemma QueueHolds(g: Graph, total: Totals, addrs: seq<int>, avail: set<int>, a: int)
    requires Known(g, total) && avail <= g.Keys
    ensures a in Queue(g, total, addrs, avail) <==> a in avail && a in addrs
  {
    var q := Queue(g, total, addrs, avail);
    if a in q {
      var i :| 0 <= i < |q| && q[i] == a;
      QueueFrom(g, total, addrs, avail, i);
    }
    if a in avail && a in addrs {
      var k :| 0 <= k < |addrs| && addrs[k] == a;
      var t := Listed(g, total, addrs, avail, |addrs|);
      var j := ListedTo(g, total, addrs, avail, |addrs|, k);
      var i := SortedTo(t, j);
      assert q[|t| - 1 - i] == a;
    }
  }

  predicate KeyLeq(g: Graph, total: Totals, a: int, b: int)
    requires a in g && b in g && a in total && b in total
  {
    Leq(Key(total[a], 0, g[a].name, a), Key(total[b], 0, g[b].name, b))
  }

  /** The work list is in descending order of calls, name and address. */
  lemma QueueDescends(g: Graph, total: Totals, addrs: seq<int>, avail: set<int>, i: nat, j: nat)
    requires Known(g, total) && avail <= g.Keys && i < j < |Queue(g, total, addrs, avail)|
    ensures var q := Queue(g, total, addrs, avail); q[i] in g && q[j] in g && KeyLeq(g, total, q[j], q[i])
  {
    QueueFrom(g, total, addrs, avail, i);
    QueueFrom(g, total, addrs, avail, j);
    SortSorts(Listed(g, total, addrs, avail, |addrs|));
  }

  /** Fewer calls, or as many and the earlier name, or also the same name and no higher an address. */
  ghost predicate NotAhead(g: Graph, total: Totals, a: int, b: int)
    requires a in g && b in g && a in total && b in total
  {
    || total[a] < total[b]
    || (total[a] == total[b] && g[a].name != g[b].name && NameAtMost(g[a].name, g[b].name))
    || (total[a] == total[b] && g[a].name == g[b].name && a <= b)
  }

  /** The same by calls, names and addresses themselves. */
  lemma QueueInOrder(g: Graph, total: Totals, addrs: seq<int>, avail: set<int>, i: nat, j: nat)
    requires Known(g, total) && avail <= g.Keys && i < j < |Queue(g, total, addrs, avail)|
    ensures var q := Queue(g, total, addrs, avail); q[i] in g && q[j] in g && NotAhead(g, total, q[j], q[i])
  {
    var q := Queue(g, total, addrs, avail);
    QueueDescends(g, total, addrs, avail, i, j);
    StringOrder(g[q[j]].name, g[q[i]].name);
  }

  // ---------- every function once, callees first ----------

  predicate NoDuplicates(s: seq<int>) {
    forall i, j :: 0 <= i < j < |s| ==> s[i] != s[j]
  }

  /** `out` lists what was taken from `avail`, each once. */
  ghost predicate Lists(out: seq<int>, avail: set<int>, left: set<int>) {
    && NoDuplicates(out)
    && (forall a :: a in out <==> a in avail && a !in left)
  }

  lemma Joined(avail: set<int>, a: int, inner: Placed, rest: Placed)
    requires a in avail && inner.left <= avail - {a} && rest.left <= inner.left
    requires Lists(inner.out, avail - {a}, inner.left) && Lists(rest.out, inner.left, rest.left)
    ensures Lists(inner.out + [a] + rest.out, avail, rest.left)
  {
    var out := inner.out + [a] + rest.out;
    forall x
      ensures x in out <==> x in avail && x !in rest.left
    {
      assert x in out <==> x in inner.out || x == a || x in rest.out;
    }
    forall i, j | 0 <= i < j < |out|
      ensures out[i] != out[j]
    {
      assert i < |inner.out| ==> out[i] in inner.out;
      assert j > |inner.out| ==> out[j] in rest.out;
    }
  }

  lemma {:induction false} OrderLists(g: Graph, total: Totals, l: seq<int>, avail: set<int>)
    requires Known(g, total) && avail <= g.Keys
    ensures var r := Order(g, total, l, avail);
            Lists(r.out, avail, r.left) && forall a :: a in l ==> a !in r.left
    decreases |avail|, |l|
  {
    if l != [] {
      if l[0] !in avail {
        OrderLists(g, total, l[1..], avail);
      } else {
        var less := avail - {l[0]};
        var q := Queue(g, total, Targets(g[l[0]]), less);
        var inner := Order(g, total, q, less);
        OrderLists(g, total, q, less);
        Common.SubsetSize(inner.left, less);
        OrderLists(g, total, l[1..], inner.left);
        Joined(avail, l[0], inner, Order(g, total, l[1..], inner.left));
      }
    }
  }

  /** Functions reached from a work list rank no higher than it. */
  lemma {:induction false} OrderRanks(g: Graph, total: Totals, l: seq<int>, avail: set<int>, rank: int -> nat,
                                      bound: nat)
    requires Known(g, total) && avail <= g.Keys && Acyclic(g, rank)
    requires forall a :: a in l && a in avail ==> rank(a) < bound
    ensures forall a :: a in Order(g, total, l, avail).out ==> rank(a) < bound
    decreases |avail|, |l|
  {
    if l != [] {
      if l[0] !in avail {
        OrderRanks(g, total, l[1..], avail, rank, bound);
      } else {
        var less := avail - {l[0]};
        var q := Queue(g, total, Targets(g[l[0]]), less);
        var inner := Order(g, total, q, less);
        CalleesRank(g, total, l[0], less, rank);
        OrderRanks(g, total, q, less, rank, rank(l[0]));
        Common.SubsetSize(inner.left, less);
        OrderRanks(g, total, l[1..], inner.left, rank, bound);
      }
    }
  }

  lemma CalleesRank(g: Graph, total: Totals, a: int, avail: set<int>, rank: int -> nat)
    requires Known(g, total) && avail <= g.Keys && Acyclic(g, rank) && a in g
    ensures forall b :: b in Queue(g, total, Targets(g[a]), avail) ==> rank(b) < rank(a)
  {
    forall b | b in Queue(g, total, Targets(g[a]), avail)
      ensures rank(b) < rank(a)
    {
      QueueHolds(g, total, Targets(g[a]), avail, b);
      var i :| 0 <= i < |Targets(g[a])| && Targets(g[a])[i] == b;
      assert g[a].calls[i].target == b;
    }
  }

  /** The callees of `x` that were available appear in `before`. */
  ghost predicate Covered(g: Graph, x: int, avail: set<int>, before: seq<int>) {
    x in g ==> forall k :: 0 <= k < |g[x].calls| && g[x].calls[k].target in avail ==> g[x].calls[k].target in before
  }

  ghost predicate CalleesFirst(g: Graph, out: seq<int>, avail: set<int>) {
    forall i :: 0 <= i < |out| ==> Covered(g, out[i], avail, out[..i])
  }

  lemma JoinedFirst(g: Graph, avail: set<int>, a: int, inner: Placed, rest: Placed, rank: int -> nat)
    requires Acyclic(g, rank) && a in avail && a in g
    requires Lists(inner.out, avail - {a}, inner.left)
    requires forall x :: x in inner.out ==> rank(x) < rank(a)
    requires CalleesFirst(g, inner.out, avail - {a}) && CalleesFirst(g, rest.out, inner.left)
    requires Covered(g, a, avail - {a}, inner.out)
    ensures CalleesFirst(g, inner.out + [a] + rest.out, avail)
  {
    var out := inner.out + [a] + rest.out;
    forall i | 0 <= i < |out|
      ensures Covered(g, out[i], avail, out[..i])
    {
      var n := |inner.out|;
      if i < n {
        assert out[i] in inner.out && out[..i] == inner.out[..i];
        CoveredMore(g, out[i], a, avail, inner.out[..i], rank);
      } else if i == n {
        assert out[..i] == inner.out;
        CoveredMore(g, a, a, avail, inner.out, rank);
      } else {
        CoveredRest(g, avail, a, inner, rest.out[i - n - 1], rest.out[..i - n - 1]);
        assert out[..i] == inner.out + [a] + rest.out[..i - n - 1];
      }
    }
  }

  /** Nothing that ranks below `a`, and not `a` itself, calls `a`. */
  lemma CoveredMore(g: Graph, x: int, a: int, avail: set<int>, before: seq<int>, rank: int -> nat)
    requires Acyclic(g, rank) && a in g && Covered(g, x, avail - {a}, before) && (x == a || rank(x) < rank(a))
    ensures Covered(g, x, avail, before)
  {
    if x in g {
      forall k | 0 <= k < |g[x].calls| && g[x].calls[k].target in avail
        ensures g[x].calls[k].target in before
      {
        assert g[x].calls[k].target in g ==> rank(g[x].calls[k].target) < rank(x);
      }
    }
  }

  lemma CoveredRest(g: Graph, avail: set<int>, a: int, inner: Placed, x: int, before: seq<int>)
    requires Lists(inner.out, avail - {a}, inner.left) && Covered(g, x, inner.left, before)
    ensures Covered(g, x, avail, inner.out + [a] + before)
  {
    if x in g {
      forall k | 0 <= k < |g[x].calls| && g[x].calls[k].target in avail
        ensures g[x].calls[k].target in inner.out + [a] + before
      {
        var c := g[x].calls[k].target;
        assert c in inner.left || c == a || c in inner.out;
      }
    }
  }

  lemma {:induction false} OrderCalleesFirst(g: Graph, total: Totals, l: seq<int>, avail: set<int>, rank: int -> nat)
    requires Known(g, total) && avail <= g.Keys && Acyclic(g, rank)
    ensures CalleesFirst(g, Order(g, total, l, avail).out, avail)
    decreases |avail|, |l|
  {
    if l != [] {
      if l[0] !in avail {
        OrderCalleesFirst(g, total, l[1..], avail, rank);
      } else {
        var a := l[0];
        var less := avail - {a};
        var q := Queue(g, total, Targets(g[a]), less);
        var inner := Order(g, total, q, less);
        OrderLists(g, total, q, less);
        CalleesRank(g, total, a, less, rank);
        OrderRanks(g, total, q, less, rank, rank(a));
        OrderCalleesFirst(g, total, q, less, rank);
        CalleesPlaced(g, total, a, less);
        Common.SubsetSize(inner.left, less);
        OrderCalleesFirst(g, total, l[1..], inner.left, rank);
        JoinedFirst(g, avail, a, inner, Order(g, total, l[1..], inner.left), rank);
      }
    }
  }

  /** The recursive call places every available callee. */
  lemma CalleesPlaced(g: Graph, total: Totals, a: int, avail: set<int>)
    requires Known(g, total) && avail <= g.Keys && a in g
    ensures Covered(g, a, avail, Order(g, total, Queue(g, total, Targets(g[a]), avail), avail).out)
  {
    var q := Queue(g, total, Targets(g[a]), avail);
    OrderLists(g, total, q, avail);
    forall k | 0 <= k < |g[a].calls| && g[a].calls[k].target in avail
      ensures g[a].calls[k].target in Order(g, total, q, avail).out
    {
      var c := g[a].calls[k].target;
      assert Targets(g[a])[k] == c;
      QueueHolds(g, total, Targets(g[a]), avail, c);
    }
  }

  /** Called with all addresses, the result lists every function exactly once. */
  lemma EveryFunctionOnce(g: Graph, total: Totals, addrs: seq<int>)
    requires Known(g, total) && forall a :: a in g ==> a in addrs
    ensures var r := Order(g, total, Queue(g, total, addrs, g.Keys), g.Keys);
            NoDuplicates(r.out) && (forall a :: a in r.out <==> a in g) && r.left == {}
  {
    var q := Queue(g, total, addrs, g.Keys);
    var r := Order(g, total, q, g.Keys);
    OrderLists(g, total, q, g.Keys);
    forall a | a in g
      ensures a in q
    {
      QueueHolds(g, total, addrs, g.Keys, a);
    }
  }

  /** Without cycles, every known callee stands before each of its callers. */
  lemma CalleesBeforeCallers(g: Graph, total: Totals, addrs: seq<int>, rank: int -> nat, i: nat, k: nat)
    requires Known(g, total) && Acyclic(g, rank) && forall a :: a in g ==> a in addrs
    requires var out := Order(g, total, Queue(g, total, addrs, g.Keys), g.Keys).out;
             i < |out| && out[i] in g && k < |g[out[i]].calls| && g[out[i]].calls[k].target in g
    ensures var out := Order(g, total, Queue(g, total, addrs, g.Keys), g.Keys).out;
            g[out[i]].calls[k].target in out[..i]
  {
    OrderCalleesFirst(g, total, Queue(g, total, addrs, g.Keys), g.Keys, rank);
  }

  // ---------- callers next to their callees ----------

  /** Where the calls numbered `path` lead from `a`. */
  ghost function Follow(g: Graph, a: int, path: seq<nat>): Common.Option<int>
    decreases |path|
  {
    if path == [] then Common.Some(a)
    else if a in g && path[0] < |g[a].calls| then Follow(g, g[a].calls[path[0]].target, path[1..])
    else Common.None
  }

  ghost predicate CalledFrom(g: Graph, a: int, b: int) {
    exists path :: Follow(g, a, path) == Common.Some(b)
  }

  lemma CalledThrough(g: Graph, a: int, k: nat, b: int)
    requires a in g && k < |g[a].calls| && CalledFrom(g, g[a].calls[k].target, b)
    ensures CalledFrom(g, a, b)
  {
    var path :| Follow(g, g[a].calls[k].target, path) == Common.Some(b);
    assert ([k] + path)[1..] == path;
    assert Follow(g, a, [k] + path) == Common.Some(b);
  }

  lemma {:induction false} OrderCalled(g: Graph, total: Totals, l: seq<int>, avail: set<int>, b: int) returns (i: nat)
    requires Known(g, total) && avail <= g.Keys && b in Order(g, total, l, avail).out
    ensures i < |l| && CalledFrom(g, l[i], b)
    decreases |avail|, |l|
  {
    if l[0] !in avail {
      i := OrderCalled(g, total, l[1..], avail, b);
      i := i + 1;
    } else {
      var less := avail - {l[0]};
      var q := Queue(g, total, Targets(g[l[0]]), less);
      var inner := Order(g, total, q, less);
      Common.SubsetSize(inner.left, less);
      if b in inner.out {
        var j := OrderCalled(g, total, q, less, b);
        i := 0;
        QueueHolds(g, total, Targets(g[l[0]]), less, q[j]);
        var k :| 0 <= k < |Targets(g[l[0]])| && Targets(g[l[0]])[k] == q[j];
        CalledThrough(g, l[0], k, b);
      } else if b == l[0] {
        i := 0;
        assert Follow(g, l[0], []) == Common.Some(b);
      } else {
        i := OrderCalled(g, total, l[1..], inner.left, b);
        i := i + 1;
      }
    }
  }

  /**
   * The list begins with the functions the first of the work list calls, directly or not, and then
   * that function itself.
   */
  lemma FirstBlock(g: Graph, total: Totals, addrs: seq<int>, avail: set<int>) returns (n: nat)
    requires Known(g, total) && avail <= g.Keys && Queue(g, total, addrs, avail) != []
    ensures var q := Queue(g, total, addrs, avail);
            var out := Order(g, total, q, avail).out;
            n < |out| && out[n] == q[0] && forall i :: 0 <= i < n ==> CalledFrom(g, q[0], out[i])
  {
    var l := Queue(g, total, addrs, avail);
    QueueHolds(g, total, addrs, avail, l[0]);
    var less := avail - {l[0]};
    var q := Queue(g, total, Targets(g[l[0]]), less);
    var inner, out := Order(g, total, q, less), Order(g, total, l, avail).out;
    Common.SubsetSize(inner.left, less);
    n := |inner.out|;
    forall i | 0 <= i < n
      ensures CalledFrom(g, l[0], out[i])
    {
      assert out[i] == inner.out[i];
      var j := OrderCalled(g, total, q, less, out[i]);
      QueueHolds(g, total, Targets(g[l[0]]), less, q[j]);
      var k :| 0 <= k < |Targets(g[l[0]])| && Targets(g[l[0]])[k] == q[j];
      CalledThrough(g, l[0], k, out[i]);
    }
  }
}
