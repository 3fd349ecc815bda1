/** Result types and arithmetic shared by the other modules. */
module Common {

  datatype Option<+T> = None | Some(value: T)

  datatype Result<+T, +E> = Ok(value: T) | Err(error: E)

  type Byte = x: int | 0 <= x < 0x100
  type Half = x: int | 0 <= x < 0x1_0000

  lemma MulAtLeast(k: int, d: int)
    requires 1 <= k && 0 < d
    ensures d <= k * d
  {
    assert k * d == (k - 1) * d + d;
  }

  /** Quotient and remainder are determined by their defining equation. */
  lemma DivModUnique(n: int, d: int, q: int, r: int)
    requires 0 < d && n == q * d + r && 0 <= r < d
    ensures n / d == q && n % d == r
  {
    var p := n / d;
    assert n == d * p + n % d;
    assert d * p == p * d;
    assert (p - q) * d == p * d - q * d && (q - p) * d == q * d - p * d;
    if p > q {
      MulAtLeast(p - q, d);
    } else if p < q {
      MulAtLeast(q - p, d);
    }
  }

  lemma MulAssociative(a: int, b: int, c: int)
    ensures a * (b * c) == (a * b) * c
  {
  }

  /** Adding a multiple of the divisor leaves the remainder alone. */
  lemma ModShift(q: int, d: int, x: int)
    requires 0 < d
    ensures (q * d + x) % d == x % d
  {
    assert q * d + x == (q + x / d) * d + x % d;
    DivModUnique(q * d + x, d, q + x / d, x % d);
  }

  lemma {:induction false} SubsetSize<T>(a: set<T>, b: set<T>)
    requires forall x :: x in a ==> x in b
    ensures |a| <= |b|
  {
    if a != {} {
      var x :| x in a;
      SubsetSize(a - {x}, b - {x});
    }
  }

  /** `2 ** k` */
  function Pow2(k: nat): (r: nat)
    ensures 1 <= r
  {
    if k == 0 then 1 else 2 * Pow2(k - 1)
  }
}

/** Python's stable `list.sort` on tuples, as insertion sort. */
module Sorting {

  /** A sort key: the tuples the sources sort, compared left to right. */
  datatype Key = Key(major: int, minor: int, name: string, addr: int)

  predicate StringLeq(s: string, t: string) {
    s == [] || (t != [] && (s[0] < t[0] || (s[0] == t[0] && StringLeq(s[1..], t[1..]))))
  }

  predicate Leq(k: Key, l: Key) {
    k.major < l.major || (k.major == l.major &&
    (k.minor < l.minor || (k.minor == l.minor &&
    (if k.name != l.name then StringLeq(k.name, l.name) else k.addr <= l.addr))))
  }

  lemma {:induction false} StringTotal(s: string, t: string)
    ensures StringLeq(s, t) || StringLeq(t, s)
  {
    if s != [] && t != [] && s[0] == t[0] {
      StringTotal(s[1..], t[1..]);
    }
  }

  lemma {:induction false} StringAntisymmetric(s: string, t: string)
    requires StringLeq(s, t) && StringLeq(t, s)
    ensures s == t
  {
    if s != [] && t != [] {
      StringAntisymmetric(s[1..], t[1..]);
      assert s == [s[0]] + s[1..] && t == [t[0]] + t[1..];
    }
  }

  lemma {:induction false} StringTransitive(s: string, t: string, u: string)
    requires StringLeq(s, t) && StringLeq(t, u)
    ensures StringLeq(s, u)
  {
    if s != [] && t != [] && u != [] && s[0] == t[0] == u[0] {
      StringTransitive(s[1..], t[1..], u[1..]);
    }
  }

  /** `s` is a prefix of `t`, or smaller at their first difference. */
  ghost predicate NameAtMost(s: string, t: string) {
    s <= t || exists k :: 0 <= k < |s| && k < |t| && s[..k] == t[..k] && s[k] < t[k]
  }

  lemma {:induction false} StringOrder(s: string, t: string)
    ensures StringLeq(s, t) <==> NameAtMost(s, t)
  {
    if s != [] && t != [] {
      StringOrder(s[1..], t[1..]);
      if s[0] == t[0] {
        LongerName(s[0], s[1..], t[1..]);
        assert s == [s[0]] + s[1..] && t == [t[0]] + t[1..];
      } else {
        FirstDecides(s, t);
      }
    }
  }

  lemma FirstDecides(s: string, t: string)
    requires s != [] && t != [] && s[0] != t[0]
    ensures NameAtMost(s, t) <==> s[0] < t[0]
  {
    assert s[..0] == t[..0];
    forall k | 0 < k < |s| && k < |t|
      ensures s[..k] != t[..k]
    {
      assert s[..k][0] == s[0] && t[..k][0] == t[0];
    }
  }

  lemma LongerName(x: char, s: string, t: string)
    ensures NameAtMost([x] + s, [x] + t) <==> NameAtMost(s, t)
  {
    var s', t' := [x] + s, [x] + t;
    assert s'[1..] == s && t'[1..] == t;
    if k :| 0 <= k < |s| && k < |t| && s[..k] == t[..k] && s[k] < t[k] {
      assert s'[..k + 1] == [x] + s[..k] && t'[..k + 1] == [x] + t[..k];
      assert s'[k + 1] < t'[k + 1];
    }
    if k :| 0 <= k < |s'| && k < |t'| && s'[..k] == t'[..k] && s'[k] < t'[k] {
      assert s[..k - 1] == s'[..k][1..] && t[..k - 1] == t'[..k][1..];
      assert s[k - 1] < t[k - 1];
    }
    if s' <= t' {
      assert t'[..|s'|][1..] == s;
    }
    if s <= t {
      assert t'[..|s'|] == [x] + t[..|s|];
    }
  }

  lemma Total(k: Key, l: Key)
    ensures Leq(k, l) || Leq(l, k)
  {
    StringTotal(k.name, l.name);
  }

  lemma Transitive(k: Key, l: Key, m: Key)
    requires Leq(k, l) && Leq(l, m)
    ensures Leq(k, m)
  {
    if k.major == l.major == m.major && k.minor == l.minor == m.minor {
      if k.name != l.name && l.name != m.name {
        StringTransitive(k.name, l.name, m.name);
        if k.name == m.name {
          StringAntisymmetric(k.name, l.name);
        }
      }
    }
  }

  type Keyed<T> = (Key, T)

  ghost predicate Sorted<T>(s: seq<Keyed<T>>) {
    forall i, j :: 0 <= i < j < |s| ==> Leq(s[i].0, s[j].0)
  }

  /** Insert `x` behind every element whose key is not larger. */
  function Insert<T>(s: seq<Keyed<T>>, x: Keyed<T>): (r: seq<Keyed<T>>)
    ensures |r| == |s| + 1
  {
    if s == [] then [x]
    else if Leq(s[|s| - 1].0, x.0) then s + [x]
    else Insert(s[..|s| - 1], x) + [s[|s| - 1]]
  }

  function Sort<T>(s: seq<Keyed<T>>): (r: seq<Keyed<T>>)
    ensures |r| == |s|
  {
    if s == [] then [] else Insert(Sort(s[..|s| - 1]), s[|s| - 1])
  }

  lemma {:induction false} InsertPermutes<T>(s: seq<Keyed<T>>, x: Keyed<T>)
    ensures multiset(Insert(s, x)) == multiset(s) + multiset{x}
  {
    if s != [] {
      assert s == s[..|s| - 1] + [s[|s| - 1]];
      InsertPermutes(s[..|s| - 1], x);
    }
  }

  lemma {:induction false} InsertSorted<T>(s: seq<Keyed<T>>, x: Keyed<T>)
    requires Sorted(s)
    ensures Sorted(Insert(s, x))
  {
    var n := |s|;
    if n > 0 {
      var last := s[n - 1];
      if Leq(last.0, x.0) {
        forall i | 0 <= i < n
          ensures Leq(s[i].0, x.0)
        {
          if i < n - 1 {
            Transitive(s[i].0, last.0, x.0);
          }
        }
      } else {
        Total(last.0, x.0);
        InsertSorted(s[..n - 1], x);
        InsertPermutes(s[..n - 1], x);
        var r := Insert(s[..n - 1], x);
        forall i | 0 <= i < |r|
          ensures Leq(r[i].0, last.0)
        {
          assert r[i] in multiset(r);
          assert r[i] == x || r[i] in s[..n - 1];
        }
      }
    }
  }

  /** `Sort` returns the elements of its input in ascending key order. */
  lemma SortSorts<T>(s: seq<Keyed<T>>)
    ensures Sorted(Sort(s)) && multiset(Sort(s)) == multiset(s)
  {
    SortOrders(s);
    SortPermutes(s);
  }

  lemma {:induction false} SortOrders<T>(s: seq<Keyed<T>>)
    ensures Sorted(Sort(s))
  {
    if s != [] {
      SortOrders(s[..|s| - 1]);
      InsertSorted(Sort(s[..|s| - 1]), s[|s| - 1]);
    }
  }

  lemma {:induction false} SortPermutes<T>(s: seq<Keyed<T>>)
    ensures multiset(Sort(s)) == multiset(s)
  {
    if s != [] {
      SortPermutes(s[..|s| - 1]);
      InsertPermutes(Sort(s[..|s| - 1]), s[|s| - 1]);
      LastApart(s);
    }
  }

  lemma LastApart<T>(s: seq<Keyed<T>>)
    requires s != []
    ensures multiset(s) == multiset(s[..|s| - 1]) + multiset{s[|s| - 1]}
  {
    assert s == s[..|s| - 1] + [s[|s| - 1]];
  }

  /** Every sorted element comes from the input, and every input element is kept. */
  lemma SortedFrom<T>(t: seq<Keyed<T>>, i: nat) returns (j: nat)
    requires i < |t|
    ensures j < |t| && Sort(t)[i] == t[j]
  {
    SortSorts(t);
    assert Sort(t)[i] in multiset(t);
    assert Sort(t)[i] in t;
    j :| 0 <= j < |t| && t[j] == Sort(t)[i];
  }

  lemma SortedTo<T>(t: seq<Keyed<T>>, j: nat) returns (i: nat)
    requires j < |t|
    ensures i < |t| && Sort(t)[i] == t[j]
  {
    SortSorts(t);
    assert t[j] in multiset(Sort(t));
    assert t[j] in Sort(t);
    i :| 0 <= i < |t| && Sort(t)[i] == t[j];
  }

  /** Where an insertion goes: behind what is not larger, in front of what is. */
  lemma {:induction false} InsertAt<T>(s: seq<Keyed<T>>, x: Keyed<T>) returns (p: nat)
    ensures p <= |s| && Insert(s, x) == s[..p] + [x] + s[p..]
    ensures forall i :: p <= i < |s| ==> !Leq(s[i].0, x.0)
  {
    p := |s|;
    if s != [] && !Leq(s[|s| - 1].0, x.0) {
      p := InsertAt(s[..|s| - 1], x);
      assert s == s[..|s| - 1] + [s[|s| - 1]];
    }
  }

  /** The sort is stable: elements with equal keys keep their order. */
  lemma {:induction false} SortStable<T>(t: seq<Keyed<T>>, a: nat, b: nat) returns (i: nat, j: nat)
    requires a < b < |t|
    ensures i < |t| && j < |t| && i != j && Sort(t)[a] == t[i] && Sort(t)[b] == t[j]
    ensures t[i].0 == t[j].0 ==> i < j
  {
    var n := |t| - 1;
    var s := Sort(t[..n]);
    var p := InsertAt(s, t[n]);
    if a == p {
      i := n;
      j := SortedFrom(t[..n], b - 1);
      assert Sort(t)[b] == s[b - 1] && Leq(t[n].0, t[n].0);
    } else if b == p {
      i := SortedFrom(t[..n], a);
      j := n;
      assert Sort(t)[a] == s[a];
    } else {
      var a', b' := if a < p then a else a - 1, if b < p then b else b - 1;
      i, j := SortStable(t[..n], a', b');
      assert Sort(t)[a] == s[a'] && Sort(t)[b] == s[b'];
    }
  }

  lemma OnceInSeq<T>(s: seq<T>, k: nat)
    requires k < |s| && forall i :: 0 <= i < |s| && i != k ==> s[i] != s[k]
    ensures multiset(s)[s[k]] == 1
  {
    assert s == s[..k] + [s[k]] + s[k + 1..];
    assert s[k] !in s[..k] && s[k] !in s[k + 1..];
  }

  lemma TwiceInSeq<T>(s: seq<T>, i: nat, j: nat)
    requires i < j < |s| && s[i] == s[j]
    ensures multiset(s)[s[i]] >= 2
  {
    assert s == s[..i] + [s[i]] + s[i + 1..j] + [s[j]] + s[j + 1..];
  }

  /** An element the sort lists twice was in the input twice. */
  lemma SortedTwice<T>(t: seq<Keyed<T>>, i: nat, j: nat) returns (k: nat, l: nat)
    requires i < j < |t| && Sort(t)[i] == Sort(t)[j]
    ensures k < l < |t| && t[k] == t[l] == Sort(t)[i]
  {
    SortSorts(t);
    TwiceInSeq(Sort(t), i, j);
    var m := SortedFrom(t, i);
    if forall n :: 0 <= n < |t| && n != m ==> t[n] != t[m] {
      OnceInSeq(t, m);
    }
    var n :| 0 <= n < |t| && n != m && t[n] == t[m];
    k, l := if m < n then m else n, if m < n then n else m;
  }
}
