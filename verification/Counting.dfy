/** Counting the elements of a sequence, and the elements held in all values of a map. */
module Counting {

  function Count<T>(s: seq<T>, p: T -> bool): nat {
    if s == [] then 0 else Count(s[..|s| - 1], p) + if p(s[|s| - 1]) then 1 else 0
  }

  lemma CountSnoc<T>(s: seq<T>, x: T, p: T -> bool)
    ensures Count(s + [x], p) == Count(s, p) + if p(x) then 1 else 0
  {
    assert (s + [x])[..|s|] == s;
  }

  lemma {:induction false} CountAppend<T>(a: seq<T>, b: seq<T>, p: T -> bool)
    ensures Count(a + b, p) == Count(a, p) + Count(b, p)
  {
    if b == [] {
      assert a + b == a;
    } else {
      var n := |b| - 1;
      assert (a + b)[..|a| + n] == a + b[..n];
      CountAppend(a, b[..n], p);
    }
  }

  // A bag is a sequence from which any element may be taken.
  function Take<T>(s: seq<T>, i: nat): seq<T>
    requires i < |s|
  {
    s[..i] + s[i + 1..]
  }

  lemma CountTake<T>(s: seq<T>, i: nat, p: T -> bool)
    requires i < |s|
    ensures Count(s, p) == Count(Take(s, i), p) + if p(s[i]) then 1 else 0
  {
    hide Count;
    CountMiddle(s[..i], s[i], s[i + 1..], p);
    PartsOf(s, i);
  }

  lemma PartsOf<T>(s: seq<T>, i: nat)
    requires i < |s|
    ensures s[..i] + [s[i]] + s[i + 1..] == s
  {
  }

  lemma CountMiddle<T>(before: seq<T>, x: T, after: seq<T>, p: T -> bool)
    ensures Count(before + [x] + after, p) == Count(before + after, p) + if p(x) then 1 else 0
  {
    hide Count;
    CountAppend(before + [x], after, p);
    CountSnoc(before, x, p);
    CountAppend(before, after, p);
  }

  lemma {:induction false} CountAtMost<T>(s: seq<T>, p: T -> bool)
    ensures Count(s, p) <= |s|
    ensures (forall i :: 0 <= i < |s| ==> p(s[i])) ==> Count(s, p) == |s|
    ensures (forall i :: 0 <= i < |s| ==> !p(s[i])) ==> Count(s, p) == 0
  {
    if s != [] { CountAtMost(s[..|s| - 1], p); }
  }

  ghost function Total<K, V>(m: map<K, V>, size: V -> nat): nat {
    if m == map[] then 0
    else
      var k :| k in m;
      size(m[k]) + Total(m - {k}, size)
  }

  lemma {:induction false} TotalRemove<K, V>(m: map<K, V>, size: V -> nat, k: K)
    requires k in m
    ensures Total(m, size) == size(m[k]) + Total(m - {k}, size)
    decreases m
  {
    var j :| j in m && Total(m, size) == size(m[j]) + Total(m - {j}, size);
    if j != k {
      TotalRemove(m - {j}, size, k);
      TotalRemove(m - {k}, size, j);
      assert m - {j} - {k} == m - {k} - {j};
    }
  }

  lemma TotalPut<K, V>(m: map<K, V>, size: V -> nat, k: K, v: V)
    ensures Total(m[k := v], size) == size(v) + Total(m - {k}, size)
    ensures Total(m, size) == Total(m - {k}, size) + if k in m then size(m[k]) else 0
  {
    TotalRemove(m[k := v], size, k);
    assert m[k := v] - {k} == m - {k};
    if k in m {
      TotalRemove(m, size, k);
    } else {
      assert m - {k} == m;
    }
  }
}
