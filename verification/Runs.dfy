/** Sequences laid end to end, and slices of sequences. */
module Runs {

  function Concat<T>(parts: seq<seq<T>>): seq<T> {
    if parts == [] then [] else Concat(parts[..|parts| - 1]) + parts[|parts| - 1]
  }

  lemma ConcatNone<T>()
    ensures Concat<T>([]) == []
  {
  }

  lemma ConcatOneMore<T>(parts: seq<seq<T>>, part: seq<T>)
    ensures Concat(parts + [part]) == Concat(parts) + part
  {
    assert (parts + [part])[..|parts|] == parts;
  }

  lemma ConcatUpTo<T>(parts: seq<seq<T>>, k: nat)
    requires k < |parts|
    ensures Concat(parts[..k + 1]) == Concat(parts[..k]) + parts[k]
  {
    assert parts[..k + 1][..k] == parts[..k];
  }

  lemma {:induction false} ConcatPrefix<T>(parts: seq<seq<T>>, k: nat)
    requires k <= |parts|
    ensures Concat(parts[..k]) <= Concat(parts)
  {
    if k < |parts| {
      var n := |parts| - 1;
      ConcatPrefix(parts[..n], k);
      assert parts[..n][..k] == parts[..k];
    } else {
      assert parts[..k] == parts;
    }
  }

  // Part k starts where the parts before it end.
  lemma ConcatAt<T>(parts: seq<seq<T>>, k: nat)
    requires k < |parts|
    ensures |Concat(parts[..k])| + |parts[k]| <= |Concat(parts)|
    ensures Concat(parts)[|Concat(parts[..k])|..|Concat(parts[..k])| + |parts[k]|] == parts[k]
  {
    var upTo, before := parts[..k + 1], Concat(parts[..k]);
    assert upTo[..k] == parts[..k];
    assert Concat(upTo) == before + parts[k];
    ConcatPrefix(parts, k + 1);
    assert Concat(parts)[|before|..|Concat(upTo)|] == Concat(upTo)[|before|..];
  }

  lemma {:induction false} ConcatAppend<T>(a: seq<seq<T>>, b: seq<seq<T>>)
    ensures Concat(a + b) == Concat(a) + Concat(b)
  {
    if b == [] {
      assert a + b == a;
    } else {
      var n := |b| - 1;
      ConcatAppend(a, b[..n]);
      assert (a + b)[..|a| + n] == a + b[..n];
    }
  }

  lemma {:induction false} ConcatLength<T>(parts: seq<seq<T>>, len: nat)
    requires forall i :: 0 <= i < |parts| ==> |parts[i]| == len
    ensures |Concat(parts)| == len * |parts|
  {
    if parts != [] {
      var n := |parts| - 1;
      ConcatLength(parts[..n], len);
      assert len * (n + 1) == len * n + len;
    }
  }

  lemma {:induction false} PlaceInRun(len: nat, n: nat, k: nat, i: nat)
    requires k < n && i < len
    ensures len * k + i < len * n
  {
    assert len * n == len * (n - 1) + len;
    if k < n - 1 {
      PlaceInRun(len, n - 1, k, i);
    }
  }

  // In a run of equally long parts, element i of part k.
  lemma ConcatElement<T>(parts: seq<seq<T>>, len: nat, k: nat, i: nat)
    requires k < |parts| && i < len && forall j :: 0 <= j < |parts| ==> |parts[j]| == len
    ensures |Concat(parts)| == len * |parts| && len * k + i < len * |parts|
    ensures Concat(parts)[len * k + i] == parts[k][i]
  {
    PlaceInRun(len, |parts|, k, i);
    hide Concat;
    ConcatLength(parts, len);
    ConcatLength(parts[..k], len);
    ConcatAt(parts, k);
    assert Concat(parts)[len * k..len * k + len][i] == parts[k][i];
  }

  lemma SliceOfFront<T>(a: seq<T>, b: seq<T>, lo: nat, hi: nat)
    requires lo <= hi <= |a|
    ensures (a + b)[lo..hi] == a[lo..hi]
  {
  }

  lemma SliceOfBack<T>(a: seq<T>, b: seq<T>, lo: nat, hi: nat)
    requires lo <= hi <= |b|
    ensures (a + b)[|a| + lo..|a| + hi] == b[lo..hi]
  {
  }

  lemma SliceOfSlice<T>(s: seq<T>, at: nat, len: nat, lo: nat, hi: nat)
    requires at + len <= |s| && lo <= hi <= len
    ensures s[at + lo..at + hi] == s[at..at + len][lo..hi]
  {
    var a, m := s[at + lo..at + hi], s[at..at + len];
    forall j | 0 <= j < hi - lo ensures a[j] == m[lo..hi][j] {
      assert m[lo..hi][j] == m[lo + j] == s[at + (lo + j)];
    }
  }
}
