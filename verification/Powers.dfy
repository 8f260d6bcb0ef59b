/** Powers of whole numbers. */
module Powers {

  function Pow(b: nat, k: nat): nat {
    if k == 0 then 1 else b * Pow(b, k - 1)
  }

  lemma {:induction false} PowMono(b: nat, j: nat, k: nat)
    requires b > 0 && j <= k
    ensures 0 < Pow(b, j) <= Pow(b, k)
    decreases k
  {
    if j < k {
      PowMono(b, j, k - 1);
      PowGrows(b, Pow(b, k - 1));
    } else if k > 0 {
      PowMono(b, j - 1, k - 1);
    }
  }

  lemma {:induction false} PowTimes(b: nat, j: nat, k: nat)
    ensures Pow(b, j + k) == Pow(b, j) * Pow(b, k)
  {
    if j > 0 {
      PowTimes(b, j - 1, k);
      Regroup(b, Pow(b, j - 1), Pow(b, k));
    }
  }

  lemma Regroup(a: int, b: int, c: int)
    ensures a * (b * c) == (a * b) * c
  {
  }

  lemma PowGrows(b: nat, p: nat)
    requires b > 0
    ensures p <= b * p
  {
  }
}
