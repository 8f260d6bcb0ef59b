/** Division of whole numbers that rounds down. */
module Division {

  // A number's quotient reaches k exactly when the number reaches k times the divisor.
  lemma FloorBound(v: int, size: int, k: int)
    requires size >= 1
    ensures k <= v / size <==> size * k <= v
  {
    var q := v / size;
    assert size * q <= v < size * q + size;
    if k <= q {
      assert size * k <= size * q;
    } else {
      assert size * k >= size * (q + 1);
    }
  }

  lemma Quotient(v: int, size: int, q: int, r: int)
    requires size >= 1 && v == size * q + r && 0 <= r < size
    ensures v / size == q
  {
    FloorBound(v, size, q);
    FloorBound(v, size, q + 1);
  }

  // Quotient and remainder are the only way to write a number as a multiple plus less than the divisor.
  lemma DivMod(v: int, size: int, q: int, r: int)
    requires size >= 1 && 0 <= r < size
    ensures v == size * q + r <==> q == v / size && r == v % size
  {
    if v == size * q + r {
      Quotient(v, size, q, r);
    }
  }
}
