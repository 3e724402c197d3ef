/** Numbers as bit-vectors, most significant bit first. */
module Binary {
  import opened Terms

  function Pow2(n: nat): (r: nat)
    ensures r > 0
  {
    if n == 0 then 1 else 2 * Pow2(n - 1)
  }

  /** The lowest `width` bits of `n`. */
  function Bin(n: nat, width: nat): (b: Bits)
    ensures |b| == width
  {
    if width == 0 then [] else Bin(n / 2, width - 1) + [n % 2 == 1]
  }

  lemma {:induction false} BinInjective(n: nat, m: nat, width: nat)
    requires n < Pow2(width) && m < Pow2(width) && Bin(n, width) == Bin(m, width)
    ensures n == m
  {
    if width > 0 {
      var a, b := Bin(n / 2, width - 1), Bin(m / 2, width - 1);
      var x, y := Bin(n, width), Bin(m, width);
      assert x[..width - 1] == a && y[..width - 1] == b && x[width - 1] == (n % 2 == 1) && y[width - 1] == (m % 2 == 1);
      BinInjective(n / 2, m / 2, width - 1);
    }
  }

  lemma {:induction false} WidthFits(n: nat)
    ensures n < Pow2(n)
  {
    if n > 0 {
      WidthFits(n - 1);
    }
  }
}
