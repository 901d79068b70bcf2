/**
 * The randomness of the draw-and-guess room. `Math.random()` yields a number in
 * [0, 1); the model takes it from the caller as an exact fraction, and an index
 * into a collection of `n` elements is `Math.floor(Math.random() * n)`.
 */
module Random {

  datatype Fraction = Fraction(num: nat, den: nat)

  /** One value of `Math.random()`: a fraction in [0, 1). */
  type Draw = f: Fraction | f.num < f.den witness Fraction(0, 1)

  /** `Math.floor(u * n)`: always a valid index into a collection of `n > 0` elements. */
  function Pick(u: Draw, n: nat): (k: nat)
    requires n > 0
    ensures k < n
  {
    ScaledBelow(u.num, u.den, n);
    (u.num * n) / u.den
  }

  /** Every index can come out of `Pick`: no player or word is unreachable. */
  lemma PickReaches(n: nat, k: nat)
    requires k < n
    ensures Pick(Fraction(k, n), n) == k
  {
    var q, r := (k * n) / n, (k * n) % n;
    assert k * n == n * q + r && 0 <= r < n;
    if q < k {
      MulMono(q + 1, k, n);
      assert false;
    } else if q > k {
      MulMono(k + 1, q, n);
      assert false;
    }
  }

  lemma MulMono(a: nat, b: nat, c: nat)
    requires a <= b
    ensures a * c <= b * c
  {
  }

  lemma MulStrict(a: nat, b: nat, c: nat)
    requires a < b && c > 0
    ensures a * c < b * c
  {
  }

  lemma ScaledBelow(num: nat, den: nat, n: nat)
    requires num < den && n > 0
    ensures (num * n) / den < n
  {
    var q := (num * n) / den;
    assert den * q <= num * n;
    if q >= n {
      MulMono(n, q, den);
      MulStrict(num, den, n);
      assert false;
    }
  }
}
