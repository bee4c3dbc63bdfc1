/** Java's 32-bit `int`: the range of its values, the wrap-around of its
    arithmetic, and the `31 * h + x` folding loop that String.hashCode,
    List.hashCode and Objects.hash are all built on. */
module JavaInt {

  const Modulus: int := 0x1_0000_0000
  const MinValue: int := -0x8000_0000
  const MaxValue: int := 0x7fff_ffff

  predicate IsInt32(x: int) {
    MinValue <= x <= MaxValue
  }

  /** A Java `int` value (also the value of a non-null `Integer`). */
  newtype int32 = x: int | IsInt32(x)

  /** The value a Java `int` holds after an operation whose exact
      mathematical result is x: the representative of x modulo 2^32 that
      lies in the `int` range. */
  function Wrap(x: int): (r: int)
    ensures IsInt32(r)
    ensures (x - r) % Modulus == 0
    ensures IsInt32(x) ==> r == x
  {
    var q := (x - MinValue) / Modulus;
    assert x - ((x - MinValue) % Modulus + MinValue) == Modulus * q;
    (x - MinValue) % Modulus + MinValue
  }

  /** Two exact results that agree modulo 2^32 leave the same `int`. */
  lemma WrapCongruent(a: int, b: int)
    requires (a - b) % Modulus == 0
    ensures Wrap(a) == Wrap(b)
  {
    var k := (a - b) / Modulus;
    assert a - MinValue == (b - MinValue) + Modulus * k;
    assert (a - MinValue) % Modulus == (b - MinValue) % Modulus;
  }

  /** The JDK's hash loop `h = 31 * h + x`, started at `seed` and wrapped to
      32 bits after every step, over the element hashes xs in order. */
  function HashFold(seed: int32, xs: seq<int>): (h: int)
    ensures IsInt32(h)
  {
    if |xs| == 0 then seed as int
    else Wrap(31 * HashFold(seed, xs[..|xs| - 1]) + xs[|xs| - 1])
  }

  /** The same polynomial over unbounded integers:
      seed * 31^n + xs[0] * 31^(n-1) + ... + xs[n-1]. */
  function Polynomial(seed: int, xs: seq<int>): int {
    if |xs| == 0 then seed
    else 31 * Polynomial(seed, xs[..|xs| - 1]) + xs[|xs| - 1]
  }

  /** One step of the loop may start from the wrapped accumulator instead
      of the exact one without changing the `int` it produces. */
  lemma StepIgnoresEarlierWrap(p: int, x: int)
    ensures Wrap(31 * Wrap(p) + x) == Wrap(31 * p + x)
  {
    var w := Wrap(p);
    var k := (p - w) / Modulus;
    assert p - w == Modulus * k;
    MultipleOfModulus((31 * p + x) - (31 * w + x), 31 * k);
    WrapCongruent(31 * p + x, 31 * w + x);
  }

  /** A multiple of 2^32 leaves no remainder. */
  lemma MultipleOfModulus(d: int, k: int)
    requires d == Modulus * k
    ensures d % Modulus == 0
  {
  }

  /** Wrapping after every step of the loop gives the exact polynomial
      reduced to 32 bits: overflow inside the loop loses nothing beyond
      what the final `int` would lose anyway. */
  lemma {:induction false} HashFoldIsPolynomialModulo(seed: int32, xs: seq<int>)
    ensures HashFold(seed, xs) == Wrap(Polynomial(seed as int, xs))
  {
    if |xs| == 0 {
      assert HashFold(seed, xs) == seed as int;
    } else {
      var prefix := xs[..|xs| - 1];
      HashFoldIsPolynomialModulo(seed, prefix);
      StepIgnoresEarlierWrap(Polynomial(seed as int, prefix), xs[|xs| - 1]);
    }
  }

  /** String.hashCode: the hash loop from 0 over the string's characters. */
  function StringHash(s: string): (h: int)
    ensures IsInt32(h)
    ensures s == [] ==> h == 0
  {
    HashFold(0, seq(|s|, i requires 0 <= i < |s| => s[i] as int))
  }

  /** Boolean.hashCode. */
  function BoolHash(b: bool): (h: int)
    ensures IsInt32(h)
    ensures b ==> h == 1231
    ensures !b ==> h == 1237
  {
    if b then 1231 else 1237
  }

  /** Objects.hash (that is, Arrays.hashCode) over the hashes of its
      arguments, a null argument contributing 0. */
  function ObjectsHash(hashes: seq<int>): (h: int)
    ensures IsInt32(h)
    ensures hashes == [] ==> h == 1
  {
    HashFold(1, hashes)
  }
}
