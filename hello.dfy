/** The integer exercises of hello.go: add, swap, split, sum and while,
    on Go's 64-bit `int` (see module GoInt). */
module Hello {
  import opened GoInt

  // ---------------------------------------------------------------- add

  /** `add(x, y)`: Go's `x + y`, which wraps modulo 2^64 on overflow. */
  function Add(x: Int64, y: Int64): (r: Int64)
    ensures (r - (x + y)) % MODULUS == 0
    ensures InRange(x + y) ==> r == x + y
  {
    Wrap(x + y)
  }

  /** Subtracting `y` again, with Go's wrapping `-`, gives back `x`, even
      when the addition overflowed. */
  lemma AddThenSubtract(x: Int64, y: Int64)
    ensures Wrap(Add(x, y) - y) == x
  {
    WrapAdd(x + y, -(y as int));
    WrapAdd(Wrap(x + y), -(y as int));
  }

  // --------------------------------------------------------------- swap

  /** `swap(x, y)`: the two strings in the other order. */
  function Swap(x: string, y: string): (r: (string, string))
    ensures multiset{r.0, r.1} == multiset{x, y}
    ensures x != y ==> r != (x, y)
  {
    (y, x)
  }

  /** Swapping twice gives back the original pair. */
  lemma SwapInvolutive(x: string, y: string)
    ensures Swap(Swap(x, y).0, Swap(x, y).1) == (x, y)
  {
  }

  // -------------------------------------------------------------- split

  /** `split(sum)` exactly as hello.go computes it: `x = sum * 4 / 9` with
      Go's wrapping `*` and truncating `/`, then `y = sum - x`. The
      subtraction never overflows, so the halves always add up to `sum`. */
  function SplitAsWritten(sum: Int64): (r: (Int64, Int64))
    ensures r.0 + r.1 == sum
  {
    SplitSubtractionFits(sum);
    var x := Quot(Wrap(sum * 4), 9);
    (x, Wrap(sum - x))
  }

  /** In SplitAsWritten, `sum - x` is always a 64-bit value: whichever way
      `sum * 4` wrapped, `x` stays close enough to `sum`. */
  lemma SplitSubtractionFits(sum: Int64)
    ensures InRange(Quot(Wrap(sum * 4), 9))
    ensures InRange(sum - Quot(Wrap(sum * 4), 9))
  {
    var w := Wrap(sum * 4);
    // MODULUS spelled out, so that the solver sees multiples of a literal
    assert MODULUS == 0x1_0000_0000_0000_0000;
    var k := (sum * 4 - w) / 0x1_0000_0000_0000_0000;
    assert sum * 4 - w == k * 0x1_0000_0000_0000_0000;
    if sum >= 0 {
      assert 0 <= k <= 2;
    } else {
      assert -2 <= k <= 0;
    }
  }

  /** For `sum = 3 * 2^61`, `sum * 4` wraps to -2^63, so the "four ninths"
      part comes out negative although `sum` is positive, and `y` exceeds
      `sum`. */
  lemma SplitAsWrittenOverflows()
    ensures SplitAsWritten(6917529027641081856)
            == (-1024819115206086200, 7942348142847168056)
    ensures Split(6917529027641081856)
            == (3074457345618258602, 3843071682022823254)
  {
  }

  /** `split(sum)` as evidently intended: `x` is four ninths of `sum`,
      truncated toward zero, computed without overflow; `y` is the rest. */
  function Split(sum: Int64): (r: (Int64, Int64))
    ensures r.0 + r.1 == sum
    ensures sum >= 0 ==> 0 <= r.0 <= r.1 && 9 * r.0 <= 4 * sum < 9 * r.0 + 9
    ensures sum < 0 ==> r.1 <= r.0 <= 0 && 9 * r.0 - 9 < 4 * sum <= 9 * r.0
  {
    var x: Int64 := Quot(sum * 4, 9);
    var y: Int64 := sum - x;
    (x, y)
  }

  /** Whenever `sum * 4` fits in 64 bits, the code as written and the
      intended split agree. */
  lemma SplitAsWrittenAgrees(sum: Int64)
    requires InRange(sum * 4)
    ensures SplitAsWritten(sum) == Split(sum)
  {
  }

  // ---------------------------------------------------------------- sum

  /** The series `1*d + 2*d + ... + n*d` that `sum` adds to `a`; empty when
      `n <= 0`. */
  function Series(d: int, n: int): int
    decreases n
  {
    if n <= 0 then 0 else Series(d, n - 1) + n * d
  }

  /** Closed form of the arithmetic series. */
  lemma {:induction false} SeriesClosedForm(d: int, n: int)
    requires n >= 0
    ensures Series(d, n) == d * (n * (n + 1) / 2)
  {
    if n > 0 {
      SeriesClosedForm(d, n - 1);
      var t := (n - 1) * n;
      assert n * (n + 1) == t + 2 * n;
      assert n * (n + 1) / 2 == t / 2 + n;
      assert d * (t / 2 + n) == d * (t / 2) + n * d;
    }
  }

  /** One pass of `sum`'s loop body keeps the accumulator equal to the
      wrapped partial series. */
  lemma SumStep(a: int, d: int, i: int)
    requires i >= 1
    ensures Wrap(Wrap(a + Series(d, i - 1)) + Wrap(i * d)) == Wrap(a + Series(d, i))
  {
    assert Series(d, i) == Series(d, i - 1) + i * d;
    WrapAdd(a + Series(d, i - 1), i * d);
  }

  /** `sum(a, d, n)`: starting from `a`, add `i * d` for `i` from 1 to `n`,
      every `*` and `+` wrapping as Go's do. The result is the series sum
      reduced to 64 bits (see SumClosedForm), and `a` itself when the loop
      body never runs. `n` must be below
      MaxInt64: at `n == MaxInt64` the counter `i` wraps before it can
      exceed `n` and the loop never ends. */
  method Sum(a: Int64, d: Int64, n: Int64) returns (r: Int64)
    requires n < MAX
    ensures r == Wrap(a + Series(d, n))
    ensures n <= 0 ==> r == a
  {
    r := a;
    var i: Int64 := 1;
    while i <= n
      invariant 1 <= i <= if n >= 1 then n + 1 else 1
      invariant r == Wrap(a + Series(d, i - 1))
      decreases n - i
    {
      SumStep(a, d, i);
      r := Wrap(r + Wrap(i * d));
      i := i + 1;
    }
  }

  /** What `sum` returns in closed form: `a + d*n*(n+1)/2` whenever that
      fits in 64 bits. */
  lemma SumClosedForm(a: Int64, d: Int64, n: Int64)
    requires n >= 0 && InRange(a + d * (n * (n + 1) / 2))
    ensures Wrap(a + Series(d, n)) == a + d * (n * (n + 1) / 2)
  {
    SeriesClosedForm(d, n);
  }

  // -------------------------------------------------------------- while

  /** `p` is 2^k for some k >= 0. */
  predicate IsPowerOfTwo(p: int)
    decreases if p > 0 then p else 0
  {
    p == 1 || (p > 1 && p % 2 == 0 && IsPowerOfTwo(p / 2))
  }

  /** Two distinct powers of two are at least a factor of two apart. */
  lemma {:induction false} PowerOfTwoGap(p: int, q: int)
    requires IsPowerOfTwo(p) && IsPowerOfTwo(q) && q < p
    ensures 2 * q <= p
    decreases p
  {
    if q > 1 {
      PowerOfTwoGap(p / 2, q / 2);
    }
  }

  /** `while(limit)`: double from 1 until the value reaches `limit`. The
      result is the smallest power of two that is at least `limit` (1 when
      `limit <= 1`). `limit` must be at most 2^62: above that the doubling
      wraps past 2^62 to a negative number and then to 0, and the loop
      never ends. */
  method While(limit: Int64) returns (p: Int64)
    requires limit <= 0x4000_0000_0000_0000
    ensures IsPowerOfTwo(p) && p >= limit
    ensures limit <= 1 ==> p == 1
    ensures p > 1 ==> p / 2 < limit
    ensures forall q :: IsPowerOfTwo(q) && q >= limit ==> p <= q
  {
    p := 1;
    while p < limit
      invariant IsPowerOfTwo(p)
      invariant p == 1 || p / 2 < limit
      decreases limit - p
    {
      p := Wrap(p + p);
    }
    forall q | IsPowerOfTwo(q) && q >= limit
      ensures p <= q
    {
      if q < p {
        PowerOfTwoGap(p, q);
      }
    }
  }
}
