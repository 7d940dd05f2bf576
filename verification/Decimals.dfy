/**
 Checkpoints of decimal columns without a fraction (numeric(p, 0)): the driver gives a Decimal, its text is stored,
 and the parser makes a binary float of it (timezone_utils.py:166-171). The numbers here are below 10^16 in size, where
 a float's text gives its exact value.
 */
module Decimals {
  import opened Values
  import opened SqlText
  import opened Paging

  const TWO53 := 0x20_0000_0000_0000
  const LIMIT := 10000000000000000

  function Size(n: int): nat { if n < 0 then -n else n }

  /** The whole numbers up to LIMIT that are floats: all up to 2^53, and the even ones behind it. */
  predicate IsDouble(n: int) { Size(n) <= TWO53 || n % 2 == 0 }

  /** float(text) for the text of n: a float itself, or of its two neighbours the one whose half is even. */
  function ToDouble(n: int): (x: int) {
    if IsDouble(n) then n else 2 * (n / 2 + n / 2 % 2)
  }

  predicate HalfIsOdd(n: int) { n / 2 % 2 == 1 }

  /** An odd number lies between two even ones, and goes up to the next when its half is odd, down otherwise. */
  lemma Neighbour(n: int)
    requires !IsDouble(n)
    ensures ToDouble(n) == if HalfIsOdd(n) then n + 1 else n - 1
  {
    assert n == 2 * (n / 2) + 1;
  }

  /** No float is nearer, and of two that are as near it is twice an even number. */
  lemma ToDoubleIsNearest(n: int, x: int)
    requires Size(n) < LIMIT && Size(x) <= LIMIT && IsDouble(x)
    ensures Size(ToDouble(n) - n) <= Size(x - n)
    ensures x != ToDouble(n) && Size(ToDouble(n) - n) == Size(x - n) ==> ToDouble(n) / 2 % 2 == 0
  {
    if !IsDouble(n) {
      Neighbour(n);
      assert x != n;
      TwiceEven(n / 2);
    }
  }

  lemma TwiceEven(h: int)
    ensures (2 * (h + h % 2)) / 2 % 2 == 0
  {
    assert (2 * (h + h % 2)) / 2 == h + h % 2;
  }

  /** What the query of the next run lets through when n is the stored checkpoint. */
  function NextBound(n: int): Bound { Above(ToDouble(n)) }

  predicate Selected(n: int, v: int) { Passes(Row(0, IntV(v)), NextBound(n)) }

  /** A decimal checkpoint bounds the query by its own value exactly when it is a float: up to 2^53, or even. */
  lemma DecimalBoundIff(n: int)
    requires Size(n) < LIMIT
    ensures (forall v :: Selected(n, v) <==> v > n) <==> IsDouble(n)
  {
    if !IsDouble(n) {
      Neighbour(n);
      assert if HalfIsOdd(n) then !Selected(n, n + 1) else Selected(n, n);
    }
  }

  /** Rounded up, the checkpoint hides the next value: a row that comes with it is never selected. */
  lemma HidesNextIff(n: int)
    requires Size(n) < LIMIT
    ensures !Selected(n, n + 1) <==> !IsDouble(n) && HalfIsOdd(n)
  {
    if !IsDouble(n) { Neighbour(n); }
  }

  /** Rounded down, it lets the row it came from through again. */
  lemma RepeatsIff(n: int)
    requires Size(n) < LIMIT
    ensures Selected(n, n) <==> !IsDouble(n) && !HalfIsOdd(n)
  {
    if !IsDouble(n) { Neighbour(n); }
  }
}
