/** Power-of-two detection and rounding up, as the texture loader uses them to
    decide whether, and to what size, an image must be upsampled. */
module PowerOfTwo {

  /** 2 raised to the power `k`. */
  function Pow2(k: nat): (r: nat)
    ensures r >= 1
  {
    if k == 0 then 1 else 2 * Pow2(k - 1)
  }

  /** Reference definition: `n` is 2^k for some k. */
  ghost predicate IsPow2(n: nat)
  {
    exists k: nat :: Pow2(k) == n
  }

  /** Bitwise AND of two non-negative integers, bit by bit from the lowest. */
  function BitAnd(a: nat, b: nat): nat
  {
    if a == 0 || b == 0 then 0
    else (if a % 2 == 1 && b % 2 == 1 then 1 else 0) + 2 * BitAnd(a / 2, b / 2)
  }

  /** The loader's test `x != 0 && !(x & (x - 1))` on a surface dimension. */
  predicate IsPowerOfTwo(x: nat)
  {
    x != 0 && BitAnd(x, x - 1) == 0
  }

  lemma {:induction false} BitAndSelf(m: nat)
    ensures BitAnd(m, m) == m
  {
    if m != 0 {
      BitAndSelf(m / 2);
    }
  }

  lemma {:induction false} Pow2Even(k: nat)
    requires k >= 1
    ensures Pow2(k) % 2 == 0
  {
  }

  /** Halving: an even number is a power of two exactly when its half is. */
  lemma {:induction false} IsPow2Double(m: nat)
    requires m >= 1
    ensures IsPow2(2 * m) <==> IsPow2(m)
  {
    if IsPow2(2 * m) {
      var k: nat :| Pow2(k) == 2 * m;
      assert k >= 1;
      assert Pow2(k - 1) == m;
    }
    if IsPow2(m) {
      var k: nat :| Pow2(k) == m;
      assert Pow2(k + 1) == 2 * m;
    }
  }

  /** The bit trick is exact: it holds precisely for 1, 2, 4, 8, ... */
  lemma {:induction false} IsPowerOfTwoExact(x: nat)
    ensures IsPowerOfTwo(x) <==> IsPow2(x)
    decreases x
  {
    if x == 0 {
      assert !IsPow2(0) by {
        forall k: nat ensures Pow2(k) != 0 { }
      }
    } else if x == 1 {
      assert Pow2(0) == 1;
    } else if x % 2 == 0 {
      var m := x / 2;
      assert BitAnd(x, x - 1) == 2 * BitAnd(m, m - 1);
      IsPowerOfTwoExact(m);
      IsPow2Double(m);
    } else {
      var m := x / 2;
      assert BitAnd(x, x - 1) == 2 * BitAnd(m, m);
      BitAndSelf(m);
      assert !IsPow2(x) by {
        forall k: nat ensures Pow2(k) != x {
          if k >= 1 { Pow2Even(k); }
        }
      }
    }
  }

  /** The smallest power of two that is at least `n` (1 for n = 0). */
  function NextPow2(n: nat): nat
    decreases n
  {
    if n <= 1 then 1 else 2 * NextPow2((n + 1) / 2)
  }

  lemma {:induction false} Pow2Monotone(a: nat, b: nat)
    requires a <= b
    ensures Pow2(a) <= Pow2(b)
    decreases b
  {
    if a < b { Pow2Monotone(a, b - 1); }
  }

  /** Between two powers of two there is at least a factor of two. */
  lemma {:induction false} Pow2Gap(a: nat, b: nat)
    requires Pow2(a) < Pow2(b)
    ensures 2 * Pow2(a) <= Pow2(b)
  {
    if b <= a {
      Pow2Monotone(b, a);
    } else {
      Pow2Monotone(a + 1, b);
    }
  }

  /** NextPow2(n) is a power of two, is at least n, and no power of two at
      least n is smaller. */
  lemma {:induction false} NextPow2IsLeast(n: nat)
    ensures IsPow2(NextPow2(n)) && n <= NextPow2(n)
    ensures forall k: nat :: n <= Pow2(k) ==> NextPow2(n) <= Pow2(k)
    decreases n
  {
    if n <= 1 {
      assert Pow2(0) == 1;
    } else {
      var h := (n + 1) / 2;
      NextPow2IsLeast(h);
      var j: nat :| Pow2(j) == NextPow2(h);
      assert Pow2(j + 1) == NextPow2(n);
      forall k: nat | n <= Pow2(k)
        ensures NextPow2(n) <= Pow2(k)
      {
        assert k >= 1;
        assert h <= Pow2(k - 1);
      }
    }
  }

  /** A power of two is its own round-up, and only a power of two is. */
  lemma {:induction false} NextPow2Fixed(n: nat)
    requires n >= 1
    ensures NextPow2(n) == n <==> IsPow2(n)
  {
    NextPow2IsLeast(n);
    if IsPow2(n) {
      var k: nat :| Pow2(k) == n;
    }
  }

  /** The loader's rounding loop `for (wu = 1; wu < w; wu = wu * 2);`. */
  method RoundUpToPowerOfTwo(n: nat) returns (r: nat)
    ensures r == NextPow2(n)
  {
    NextPow2IsLeast(n);
    var j: nat :| Pow2(j) == NextPow2(n);
    r := 1;
    ghost var k: nat := 0;
    while r < n
      invariant r == Pow2(k) && r <= NextPow2(n)
      decreases NextPow2(n) - r
    {
      Pow2Gap(k, j);
      r := r * 2;
      k := k + 1;
    }
  }
}
