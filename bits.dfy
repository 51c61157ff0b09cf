/**
 * Python's unbounded integers seen as infinite two's-complement bit strings.
 * Split bitmasks are plain Python ints, so `1 << n`, `>>`, `~`, `&` and `|` are
 * written out here over Dafny's unbounded `int`. Dafny's `/` and `%` by the
 * positive constant 2 are floor division and a non-negative remainder, which is
 * exactly Python's `x >> 1` and `x & 1`, negative `x` included.
 */
module Bits {

  /** `1 << n`. */
  function Pow2(n: nat): (r: nat)
    ensures r >= 1
  {
    if n == 0 then 1 else 2 * Pow2(n - 1)
  }

  /** `x >> k`: k floor-halvings. */
  function Shr(x: int, k: nat): int
  {
    if k == 0 then x else Shr(x, k - 1) / 2
  }

  /** Bit k of x: `(x >> k) & 1 == 1`. */
  predicate BitSet(x: int, k: nat)
  {
    Shr(x, k) % 2 == 1
  }

  /** `~x`. */
  function Not(x: int): int
  {
    -x - 1
  }

  /** `x & y` where the mask operand y is non-negative (as `all_taxa_bitmask()` always is). */
  function And(x: int, y: int): (r: int)
    requires y >= 0
    ensures 0 <= r <= y
    decreases y
  {
    if y == 0 then 0
    else 2 * And(x / 2, y / 2) + (if x % 2 == 1 && y % 2 == 1 then 1 else 0)
  }

  /** How far x is from the two fixed points 0 and -1 of `x >> 1`: the length of its bit string. */
  function Size(x: int): nat
  {
    if x < 0 then Not(x) else x
  }

  /** `x | y`. */
  function Or(x: int, y: int): (r: int)
    ensures x >= 0 && y >= 0 ==> r >= x && r >= y
    ensures x < 0 || y < 0 ==> r < 0
    decreases Size(x) + Size(y)
  {
    if (x == 0 || x == -1) && (y == 0 || y == -1) then (if x == -1 || y == -1 then -1 else 0)
    else 2 * Or(x / 2, y / 2) + (if x % 2 == 1 || y % 2 == 1 then 1 else 0)
  }

  /** Halving `2 * q + b` for a bit b: `>> 1` gives q back and `& 1` gives b. */
  lemma Halve(q: int, b: int)
    requires b == 0 || b == 1
    ensures (2 * q + b) / 2 == q && (2 * q + b) % 2 == b
  {
  }

  lemma {:induction false} ShrStep(x: int, k: nat)
    ensures Shr(x, k + 1) == Shr(x / 2, k)
  {
    if k > 0 {
      ShrStep(x, k - 1);
    }
  }

  /** Bit k+1 of x is bit k of `x >> 1`. */
  lemma BitSetStep(x: int, k: nat)
    ensures BitSet(x, k + 1) == BitSet(x / 2, k)
  {
    ShrStep(x, k);
  }

  lemma {:induction false} ZeroHasNoBits(k: nat)
    ensures !BitSet(0, k)
  {
    if k > 0 {
      BitSetStep(0, k - 1);
      ZeroHasNoBits(k - 1);
    }
  }

  /** `1 << n` has exactly bit n set. */
  lemma {:induction false} Pow2Bits(n: nat, k: nat)
    ensures BitSet(Pow2(n), k) <==> k == n
  {
    if k > 0 {
      BitSetStep(Pow2(n), k - 1);
      if n == 0 {
        ZeroHasNoBits(k - 1);
      } else {
        Pow2Bits(n - 1, k - 1);
      }
    }
  }

  /** `(1 << n) - 1` has exactly the bits 0 .. n-1 set. */
  lemma {:induction false} AllOnesBits(n: nat, k: nat)
    ensures BitSet(Pow2(n) - 1, k) <==> k < n
  {
    if n == 0 {
      ZeroHasNoBits(k);
    } else {
      assert Pow2(n) - 1 == 2 * (Pow2(n - 1) - 1) + 1;
      Halve(Pow2(n - 1) - 1, 1);
      if k > 0 {
        BitSetStep(Pow2(n) - 1, k - 1);
        AllOnesBits(n - 1, k - 1);
      }
    }
  }

  /** `~x` flips every bit of x. */
  lemma {:induction false} NotBits(x: int, k: nat)
    ensures BitSet(Not(x), k) <==> !BitSet(x, k)
    decreases k
  {
    if k > 0 {
      BitSetStep(Not(x), k - 1);
      BitSetStep(x, k - 1);
      assert Not(x) / 2 == Not(x / 2);
      NotBits(x / 2, k - 1);
    }
  }

  /** `x & y` has exactly the bits that x and y share. */
  lemma {:induction false} AndBits(x: int, y: int, k: nat)
    requires y >= 0
    ensures BitSet(And(x, y), k) <==> BitSet(x, k) && BitSet(y, k)
    decreases y
  {
    if y == 0 {
      ZeroHasNoBits(k);
    } else if k > 0 {
      BitSetStep(And(x, y), k - 1);
      BitSetStep(x, k - 1);
      BitSetStep(y, k - 1);
      AndBits(x / 2, y / 2, k - 1);
    }
  }

  /** -1 has every bit set. */
  lemma {:induction false} MinusOneBits(k: nat)
    ensures BitSet(-1, k)
  {
    if k > 0 {
      BitSetStep(-1, k - 1);
      MinusOneBits(k - 1);
    }
  }

  /** Away from the fixed points, `(x | y) >> 1 == (x >> 1) | (y >> 1)` and the low bit is the or of the low bits. */
  lemma OrStep(x: int, y: int)
    requires !((x == 0 || x == -1) && (y == 0 || y == -1))
    ensures Or(x, y) / 2 == Or(x / 2, y / 2)
    ensures Or(x, y) % 2 == 1 <==> x % 2 == 1 || y % 2 == 1
  {
    var b := if x % 2 == 1 || y % 2 == 1 then 1 else 0;
    assert Or(x, y) == 2 * Or(x / 2, y / 2) + b;
    Halve(Or(x / 2, y / 2), b);
  }

  /** `x | y` has exactly the bits that x or y has. */
  lemma {:induction false} OrBits(x: int, y: int, k: nat)
    ensures BitSet(Or(x, y), k) <==> BitSet(x, k) || BitSet(y, k)
    decreases Size(x) + Size(y)
  {
    if (x == 0 || x == -1) && (y == 0 || y == -1) {
      ZeroHasNoBits(k);
      MinusOneBits(k);
    } else {
      OrStep(x, y);
      if k > 0 {
        BitSetStep(Or(x, y), k - 1);
        BitSetStep(x, k - 1);
        BitSetStep(y, k - 1);
        OrBits(x / 2, y / 2, k - 1);
      }
    }
  }

  /** A non-negative integer is determined by its bits. */
  lemma {:induction false} BitsDetermine(x: int, y: int)
    requires x >= 0 && y >= 0
    requires forall k: nat :: BitSet(x, k) == BitSet(y, k)
    ensures x == y
    decreases x + y
  {
    if x != 0 || y != 0 {
      forall k: nat ensures BitSet(x / 2, k) == BitSet(y / 2, k) {
        BitSetStep(x, k);
        BitSetStep(y, k);
      }
      BitsDetermine(x / 2, y / 2);
      assert BitSet(x, 0) == BitSet(y, 0);
    }
  }

  /** A value below `1 << n` has no bit at position n or above. */
  lemma {:induction false} BelowPow2Bits(x: int, n: nat, k: nat)
    requires 0 <= x < Pow2(n) && k >= n
    ensures !BitSet(x, k)
  {
    if n == 0 {
      ZeroHasNoBits(k);
    } else {
      BitSetStep(x, k - 1);
      BelowPow2Bits(x / 2, n - 1, k - 1);
    }
  }

  /** A positive value has some bit set. */
  lemma {:induction false} PositiveHasBit(x: int) returns (k: nat)
    requires x > 0
    ensures BitSet(x, k)
  {
    if x % 2 == 1 {
      k := 0;
    } else {
      var j := PositiveHasBit(x / 2);
      BitSetStep(x, j);
      k := j + 1;
    }
  }
}
