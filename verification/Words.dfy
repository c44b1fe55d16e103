/** 32-bit words as the bit writer uses them (C's uint32_t), and their bits.
    A word is a number below 2^32; shifts and `or` are defined on numbers with C's truncation,
    one bit at a time, and are then characterised by the bits of their results. */
module Words {
  const WORD_MODULUS: nat := 0x1_0000_0000

  type Word = w: nat | w < WORD_MODULUS

  type Bits = seq<bool>

  function Pow2(n: nat): (p: nat)
    ensures p >= 1
  {
    if n == 0 then 1 else 2 * Pow2(n - 1)
  }

  /** Bit k of v, bit 0 being the least significant. */
  predicate Bit(v: nat, k: nat) {
    if k == 0 then v % 2 == 1 else Bit(v / 2, k - 1)
  }

  /** C's `w << k`, truncated to 32 bits. */
  function Shl(w: Word, k: nat): Word
    decreases k, w
  {
    if k == 0 then w else Shl((2 * w) % WORD_MODULUS, k - 1)
  }

  /** C's `v >> k`. */
  function Shr(v: nat, k: nat): (r: nat)
    ensures r <= v
    decreases k, v
  {
    if k == 0 then v else Shr(v / 2, k - 1)
  }

  /** C's `a | b`. */
  function Or(a: nat, b: nat): nat
    decreases a + b
  {
    if a == 0 && b == 0 then 0
    else 2 * Or(a / 2, b / 2) + if a % 2 == 1 || b % 2 == 1 then 1 else 0
  }

  /** The low n bits of v, most significant bit first. */
  function BitsOf(v: nat, n: nat): (bits: Bits)
    ensures |bits| == n
  {
    seq(n, i requires 0 <= i < n => Bit(v, n - 1 - i))
  }

  // ----- bits of shifted and combined words

  lemma {:induction false} BitOfShr(v: nat, k: nat, j: nat)
    ensures Bit(Shr(v, k), j) == Bit(v, j + k)
    decreases k
  {
    if k > 0 {
      BitOfShr(v / 2, k - 1, j);
    }
  }

  /** Doubling moves every bit up one place; truncation to m bits' worth drops the rest. */
  lemma {:induction false} BitOfDouble(w: nat, n: nat, j: nat)
    requires j < n
    ensures Bit((2 * w) % Pow2(n), j) == (j > 0 && Bit(w, j - 1))
  {
    LowBitsKeep(2 * w, n, j);
    if j > 0 {
      assert (2 * w) / 2 == w;
    }
  }

  lemma {:induction false} LowBitsKeep(v: nat, n: nat, j: nat)
    requires j < n
    ensures Bit(v % Pow2(n), j) == Bit(v, j)
    decreases j
  {
    ModHalves(v, Pow2(n - 1));
    if j > 0 {
      LowBitsKeep(v / 2, n - 1, j - 1);
    }
  }

  lemma ModHalves(v: nat, m: nat)
    requires m >= 1
    ensures (v % (2 * m)) % 2 == v % 2
    ensures (v % (2 * m)) / 2 == (v / 2) % m
  {
    var h := v / 2;
    var q, r := h / m, h % m;
    assert h == q * m + r;
    ModUnique(v, 2 * m, q, 2 * r + v % 2);
  }

  lemma ModUnique(v: nat, d: nat, q: nat, r: nat)
    requires d >= 1 && r < d && v == q * d + r
    ensures v % d == r
  {
    var q', m := v / d, v % d;
    assert v == q' * d + m && 0 <= m < d;
    var e := q' - q;
    assert e * d == r - m by { assert e * d == q' * d - q * d; }
    MultipleGrows(e, d);
  }

  lemma MultipleGrows(e: int, d: nat)
    ensures e >= 1 ==> e * d >= d
    ensures e <= -1 ==> e * d + d <= 0
  {
    assert (e - 1) * d == e * d - d;
    assert (e + 1) * d == e * d + d;
    assert e >= 1 ==> (e - 1) * d >= 0;
    assert e <= -1 ==> (e + 1) * d <= 0;
  }

  lemma WordModulusIsPow2()
    ensures WORD_MODULUS == Pow2(32)
  {
    assert Pow2(8) == 0x100;
    assert Pow2(16) == 0x1_0000;
    assert Pow2(24) == 0x100_0000;
  }

  lemma {:induction false} BitOfShl(w: Word, k: nat, j: nat)
    requires j < 32
    ensures Bit(Shl(w, k), j) == (j >= k && Bit(w, j - k))
    decreases k
  {
    if k > 0 {
      var d := (2 * w) % WORD_MODULUS;
      WordModulusIsPow2();
      BitOfShl(d, k - 1, j);
      if j >= k - 1 {
        BitOfDouble(w, 32, j - (k - 1));
      }
    }
  }

  lemma {:induction false} BitOfOr(a: nat, b: nat, j: nat)
    ensures Bit(Or(a, b), j) == (Bit(a, j) || Bit(b, j))
    decreases j
  {
    if a == 0 && b == 0 {
      BitOfZero(j);
    } else if j > 0 {
      BitOfOr(a / 2, b / 2, j - 1);
    }
  }

  lemma {:induction false} BitOfZero(j: nat)
    ensures !Bit(0, j)
  {
    if j > 0 {
      BitOfZero(j - 1);
    }
  }

  lemma {:induction false} OrBelow(a: nat, b: nat, n: nat)
    requires a < Pow2(n) && b < Pow2(n)
    ensures Or(a, b) < Pow2(n)
    decreases n
  {
    if n > 0 && (a != 0 || b != 0) {
      OrBelow(a / 2, b / 2, n - 1);
    }
  }

  function OrWord(a: Word, b: Word): Word {
    WordModulusIsPow2();
    OrBelow(a, b, 32);
    Or(a, b)
  }

  lemma {:induction false} BitAbove(v: nat, n: nat, j: nat)
    requires v < Pow2(n) && j >= n
    ensures !Bit(v, j)
    decreases n
  {
    if n == 0 {
      BitOfZero(j);
    } else {
      BitAbove(v / 2, n - 1, j - 1);
    }
  }

  lemma {:induction false} ShrBelow(v: nat, n: nat, k: nat)
    requires v < Pow2(n + k)
    ensures Shr(v, k) < Pow2(n)
    decreases k
  {
    if k > 0 {
      ShrBelow(v / 2, n, k - 1);
    }
  }
}
