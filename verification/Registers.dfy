/**
 A 32-bit shift register of which the low `n` bits are in use, most significant first: bits
 enter at the bottom by shifting left and leave at the top.
 */
module Registers {
  import opened Bits

  const WORD := 0x1_0000_0000

  function Quotient(v: nat, p: nat): nat
    requires p > 0
  {
    v / p
  }

  /** Shift right. */
  function Shr(v: nat, n: nat): nat
  {
    Quotient(v, Pow2(n))
  }

  /** The low `n` bits of `v`, most significant first. */
  function Window(v: nat, n: nat): (b: seq<bool>)
    ensures |b| == n
  {
    if n == 0 then [] else Window(v / 2, n - 1) + [v % 2 == 1]
  }

  lemma Pow2Word(n: nat)
    requires n <= 32
    ensures Pow2(32 - n) * Pow2(n) == WORD
  {
    Pow2Add(32 - n, n);
    Pow2Eight();
    Pow2Add(8, 8);
    Pow2Add(16, 16);
  }

  /** Bits above the window do not show. */
  lemma {:induction false} WindowIgnores(v: nat, k: nat, n: nat)
    ensures Window(v + k * Pow2(n), n) == Window(v, n)
    decreases n
  {
    if n > 0 {
      var h := k * Pow2(n - 1);
      assert k * Pow2(n) == 2 * h by {
        assert k * (2 * Pow2(n - 1)) == 2 * (k * Pow2(n - 1));
      }
      assert (v + 2 * h) % 2 == v % 2 && (v + 2 * h) / 2 == v / 2 + h;
      WindowIgnores(v / 2, k, n - 1);
    }
  }

  /** Cutting the register to its width loses nothing that is in use. */
  lemma WindowTruncated(v: nat, n: nat)
    requires n <= 32
    ensures Window(v % WORD, n) == Window(v, n)
  {
    hide Window;
    var q, r := v / WORD, v % WORD;
    Pow2Word(n);
    var k := q * Pow2(32 - n);
    assert q * WORD == k * Pow2(n) by {
      assert q * (Pow2(32 - n) * Pow2(n)) == (q * Pow2(32 - n)) * Pow2(n);
    }
    assert v == r + k * Pow2(n);
    WindowIgnores(r, k, n);
  }

  /** Shifting `m` bits in at the bottom appends them. */
  lemma {:induction false} WindowAppend(v: nat, n: nat, w: nat, m: nat)
    requires w < Pow2(m)
    ensures Window(v * Pow2(m) + w, n + m) == Window(v, n) + Window(w, m)
    decreases m
  {
    if m == 0 {
      assert Window(w, 0) == [];
      assert Window(v, n) + [] == Window(v, n);
    } else {
      var h := v * Pow2(m - 1);
      assert v * Pow2(m) == 2 * h by {
        assert v * (2 * Pow2(m - 1)) == 2 * (v * Pow2(m - 1));
      }
      assert (2 * h + w) / 2 == h + w / 2 && (2 * h + w) % 2 == w % 2;
      WindowAppend(v, n, w / 2, m - 1);
      assert Window(v, n) + (Window(w / 2, m - 1) + [w % 2 == 1])
             == (Window(v, n) + Window(w / 2, m - 1)) + [w % 2 == 1];
    }
  }

  /** What a register holds after shifting in `w`. */
  lemma ShiftIn(v: nat, n: nat, w: nat, m: nat)
    requires w < Pow2(m) && n + m <= 32
    ensures Window((v * Pow2(m) + w) % WORD, n + m) == Window(v, n) + Window(w, m)
  {
    WindowTruncated(v * Pow2(m) + w, n + m);
    WindowAppend(v, n, w, m);
  }

  /** The oldest `m` bits of a window of `m + n`, and what is left. */
  lemma WindowTop(v: nat, high: nat, low: nat, m: nat, n: nat)
    requires v == high * Pow2(n) + low && low < Pow2(n)
    ensures Window(v, m + n) == Window(high, m) + Window(v, n)
  {
    WindowAppend(high, m, low, n);
    WindowIgnores(low, high, n);
    assert low + high * Pow2(n) == v;
  }

  /** Reading the oldest `m` bits. */
  lemma ShiftOut(v: nat, n: nat, m: nat)
    requires m <= n
    ensures Window(v, n) == Window(Shr(v, n - m), m) + Window(v, n - m)
  {
    hide Window, Pow2;
    DivMod(v, Pow2(n - m));
    TopOf(v, Shr(v, n - m), v % Pow2(n - m), n, m);
  }

  lemma TopOf(v: nat, high: nat, low: nat, n: nat, m: nat)
    requires m <= n && v == high * Pow2(n - m) + low && low < Pow2(n - m)
    ensures Window(v, n) == Window(high, m) + Window(v, n - m)
  {
    hide Window, Pow2;
    WindowTop(v, high, low, m, n - m);
  }

  lemma WindowOne(b: bool)
    ensures Window(if b then 1 else 0, 1) == [b] && Pow2(1) == 2
  {
    assert Window((if b then 1 else 0) / 2, 0) == [];
  }
}
