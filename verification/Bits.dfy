/** Words as bit sequences, least significant bit first, and bit sequences cut into octets. */
module Bits {
  import opened Words

  function Pow2(n: nat): (r: nat)
    ensures r > 0
  {
    if n == 0 then 1 else 2 * Pow2(n - 1)
  }

  function BitsOf(v: nat, n: nat): (b: seq<bool>)
    ensures |b| == n
  {
    if n == 0 then [] else [v % 2 == 1] + BitsOf(v / 2, n - 1)
  }

  function Value(b: seq<bool>): (v: nat)
    ensures v < Pow2(|b|)
  {
    if b == [] then 0 else (if b[0] then 1 else 0) + 2 * Value(b[1..])
  }

  lemma {:induction false} ValueBits(v: nat, n: nat)
    requires v < Pow2(n)
    ensures Value(BitsOf(v, n)) == v
  {
    if n > 0 {
      ValueBits(v / 2, n - 1);
      assert BitsOf(v, n)[1..] == BitsOf(v / 2, n - 1);
    }
  }

  lemma {:induction false} BitsValue(b: seq<bool>)
    ensures BitsOf(Value(b), |b|) == b
  {
    if b != [] {
      BitsValue(b[1..]);
      assert Value(b) / 2 == Value(b[1..]);
      assert b == [b[0]] + b[1..];
    }
  }

  lemma Pow2Eight()
    ensures Pow2(8) == 256
  {
    assert Pow2(4) == 16;
    assert Pow2(6) == 4 * Pow2(4);
    assert Pow2(8) == 4 * Pow2(6);
  }

  function ByteOf(b: seq<bool>): (r: byte)
    requires |b| == 8
  {
    Pow2Eight();
    Value(b)
  }

  lemma ByteOfBits(b: seq<bool>)
    requires |b| == 8
    ensures BitsOf(ByteOf(b), 8) == b
  {
    BitsValue(b);
  }

  /** The whole octets at the front of a bit queue. */
  function Octets(p: seq<bool>): (r: Str)
    ensures |r| == |p| / 8
  {
    if |p| < 8 then [] else [ByteOf(p[..8])] + Octets(p[8..])
  }

  /** What the octets leave behind. */
  function Rest(p: seq<bool>): (r: seq<bool>)
    ensures |r| == |p| % 8
  {
    p[|p| - |p| % 8..]
  }

  function Zeros(n: nat): (r: seq<bool>)
    ensures |r| == n && forall i :: 0 <= i < n ==> !r[i]
  {
    seq(n, i => false)
  }

  predicate AllZero(b: seq<bool>)
  {
    forall i :: 0 <= i < |b| ==> !b[i]
  }

  /** Zero bits up to the next octet boundary. */
  function Padding(n: nat): (r: seq<bool>)
    ensures (n + |r|) % 8 == 0 && |r| < 8 && AllZero(r)
  {
    Zeros((8 - n % 8) % 8)
  }

  // ----- bit buffers held in a machine word -----

  lemma {:induction false} Pow2Add(m: nat, n: nat)
    ensures Pow2(m + n) == Pow2(m) * Pow2(n)
  {
    hide Pow2;
    if m > 0 {
      Pow2Add(m - 1, n);
      Pow2Next(m - 1);
      Pow2Next(m - 1 + n);
      Twice(Pow2(m - 1), Pow2(n));
    } else {
      Pow2Zero();
    }
  }

  lemma Pow2Zero()
    ensures Pow2(0) == 1
  {}

  lemma Pow2Next(m: nat)
    ensures Pow2(m + 1) == 2 * Pow2(m)
  {}

  lemma {:induction false} Pow2Grows(m: nat, n: nat)
    ensures m <= n ==> Pow2(m) <= Pow2(n)
    decreases n
  {
    if m < n {
      Pow2Grows(m, n - 1);
    }
  }

  lemma Twice(a: nat, b: nat)
    ensures 2 * (a * b) == (2 * a) * b
  {}

  /** Putting `w` above the `n` bits of `v` appends its bits. */
  lemma {:induction false} BitsAppend(v: nat, n: nat, w: nat, m: nat)
    requires v < Pow2(n)
    ensures BitsOf(v + w * Pow2(n), n + m) == BitsOf(v, n) + BitsOf(w, m)
    decreases n
  {
    if n == 0 {
      assert BitsOf(v, 0) + BitsOf(w, m) == BitsOf(w, m);
    } else {
      var h := w * Pow2(n - 1);
      assert w * Pow2(n) == 2 * h by {
        assert w * (2 * Pow2(n - 1)) == 2 * (w * Pow2(n - 1));
      }
      assert (v + 2 * h) % 2 == v % 2;
      assert (v + 2 * h) / 2 == v / 2 + h;
      BitsAppend(v / 2, n - 1, w, m);
      assert [v % 2 == 1] + (BitsOf(v / 2, n - 1) + BitsOf(w, m))
             == ([v % 2 == 1] + BitsOf(v / 2, n - 1)) + BitsOf(w, m);
    }
  }

  /** Zero bits above a value are padding. */
  lemma {:induction false} BitsPad(v: nat, n: nat, m: nat)
    requires v < Pow2(n)
    ensures BitsOf(v, n + m) == BitsOf(v, n) + Zeros(m)
  {
    BitsAppend(v, n, 0, m);
    ZeroBits(m);
  }

  lemma {:induction false} ZeroBits(m: nat)
    ensures BitsOf(0, m) == Zeros(m)
  {
    if m > 0 {
      ZeroBits(m - 1);
    }
  }

  lemma DivMod(v: nat, p: nat)
    requires p > 0
    ensures v == v % p + (v / p) * p && v % p < p
  {}

  /** Taking the low `m` bits off a buffer: `low` and `high` are remainder and quotient. */
  lemma BitsSplit(v: nat, low: nat, high: nat, m: nat, n: nat)
    requires low == v % Pow2(m) && high == v / Pow2(m)
    ensures BitsOf(v, m + n) == BitsOf(low, m) + BitsOf(high, n)
  {
    DivMod(v, Pow2(m));
    SplitValue(v, low, high, m, n);
  }

  lemma SplitValue(v: nat, low: nat, high: nat, m: nat, n: nat)
    requires v == low + high * Pow2(m) && low < Pow2(m)
    ensures BitsOf(v, m + n) == BitsOf(low, m) + BitsOf(high, n)
  {
    BitsAppend(low, m, high, n);
  }

  lemma ShiftBound(v: nat, m: nat, n: nat)
    requires v < Pow2(m + n)
    ensures v / Pow2(m) < Pow2(n)
  {
    hide Pow2;
    Pow2Add(m, n);
    DivMod(v, Pow2(m));
    if v / Pow2(m) >= Pow2(n) {
      MulMono(Pow2(n), v / Pow2(m), Pow2(m));
    }
  }

  lemma MulMono(a: nat, b: nat, c: nat)
    requires a <= b
    ensures a * c <= b * c
  {}

  lemma AppendBound(v: nat, n: nat, w: nat, m: nat)
    requires v < Pow2(n) && w < Pow2(m)
    ensures v + w * Pow2(n) < Pow2(n + m)
  {
    Pow2Add(n, m);
    MulMono(w + 1, Pow2(m), Pow2(n));
    assert (w + 1) * Pow2(n) == w * Pow2(n) + Pow2(n);
  }
}
