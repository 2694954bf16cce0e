/**
 The 16-bit frame check sequence (ITU-T V.42, section 8.1.1.6.1): bitwise division by the
 polynomial 0x8408, and the table-driven form that the packers use.
 */
module Fcs {

  type octet = bv8
  type Octets = seq<octet>

  const INIT_FCS: bv16 := 0xffff
  const GOOD_FCS: bv16 := 0xf0b8

  /** One step of the division by the polynomial. */
  function Divide(r: bv16): bv16
  {
    if r & 1 == 1 then (r >> 1) ^ 0x8408 else r >> 1
  }

  function DivideOctet(r: bv16): bv16
  {
    Divide(Divide(Divide(Divide(Divide(Divide(Divide(Divide(r))))))))
  }

  /** Fold one octet into the register, bit by bit. */
  function Eight(reg: bv16, c: octet): bv16
  {
    DivideOctet(reg ^ (c as bv16))
  }

  /** Fold a message into the register. */
  function FcsOf(reg: bv16, m: Octets): bv16
    decreases |m|
  {
    if m == [] then reg else FcsOf(Eight(reg, m[0]), m[1..])
  }

  lemma {:induction false} FcsConcat(reg: bv16, a: Octets, b: Octets)
    ensures FcsOf(reg, a + b) == FcsOf(FcsOf(reg, a), b)
    decreases |a|
  {
    if a == [] {
      assert a + b == b;
    } else {
      assert (a + b)[1..] == a[1..] + b;
      FcsConcat(Eight(reg, a[0]), a[1..], b);
    }
  }

  /** The octets of a register, low octet first. */
  function Pair(f: bv16): (r: Octets)
    ensures |r| == 2
  {
    [(f & 0xff) as bv8, ((f >> 8) & 0xff) as bv8]
  }

  /** The two check octets of a message: the complemented register. */
  function Check(m: Octets): (r: Octets)
    ensures |r| == 2
  {
    Pair(FcsOf(INIT_FCS, m) ^ 0xffff)
  }

  lemma ResidueLow(f: bv16)
    ensures Eight(Eight(f, ((f ^ 0xffff) & 0xff) as bv8), (((f ^ 0xffff) >> 8) & 0xff) as bv8) == GOOD_FCS
  {}

  /** A message followed by its check octets always leaves the same residue. */
  lemma Residue(m: Octets)
    ensures FcsOf(INIT_FCS, m + Check(m)) == GOOD_FCS
  {
    FcsConcat(INIT_FCS, m, Check(m));
    var f := FcsOf(INIT_FCS, m);
    var c := Check(m);
    var g := Eight(f, c[0]);
    assert FcsOf(f, c) == FcsOf(g, c[1..]);
    assert FcsOf(g, c[1..]) == FcsOf(Eight(g, c[1]), c[2..]) by {
      assert c[1..][1..] == c[2..];
    }
    assert c[2..] == [];
    ResidueLow(f);
  }

  // ----- the table -----

  function Row0(j: bv8): bv16 {
    if j == 0 then 0x0000 else if j == 1 then 0x1189 else if j == 2 then 0x2312 else if j == 3 then 0x329b else
    if j == 4 then 0x4624 else if j == 5 then 0x57ad else if j == 6 then 0x6536 else if j == 7 then 0x74bf else
    if j == 8 then 0x8c48 else if j == 9 then 0x9dc1 else if j == 10 then 0xaf5a else if j == 11 then 0xbed3 else
    if j == 12 then 0xca6c else if j == 13 then 0xdbe5 else if j == 14 then 0xe97e else 0xf8f7
  }

  function Row1(j: bv8): bv16 {
    if j == 0 then 0x1081 else if j == 1 then 0x0108 else if j == 2 then 0x3393 else if j == 3 then 0x221a else
    if j == 4 then 0x56a5 else if j == 5 then 0x472c else if j == 6 then 0x75b7 else if j == 7 then 0x643e else
    if j == 8 then 0x9cc9 else if j == 9 then 0x8d40 else if j == 10 then 0xbfdb else if j == 11 then 0xae52 else
    if j == 12 then 0xdaed else if j == 13 then 0xcb64 else if j == 14 then 0xf9ff else 0xe876
  }

  function Row2(j: bv8): bv16 {
    if j == 0 then 0x2102 else if j == 1 then 0x308b else if j == 2 then 0x0210 else if j == 3 then 0x1399 else
    if j == 4 then 0x6726 else if j == 5 then 0x76af else if j == 6 then 0x4434 else if j == 7 then 0x55bd else
    if j == 8 then 0xad4a else if j == 9 then 0xbcc3 else if j == 10 then 0x8e58 else if j == 11 then 0x9fd1 else
    if j == 12 then 0xeb6e else if j == 13 then 0xfae7 else if j == 14 then 0xc87c else 0xd9f5
  }

  function Row3(j: bv8): bv16 {
    if j == 0 then 0x3183 else if j == 1 then 0x200a else if j == 2 then 0x1291 else if j == 3 then 0x0318 else
    if j == 4 then 0x77a7 else if j == 5 then 0x662e else if j == 6 then 0x54b5 else if j == 7 then 0x453c else
    if j == 8 then 0xbdcb else if j == 9 then 0xac42 else if j == 10 then 0x9ed9 else if j == 11 then 0x8f50 else
    if j == 12 then 0xfbef else if j == 13 then 0xea66 else if j == 14 then 0xd8fd else 0xc974
  }

  function Row4(j: bv8): bv16 {
    if j == 0 then 0x4204 else if j == 1 then 0x538d else if j == 2 then 0x6116 else if j == 3 then 0x709f else
    if j == 4 then 0x0420 else if j == 5 then 0x15a9 else if j == 6 then 0x2732 else if j == 7 then 0x36bb else
    if j == 8 then 0xce4c else if j == 9 then 0xdfc5 else if j == 10 then 0xed5e else if j == 11 then 0xfcd7 else
    if j == 12 then 0x8868 else if j == 13 then 0x99e1 else if j == 14 then 0xab7a else 0xbaf3
  }

  function Row5(j: bv8): bv16 {
    if j == 0 then 0x5285 else if j == 1 then 0x430c else if j == 2 then 0x7197 else if j == 3 then 0x601e else
    if j == 4 then 0x14a1 else if j == 5 then 0x0528 else if j == 6 then 0x37b3 else if j == 7 then 0x263a else
    if j == 8 then 0xdecd else if j == 9 then 0xcf44 else if j == 10 then 0xfddf else if j == 11 then 0xec56 else
    if j == 12 then 0x98e9 else if j == 13 then 0x8960 else if j == 14 then 0xbbfb else 0xaa72
  }

  function Row6(j: bv8): bv16 {
    if j == 0 then 0x6306 else if j == 1 then 0x728f else if j == 2 then 0x4014 else if j == 3 then 0x519d else
    if j == 4 then 0x2522 else if j == 5 then 0x34ab else if j == 6 then 0x0630 else if j == 7 then 0x17b9 else
    if j == 8 then 0xef4e else if j == 9 then 0xfec7 else if j == 10 then 0xcc5c else if j == 11 then 0xddd5 else
    if j == 12 then 0xa96a else if j == 13 then 0xb8e3 else if j == 14 then 0x8a78 else 0x9bf1
  }

  function Row7(j: bv8): bv16 {
    if j == 0 then 0x7387 else if j == 1 then 0x620e else if j == 2 then 0x5095 else if j == 3 then 0x411c else
    if j == 4 then 0x35a3 else if j == 5 then 0x242a else if j == 6 then 0x16b1 else if j == 7 then 0x0738 else
    if j == 8 then 0xffcf else if j == 9 then 0xee46 else if j == 10 then 0xdcdd else if j == 11 then 0xcd54 else
    if j == 12 then 0xb9eb else if j == 13 then 0xa862 else if j == 14 then 0x9af9 else 0x8b70
  }

  function Row8(j: bv8): bv16 {
    if j == 0 then 0x8408 else if j == 1 then 0x9581 else if j == 2 then 0xa71a else if j == 3 then 0xb693 else
    if j == 4 then 0xc22c else if j == 5 then 0xd3a5 else if j == 6 then 0xe13e else if j == 7 then 0xf0b7 else
    if j == 8 then 0x0840 else if j == 9 then 0x19c9 else if j == 10 then 0x2b52 else if j == 11 then 0x3adb else
    if j == 12 then 0x4e64 else if j == 13 then 0x5fed else if j == 14 then 0x6d76 else 0x7cff
  }

  function Row9(j: bv8): bv16 {
    if j == 0 then 0x9489 else if j == 1 then 0x8500 else if j == 2 then 0xb79b else if j == 3 then 0xa612 else
    if j == 4 then 0xd2ad else if j == 5 then 0xc324 else if j == 6 then 0xf1bf else if j == 7 then 0xe036 else
    if j == 8 then 0x18c1 else if j == 9 then 0x0948 else if j == 10 then 0x3bd3 else if j == 11 then 0x2a5a else
    if j == 12 then 0x5ee5 else if j == 13 then 0x4f6c else if j == 14 then 0x7df7 else 0x6c7e
  }

  function RowA(j: bv8): bv16 {
    if j == 0 then 0xa50a else if j == 1 then 0xb483 else if j == 2 then 0x8618 else if j == 3 then 0x9791 else
    if j == 4 then 0xe32e else if j == 5 then 0xf2a7 else if j == 6 then 0xc03c else if j == 7 then 0xd1b5 else
    if j == 8 then 0x2942 else if j == 9 then 0x38cb else if j == 10 then 0x0a50 else if j == 11 then 0x1bd9 else
    if j == 12 then 0x6f66 else if j == 13 then 0x7eef else if j == 14 then 0x4c74 else 0x5dfd
  }

  function RowB(j: bv8): bv16 {
    if j == 0 then 0xb58b else if j == 1 then 0xa402 else if j == 2 then 0x9699 else if j == 3 then 0x8710 else
    if j == 4 then 0xf3af else if j == 5 then 0xe226 else if j == 6 then 0xd0bd else if j == 7 then 0xc134 else
    if j == 8 then 0x39c3 else if j == 9 then 0x284a else if j == 10 then 0x1ad1 else if j == 11 then 0x0b58 else
    if j == 12 then 0x7fe7 else if j == 13 then 0x6e6e else if j == 14 then 0x5cf5 else 0x4d7c
  }

  function RowC(j: bv8): bv16 {
    if j == 0 then 0xc60c else if j == 1 then 0xd785 else if j == 2 then 0xe51e else if j == 3 then 0xf497 else
    if j == 4 then 0x8028 else if j == 5 then 0x91a1 else if j == 6 then 0xa33a else if j == 7 then 0xb2b3 else
    if j == 8 then 0x4a44 else if j == 9 then 0x5bcd else if j == 10 then 0x6956 else if j == 11 then 0x78df else
    if j == 12 then 0x0c60 else if j == 13 then 0x1de9 else if j == 14 then 0x2f72 else 0x3efb
  }

  function RowD(j: bv8): bv16 {
    if j == 0 then 0xd68d else if j == 1 then 0xc704 else if j == 2 then 0xf59f else if j == 3 then 0xe416 else
    if j == 4 then 0x90a9 else if j == 5 then 0x8120 else if j == 6 then 0xb3bb else if j == 7 then 0xa232 else
    if j == 8 then 0x5ac5 else if j == 9 then 0x4b4c else if j == 10 then 0x79d7 else if j == 11 then 0x685e else
    if j == 12 then 0x1ce1 else if j == 13 then 0x0d68 else if j == 14 then 0x3ff3 else 0x2e7a
  }

  function RowE(j: bv8): bv16 {
    if j == 0 then 0xe70e else if j == 1 then 0xf687 else if j == 2 then 0xc41c else if j == 3 then 0xd595 else
    if j == 4 then 0xa12a else if j == 5 then 0xb0a3 else if j == 6 then 0x8238 else if j == 7 then 0x93b1 else
    if j == 8 then 0x6b46 else if j == 9 then 0x7acf else if j == 10 then 0x4854 else if j == 11 then 0x59dd else
    if j == 12 then 0x2d62 else if j == 13 then 0x3ceb else if j == 14 then 0x0e70 else 0x1ff9
  }

  function RowF(j: bv8): bv16 {
    if j == 0 then 0xf78f else if j == 1 then 0xe606 else if j == 2 then 0xd49d else if j == 3 then 0xc514 else
    if j == 4 then 0xb1ab else if j == 5 then 0xa022 else if j == 6 then 0x92b9 else if j == 7 then 0x8330 else
    if j == 8 then 0x7bc7 else if j == 9 then 0x6a4e else if j == 10 then 0x58d5 else if j == 11 then 0x495c else
    if j == 12 then 0x3de3 else if j == 13 then 0x2c6a else if j == 14 then 0x1ef1 else 0x0f78
  }

  /** The table of 256 precomputed divisions, sixteen to a row. */
  function Table(i: bv8): bv16
  {
    if i < 16 then Row0(i - 0)
    else if i < 32 then Row1(i - 16)
    else if i < 48 then Row2(i - 32)
    else if i < 64 then Row3(i - 48)
    else if i < 80 then Row4(i - 64)
    else if i < 96 then Row5(i - 80)
    else if i < 112 then Row6(i - 96)
    else if i < 128 then Row7(i - 112)
    else if i < 144 then Row8(i - 128)
    else if i < 160 then Row9(i - 144)
    else if i < 176 then RowA(i - 160)
    else if i < 192 then RowB(i - 176)
    else if i < 208 then RowC(i - 192)
    else if i < 224 then RowD(i - 208)
    else if i < 240 then RowE(i - 224)
    else RowF(i - 240)
  }

  /** Fold an octet by table. */
  function ByTable(reg: bv16, c: octet): bv16
  {
    (reg >> 8) ^ Table(((reg & 0xff) as bv8) ^ c)
  }

  // Names for the operations on the register, so that proofs can treat them as symbols.

  function Xor(a: bv16, b: bv16): bv16 { a ^ b }

  function Half(x: bv16): bv16 { x >> 1 }

  predicate Even(x: bv16) { x & 1 == 0 }

  lemma XorIs(a: bv16, b: bv16)
    ensures Xor(a, b) == a ^ b
  {}

  lemma HalfIs(a: bv16)
    ensures Half(a) == a >> 1
  {}

  lemma EvenIs(a: bv16)
    ensures Even(a) == (a & 1 == 0)
  {}

  lemma XorSwap(a: bv16, b: bv16, c: bv16, x: bv16, y: bv16)
    requires x == a ^ b && y == a ^ c
    ensures x ^ c == y ^ b
  {}

  lemma XorHalf(a: bv16, b: bv16, x: bv16)
    requires x == a ^ b
    ensures x >> 1 == (a >> 1) ^ (b >> 1) && (b & 1 == 0 ==> x & 1 == a & 1)
  {}

  lemma XorLaws(a: bv16, b: bv16, c: bv16)
    ensures Xor(Xor(a, b), c) == Xor(Xor(a, c), b) && Half(Xor(a, b)) == Xor(Half(a), Half(b))
    ensures Even(b) ==> Even(Xor(a, b)) == Even(a)
  {
    hide Xor, Half, Even;
    XorIs(a, b);
    XorIs(a, c);
    XorIs(Xor(a, b), c);
    XorIs(Xor(a, c), b);
    XorIs(Half(a), Half(b));
    HalfIs(a);
    HalfIs(b);
    HalfIs(Xor(a, b));
    EvenIs(a);
    EvenIs(b);
    EvenIs(Xor(a, b));
    XorSwap(a, b, c, Xor(a, b), Xor(a, c));
    XorHalf(a, b, Xor(a, b));
  }

  lemma DivideBy(r: bv16)
    ensures Divide(r) == if Even(r) then Half(r) else Xor(Half(r), 0x8408)
  {}

  /** Division is linear where nothing is carried out. */
  lemma ShiftOne(r: bv16, x: bv16)
    requires Even(x)
    ensures Divide(Xor(r, x)) == Xor(Divide(r), Half(x))
  {
    hide Divide, Xor, Half, Even;
    DivideBy(r);
    DivideBy(Xor(r, x));
    XorLaws(r, x, 0);
    XorLaws(Half(r), Half(x), 0x8408);
  }

  lemma Halves(x: bv16)
    requires x & 0xff == 0
    ensures Even(x) && Even(Half(x)) && Even(Half(Half(x))) && Even(Half(Half(Half(x))))
    ensures var y := Half(Half(Half(Half(x))));
            Even(y) && Even(Half(y)) && Even(Half(Half(y))) && Even(Half(Half(Half(y))))
              && Half(Half(Half(Half(y)))) == x >> 8
  {}

  lemma ShiftFour(r: bv16, x: bv16)
    requires Even(x) && Even(Half(x)) && Even(Half(Half(x))) && Even(Half(Half(Half(x))))
    ensures Divide(Divide(Divide(Divide(Xor(r, x)))))
            == Xor(Divide(Divide(Divide(Divide(r)))), Half(Half(Half(Half(x)))))
  {
    hide Divide, Xor, Half, Even;
    ShiftOne(r, x);
    ShiftOne(Divide(r), Half(x));
    ShiftOne(Divide(Divide(r)), Half(Half(x)));
    ShiftOne(Divide(Divide(Divide(r))), Half(Half(Half(x))));
  }

  lemma ShiftsOut(r: bv16, x: bv16, y: bv16)
    requires x & 0xff == 0 && y == x >> 8
    ensures DivideOctet(Xor(r, x)) == Xor(DivideOctet(r), y)
  {
    Halves(x);
    hide Divide, Xor, Half, Even;
    ShiftFour(r, x);
    ShiftFour(Divide(Divide(Divide(Divide(r)))), Half(Half(Half(Half(x)))));
  }

  lemma Parts(r: bv16, low: bv16, x: bv16)
    requires low == r & 0xff && x == r & 0xff00
    ensures x & 0xff == 0 && x >> 8 == r >> 8 && r == Xor(low, x)
  {}

  lemma XorCommutes(a: bv16, b: bv16)
    ensures Xor(a, b) == b ^ a
  {}

  /** The high octet of the register only shifts. */
  lemma HighOctet(r: bv16)
    ensures DivideOctet(r) == (r >> 8) ^ DivideOctet(r & 0xff)
  {
    hide DivideOctet, Xor;
    Parts(r, r & 0xff, r & 0xff00);
    ShiftsOut(r & 0xff, r & 0xff00, r >> 8);
    XorCommutes(DivideOctet(r & 0xff), r >> 8);
  }

  /** Every table entry is the division of its index. */
  lemma TableEntry(i: bv8)
    ensures Table(i) == DivideOctet(i as bv16)
  {}

  lemma SplitRegister(reg: bv16, c: octet, r: bv16, i: bv8)
    requires r == reg ^ (c as bv16) && i == ((reg & 0xff) as bv8) ^ c
    ensures r >> 8 == reg >> 8 && r & 0xff == i as bv16
  {}

  lemma TableFolds(high: bv16, i: bv8, r: bv16, low: bv16)
    requires r >> 8 == high && r & 0xff == low && low == i as bv16
    ensures high ^ Table(i) == DivideOctet(r)
  {
    hide DivideOctet, Table;
    HighOctet(r);
    TableEntry(i);
  }

  /** The table form is bitwise division. */
  lemma TableIsDivision(reg: bv16, c: octet)
    ensures ByTable(reg, c) == Eight(reg, c)
  {
    hide DivideOctet, Table;
    Joined(reg, c, reg ^ (c as bv16), ((reg & 0xff) as bv8) ^ c);
  }

  lemma Joined(reg: bv16, c: octet, r: bv16, i: bv8)
    requires r == reg ^ (c as bv16) && i == ((reg & 0xff) as bv8) ^ c
    ensures (reg >> 8) ^ Table(i) == DivideOctet(r)
  {
    hide *;
    SplitRegister(reg, c, r, i);
    TableFolds(reg >> 8, i, r, i as bv16);
  }

  // ----- what the check detects -----

  /** The check octets of an unnumbered response. */
  lemma CheckOctets()
    ensures Check([0x03, 0x7f]) == [0x5f, 0xae]
  {
    assert [0x03, 0x7f][1..] == [0x7f] && [0x7f][1..] == [];
    assert FcsOf(INIT_FCS, [0x03, 0x7f]) == Eight(Eight(INIT_FCS, 0x03), 0x7f);
  }

  lemma DivideInjective(a: bv16, b: bv16)
    requires Divide(a) == Divide(b)
    ensures a == b
  {}

  lemma OctetInjective(a: bv16, b: bv16)
    requires DivideOctet(a) == DivideOctet(b)
    ensures a == b
  {
    hide Divide;
    var a1, b1 := Divide(a), Divide(b);
    var a2, b2 := Divide(a1), Divide(b1);
    var a3, b3 := Divide(a2), Divide(b2);
    var a4, b4 := Divide(a3), Divide(b3);
    var a5, b5 := Divide(a4), Divide(b4);
    var a6, b6 := Divide(a5), Divide(b5);
    var a7, b7 := Divide(a6), Divide(b6);
    DivideInjective(a7, b7);
    DivideInjective(a6, b6);
    DivideInjective(a5, b5);
    DivideInjective(a4, b4);
    DivideInjective(a3, b3);
    DivideInjective(a2, b2);
    DivideInjective(a1, b1);
    DivideInjective(a, b);
  }

  lemma SameXor(a: bv16, b: bv16, c: octet, d: octet)
    requires a ^ (c as bv16) == b ^ (d as bv16)
    ensures c == d ==> a == b
    ensures a == b ==> c == d
  {}

  /** A register and an octet decide each other. */
  lemma EightInjective(a: bv16, b: bv16, c: octet, d: octet)
    requires Eight(a, c) == Eight(b, d)
    ensures c == d ==> a == b
    ensures a == b ==> c == d
  {
    hide DivideOctet;
    OctetInjective(a ^ (c as bv16), b ^ (d as bv16));
    SameXor(a, b, c, d);
  }

  /** A difference in the register is never lost. */
  lemma {:induction false} FcsInjective(a: bv16, b: bv16, m: Octets)
    requires FcsOf(a, m) == FcsOf(b, m)
    ensures a == b
    decreases |m|
  {
    hide Eight;
    if m != [] {
      FcsInjective(Eight(a, m[0]), Eight(b, m[0]), m[1..]);
      EightInjective(a, b, m[0], m[0]);
    }
  }

  function Wide(i: bv8): bv16 { i as bv16 }

  function High(x: bv16): bv16 { x >> 8 }

  function Index(r: bv16, a: octet): bv8 { ((r & 0xff) as bv8) ^ a }

  lemma IndexInjective(r: bv16, a: octet, c: octet)
    requires Index(r, a) == Index(r, c)
    ensures a == c
  {}

  /** The high octets of the table are all different. */
  lemma HighInjective(i: bv8, j: bv8)
    requires High(DivideOctet(Wide(i))) == High(DivideOctet(Wide(j)))
    ensures i == j
  {}

  lemma ByTableIs(r: bv16, a: octet)
    ensures ByTable(r, a) == Xor(High(r), Table(Index(r, a)))
  {
    hide Table, ByTable;
    TableParts(r, a, High(r), Index(r, a), Table(Index(r, a)));
  }

  lemma TableParts(r: bv16, a: octet, h: bv16, i: bv8, t: bv16)
    requires h == r >> 8 && i == ((r & 0xff) as bv8) ^ a && t == Table(i)
    ensures ByTable(r, a) == h ^ t
  {
    hide Table;
  }

  lemma TableAt(i: bv8)
    ensures Table(i) == DivideOctet(Wide(i))
  {
    hide Table, DivideOctet;
    TableEntry(i);
  }

  lemma EightIs(r: bv16, a: octet)
    ensures Eight(r, a) == Xor(High(r), DivideOctet(Wide(Index(r, a))))
  {
    hide *;
    TableIsDivision(r, a);
    ByTableIs(r, a);
    TableAt(Index(r, a));
  }

  lemma SameHigh(h: bv16, s: bv16, t: bv16, b: octet, d: octet)
    requires Xor(h, s) ^ (b as bv16) == Xor(h, t) ^ (d as bv16)
    ensures High(s) == High(t)
  {}

  lemma EightFolds(x: bv16, y: bv16, b: octet, d: octet)
    requires Eight(x, b) == Eight(y, d)
    ensures x ^ (b as bv16) == y ^ (d as bv16)
  {
    hide DivideOctet;
    OctetInjective(x ^ (b as bv16), y ^ (d as bv16));
  }

  lemma FoldedHigh(h: bv16, s: bv16, t: bv16, x: bv16, y: bv16, b: octet, d: octet)
    requires x == Xor(h, s) && y == Xor(h, t) && Eight(x, b) == Eight(y, d)
    ensures High(s) == High(t)
  {
    hide *;
    EightFolds(x, y, b, d);
    SameHigh(h, s, t, b, d);
  }

  /** Two octets decide the register that they leave, and are decided by it. */
  lemma PairInjective(r: bv16, a: octet, b: octet, c: octet, d: octet)
    requires Eight(Eight(r, a), b) == Eight(Eight(r, c), d)
    ensures a == c && b == d
  {
    hide *;
    EightIs(r, a);
    EightIs(r, c);
    var s, t := DivideOctet(Wide(Index(r, a))), DivideOctet(Wide(Index(r, c)));
    FoldedHigh(High(r), s, t, Eight(r, a), Eight(r, c), b, d);
    HighInjective(Index(r, a), Index(r, c));
    IndexInjective(r, a, c);
    EightInjective(Eight(r, a), Eight(r, c), b, d);
  }

  lemma TwoOctets(r: bv16, m: Octets)
    requires |m| == 2
    ensures FcsOf(r, m) == Eight(Eight(r, m[0]), m[1])
  {
    hide Eight;
    var z := Eight(Eight(r, m[0]), m[1]);
    assert m[1..][0] == m[1] && m[1..][1..] == [];
    assert FcsOf(z, m[1..][1..]) == z;
  }

  lemma SameTwo(r: bv16, c: Octets, d: Octets)
    requires |c| == |d| == 2 && FcsOf(r, c) == FcsOf(r, d)
    ensures c == d
  {
    hide *;
    TwoOctets(r, c);
    TwoOctets(r, d);
    PairInjective(r, c[0], c[1], d[0], d[1]);
  }

  lemma CheckedTail(m: Octets, c: Octets)
    requires |c| == 2 && FcsOf(INIT_FCS, m + c) == GOOD_FCS
    ensures c == Check(m)
  {
    hide *;
    Residue(m);
    FcsConcat(INIT_FCS, m, c);
    FcsConcat(INIT_FCS, m, Check(m));
    SameTwo(FcsOf(INIT_FCS, m), c, Check(m));
  }

  /** Octets leave the residue if and only if the last two are the check octets of those before. */
  lemma GoodIsChecked(g: Octets)
    requires |g| >= 2
    ensures FcsOf(INIT_FCS, g) == GOOD_FCS <==> g == g[..|g| - 2] + Check(g[..|g| - 2])
  {
    hide *;
    var m, c := g[..|g| - 2], g[|g| - 2..];
    assert g == m + c;
    Residue(m);
    if FcsOf(INIT_FCS, g) == GOOD_FCS {
      CheckedTail(m, c);
    }
  }

  /**
   Any damage to two neighbouring octets of a frame with its check octets, which includes every
   single bit and every burst of up to nine bits, is seen.
   */
  lemma DamageDetected(x: Octets, c: Octets, d: Octets, y: Octets)
    requires |c| == |d| == 2 && c != d && FcsOf(INIT_FCS, x + c + y) == GOOD_FCS
    ensures FcsOf(INIT_FCS, x + d + y) != GOOD_FCS
  {
    hide Eight, FcsOf;
    FcsConcat(INIT_FCS, x + c, y);
    FcsConcat(INIT_FCS, x + d, y);
    FcsConcat(INIT_FCS, x, c);
    FcsConcat(INIT_FCS, x, d);
    var r := FcsOf(INIT_FCS, x);
    if FcsOf(INIT_FCS, x + d + y) == GOOD_FCS {
      FcsInjective(FcsOf(r, c), FcsOf(r, d), y);
      SameTwo(r, c, d);
    }
  }
}
