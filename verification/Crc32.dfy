/**
 CRC-32 (ITU-T V.42, section 8.1.1.6.2) in two forms: bit by bit, and by table with four octets
 at a time once the address is a multiple of four.
 */
module Crc32 {

  type octet = bv8
  type Octets = seq<octet>

  const NEGL: bv32 := 0xffffffff

  // ----- the specification -----

  function Divide(r: bv32): bv32
  {
    if r & 1 == 1 then (r >> 1) ^ 0xedb88320 else r >> 1
  }

  function DivideOctet(r: bv32): bv32
  {
    Divide(Divide(Divide(Divide(Divide(Divide(Divide(Divide(r))))))))
  }

  /** Fold one octet into the register, bit by bit. */
  function Eight(reg: bv32, c: octet): bv32
  {
    DivideOctet(Xor(reg, Wide(c)))
  }

  /** Fold a message into the register. */
  function CrcOf(reg: bv32, m: Octets): bv32
    decreases |m|
  {
    if m == [] then reg else CrcOf(Eight(reg, m[0]), m[1..])
  }

  /** The check value of a message: the complement of what it leaves in a register of ones. */
  function CheckValue(m: Octets): bv32
  {
    Xor(CrcOf(NEGL, m), NEGL)
  }

  lemma {:induction false} CrcConcat(reg: bv32, a: Octets, b: Octets)
    ensures CrcOf(reg, a + b) == CrcOf(CrcOf(reg, a), b)
    decreases |a|
  {
    hide Eight;
    if a == [] {
      assert a + b == b;
    } else {
      assert (a + b)[1..] == a[1..] + b;
      CrcConcat(Eight(reg, a[0]), a[1..], b);
    }
  }

  // ----- the table -----

  function Row0(j: bv8): bv32 {
    if j == 0 then 0x00000000 else if j == 1 then 0x77073096 else if j == 2 then 0xee0e612c else
    if j == 3 then 0x990951ba else if j == 4 then 0x076dc419 else if j == 5 then 0x706af48f else
    if j == 6 then 0xe963a535 else if j == 7 then 0x9e6495a3 else if j == 8 then 0x0edb8832 else
    if j == 9 then 0x79dcb8a4 else if j == 10 then 0xe0d5e91e else if j == 11 then 0x97d2d988 else
    if j == 12 then 0x09b64c2b else if j == 13 then 0x7eb17cbd else if j == 14 then 0xe7b82d07 else
    0x90bf1d91
  }

  function Row1(j: bv8): bv32 {
    if j == 0 then 0x1db71064 else if j == 1 then 0x6ab020f2 else if j == 2 then 0xf3b97148 else
    if j == 3 then 0x84be41de else if j == 4 then 0x1adad47d else if j == 5 then 0x6ddde4eb else
    if j == 6 then 0xf4d4b551 else if j == 7 then 0x83d385c7 else if j == 8 then 0x136c9856 else
    if j == 9 then 0x646ba8c0 else if j == 10 then 0xfd62f97a else if j == 11 then 0x8a65c9ec else
    if j == 12 then 0x14015c4f else if j == 13 then 0x63066cd9 else if j == 14 then 0xfa0f3d63 else
    0x8d080df5
  }

  function Row2(j: bv8): bv32 {
    if j == 0 then 0x3b6e20c8 else if j == 1 then 0x4c69105e else if j == 2 then 0xd56041e4 else
    if j == 3 then 0xa2677172 else if j == 4 then 0x3c03e4d1 else if j == 5 then 0x4b04d447 else
    if j == 6 then 0xd20d85fd else if j == 7 then 0xa50ab56b else if j == 8 then 0x35b5a8fa else
    if j == 9 then 0x42b2986c else if j == 10 then 0xdbbbc9d6 else if j == 11 then 0xacbcf940 else
    if j == 12 then 0x32d86ce3 else if j == 13 then 0x45df5c75 else if j == 14 then 0xdcd60dcf else
    0xabd13d59
  }

  function Row3(j: bv8): bv32 {
    if j == 0 then 0x26d930ac else if j == 1 then 0x51de003a else if j == 2 then 0xc8d75180 else
    if j == 3 then 0xbfd06116 else if j == 4 then 0x21b4f4b5 else if j == 5 then 0x56b3c423 else
    if j == 6 then 0xcfba9599 else if j == 7 then 0xb8bda50f else if j == 8 then 0x2802b89e else
    if j == 9 then 0x5f058808 else if j == 10 then 0xc60cd9b2 else if j == 11 then 0xb10be924 else
    if j == 12 then 0x2f6f7c87 else if j == 13 then 0x58684c11 else if j == 14 then 0xc1611dab else
    0xb6662d3d
  }

  function Row4(j: bv8): bv32 {
    if j == 0 then 0x76dc4190 else if j == 1 then 0x01db7106 else if j == 2 then 0x98d220bc else
    if j == 3 then 0xefd5102a else if j == 4 then 0x71b18589 else if j == 5 then 0x06b6b51f else
    if j == 6 then 0x9fbfe4a5 else if j == 7 then 0xe8b8d433 else if j == 8 then 0x7807c9a2 else
    if j == 9 then 0x0f00f934 else if j == 10 then 0x9609a88e else if j == 11 then 0xe10e9818 else
    if j == 12 then 0x7f6a0dbb else if j == 13 then 0x086d3d2d else if j == 14 then 0x91646c97 else
    0xe6635c01
  }

  function Row5(j: bv8): bv32 {
    if j == 0 then 0x6b6b51f4 else if j == 1 then 0x1c6c6162 else if j == 2 then 0x856530d8 else
    if j == 3 then 0xf262004e else if j == 4 then 0x6c0695ed else if j == 5 then 0x1b01a57b else
    if j == 6 then 0x8208f4c1 else if j == 7 then 0xf50fc457 else if j == 8 then 0x65b0d9c6 else
    if j == 9 then 0x12b7e950 else if j == 10 then 0x8bbeb8ea else if j == 11 then 0xfcb9887c else
    if j == 12 then 0x62dd1ddf else if j == 13 then 0x15da2d49 else if j == 14 then 0x8cd37cf3 else
    0xfbd44c65
  }

  function Row6(j: bv8): bv32 {
    if j == 0 then 0x4db26158 else if j == 1 then 0x3ab551ce else if j == 2 then 0xa3bc0074 else
    if j == 3 then 0xd4bb30e2 else if j == 4 then 0x4adfa541 else if j == 5 then 0x3dd895d7 else
    if j == 6 then 0xa4d1c46d else if j == 7 then 0xd3d6f4fb else if j == 8 then 0x4369e96a else
    if j == 9 then 0x346ed9fc else if j == 10 then 0xad678846 else if j == 11 then 0xda60b8d0 else
    if j == 12 then 0x44042d73 else if j == 13 then 0x33031de5 else if j == 14 then 0xaa0a4c5f else
    0xdd0d7cc9
  }

  function Row7(j: bv8): bv32 {
    if j == 0 then 0x5005713c else if j == 1 then 0x270241aa else if j == 2 then 0xbe0b1010 else
    if j == 3 then 0xc90c2086 else if j == 4 then 0x5768b525 else if j == 5 then 0x206f85b3 else
    if j == 6 then 0xb966d409 else if j == 7 then 0xce61e49f else if j == 8 then 0x5edef90e else
    if j == 9 then 0x29d9c998 else if j == 10 then 0xb0d09822 else if j == 11 then 0xc7d7a8b4 else
    if j == 12 then 0x59b33d17 else if j == 13 then 0x2eb40d81 else if j == 14 then 0xb7bd5c3b else
    0xc0ba6cad
  }

  function Row8(j: bv8): bv32 {
    if j == 0 then 0xedb88320 else if j == 1 then 0x9abfb3b6 else if j == 2 then 0x03b6e20c else
    if j == 3 then 0x74b1d29a else if j == 4 then 0xead54739 else if j == 5 then 0x9dd277af else
    if j == 6 then 0x04db2615 else if j == 7 then 0x73dc1683 else if j == 8 then 0xe3630b12 else
    if j == 9 then 0x94643b84 else if j == 10 then 0x0d6d6a3e else if j == 11 then 0x7a6a5aa8 else
    if j == 12 then 0xe40ecf0b else if j == 13 then 0x9309ff9d else if j == 14 then 0x0a00ae27 else
    0x7d079eb1
  }

  function Row9(j: bv8): bv32 {
    if j == 0 then 0xf00f9344 else if j == 1 then 0x8708a3d2 else if j == 2 then 0x1e01f268 else
    if j == 3 then 0x6906c2fe else if j == 4 then 0xf762575d else if j == 5 then 0x806567cb else
    if j == 6 then 0x196c3671 else if j == 7 then 0x6e6b06e7 else if j == 8 then 0xfed41b76 else
    if j == 9 then 0x89d32be0 else if j == 10 then 0x10da7a5a else if j == 11 then 0x67dd4acc else
    if j == 12 then 0xf9b9df6f else if j == 13 then 0x8ebeeff9 else if j == 14 then 0x17b7be43 else
    0x60b08ed5
  }

  function RowA(j: bv8): bv32 {
    if j == 0 then 0xd6d6a3e8 else if j == 1 then 0xa1d1937e else if j == 2 then 0x38d8c2c4 else
    if j == 3 then 0x4fdff252 else if j == 4 then 0xd1bb67f1 else if j == 5 then 0xa6bc5767 else
    if j == 6 then 0x3fb506dd else if j == 7 then 0x48b2364b else if j == 8 then 0xd80d2bda else
    if j == 9 then 0xaf0a1b4c else if j == 10 then 0x36034af6 else if j == 11 then 0x41047a60 else
    if j == 12 then 0xdf60efc3 else if j == 13 then 0xa867df55 else if j == 14 then 0x316e8eef else
    0x4669be79
  }

  function RowB(j: bv8): bv32 {
    if j == 0 then 0xcb61b38c else if j == 1 then 0xbc66831a else if j == 2 then 0x256fd2a0 else
    if j == 3 then 0x5268e236 else if j == 4 then 0xcc0c7795 else if j == 5 then 0xbb0b4703 else
    if j == 6 then 0x220216b9 else if j == 7 then 0x5505262f else if j == 8 then 0xc5ba3bbe else
    if j == 9 then 0xb2bd0b28 else if j == 10 then 0x2bb45a92 else if j == 11 then 0x5cb36a04 else
    if j == 12 then 0xc2d7ffa7 else if j == 13 then 0xb5d0cf31 else if j == 14 then 0x2cd99e8b else
    0x5bdeae1d
  }

  function RowC(j: bv8): bv32 {
    if j == 0 then 0x9b64c2b0 else if j == 1 then 0xec63f226 else if j == 2 then 0x756aa39c else
    if j == 3 then 0x026d930a else if j == 4 then 0x9c0906a9 else if j == 5 then 0xeb0e363f else
    if j == 6 then 0x72076785 else if j == 7 then 0x05005713 else if j == 8 then 0x95bf4a82 else
    if j == 9 then 0xe2b87a14 else if j == 10 then 0x7bb12bae else if j == 11 then 0x0cb61b38 else
    if j == 12 then 0x92d28e9b else if j == 13 then 0xe5d5be0d else if j == 14 then 0x7cdcefb7 else
    0x0bdbdf21
  }

  function RowD(j: bv8): bv32 {
    if j == 0 then 0x86d3d2d4 else if j == 1 then 0xf1d4e242 else if j == 2 then 0x68ddb3f8 else
    if j == 3 then 0x1fda836e else if j == 4 then 0x81be16cd else if j == 5 then 0xf6b9265b else
    if j == 6 then 0x6fb077e1 else if j == 7 then 0x18b74777 else if j == 8 then 0x88085ae6 else
    if j == 9 then 0xff0f6a70 else if j == 10 then 0x66063bca else if j == 11 then 0x11010b5c else
    if j == 12 then 0x8f659eff else if j == 13 then 0xf862ae69 else if j == 14 then 0x616bffd3 else
    0x166ccf45
  }

  function RowE(j: bv8): bv32 {
    if j == 0 then 0xa00ae278 else if j == 1 then 0xd70dd2ee else if j == 2 then 0x4e048354 else
    if j == 3 then 0x3903b3c2 else if j == 4 then 0xa7672661 else if j == 5 then 0xd06016f7 else
    if j == 6 then 0x4969474d else if j == 7 then 0x3e6e77db else if j == 8 then 0xaed16a4a else
    if j == 9 then 0xd9d65adc else if j == 10 then 0x40df0b66 else if j == 11 then 0x37d83bf0 else
    if j == 12 then 0xa9bcae53 else if j == 13 then 0xdebb9ec5 else if j == 14 then 0x47b2cf7f else
    0x30b5ffe9
  }

  function RowF(j: bv8): bv32 {
    if j == 0 then 0xbdbdf21c else if j == 1 then 0xcabac28a else if j == 2 then 0x53b39330 else
    if j == 3 then 0x24b4a3a6 else if j == 4 then 0xbad03605 else if j == 5 then 0xcdd70693 else
    if j == 6 then 0x54de5729 else if j == 7 then 0x23d967bf else if j == 8 then 0xb3667a2e else
    if j == 9 then 0xc4614ab8 else if j == 10 then 0x5d681b02 else if j == 11 then 0x2a6f2b94 else
    if j == 12 then 0xb40bbe37 else if j == 13 then 0xc30c8ea1 else if j == 14 then 0x5a05df1b else
    0x2d02ef8d
  }

  /** The table of 256 precomputed divisions, sixteen to a row. */
  function Table(i: bv8): bv32
  {
    if i < 16 then Row0(i - 0)
    else if i < 32 then Row1(i - 16)
    else if i < 48 then Row2(i - 32)
    else if i < 64 then Row3(i - 48)
    else if i < 80 then Row4(i - 64)
    else if i < 96 then Row5(i - 80)
    else if i < 112 then Row6(i - 96)
    else if i < 128 then Row7(i - 112)
    else if i < 144 then Row8(i - 128)
    else if i < 160 then Row9(i - 144)
    else if i < 176 then RowA(i - 160)
    else if i < 192 then RowB(i - 176)
    else if i < 208 then RowC(i - 192)
    else if i < 224 then RowD(i - 208)
    else if i < 240 then RowE(i - 224)
    else RowF(i - 240)
  }

  // Names for the operations on words, so that proofs can treat them as symbols.

  function Xor(a: bv32, b: bv32): bv32 { a ^ b }

  function Half(x: bv32): bv32 { x >> 1 }

  function Down(x: bv32): bv32 { x >> 8 }

  function Up(x: bv32): bv32 { x << 8 }

  predicate Even(x: bv32) { x & 1 == 0 }

  /** The low octet is zero. */
  predicate NoLow(x: bv32) { x & 0xff == 0 }

  /** The high octet is zero. */
  predicate NoHigh(x: bv32) { x & 0xff000000 == 0 }

  function Low(r: bv32): octet { (r & 0xff) as bv8 }

  function Wide(c: octet): bv32 { c as bv32 }

  /** Fold the low octet of the register by table. */
  function Lookup(r: bv32): bv32
  {
    Xor(Table(Low(r)), Down(r))
  }

  lemma Rows01(j: bv8)
    requires j < 16
    ensures Row0(j) == DivideOctet((j as bv32) + 0)
    ensures Row1(j) == DivideOctet((j as bv32) + 16)
  {}

  lemma Rows23(j: bv8)
    requires j < 16
    ensures Row2(j) == DivideOctet((j as bv32) + 32)
    ensures Row3(j) == DivideOctet((j as bv32) + 48)
  {}

  lemma Rows45(j: bv8)
    requires j < 16
    ensures Row4(j) == DivideOctet((j as bv32) + 64)
    ensures Row5(j) == DivideOctet((j as bv32) + 80)
  {}

  lemma Rows67(j: bv8)
    requires j < 16
    ensures Row6(j) == DivideOctet((j as bv32) + 96)
    ensures Row7(j) == DivideOctet((j as bv32) + 112)
  {}

  lemma Rows89(j: bv8)
    requires j < 16
    ensures Row8(j) == DivideOctet((j as bv32) + 128)
    ensures Row9(j) == DivideOctet((j as bv32) + 144)
  {}

  lemma RowsAB(j: bv8)
    requires j < 16
    ensures RowA(j) == DivideOctet((j as bv32) + 160)
    ensures RowB(j) == DivideOctet((j as bv32) + 176)
  {}

  lemma RowsCD(j: bv8)
    requires j < 16
    ensures RowC(j) == DivideOctet((j as bv32) + 192)
    ensures RowD(j) == DivideOctet((j as bv32) + 208)
  {}

  lemma RowsEF(j: bv8)
    requires j < 16
    ensures RowE(j) == DivideOctet((j as bv32) + 224)
    ensures RowF(j) == DivideOctet((j as bv32) + 240)
  {}

  lemma Nibbles(i: bv8, j: bv8)
    requires j == i & 0xf
    ensures 0 <= i < 16 ==> i - 0 == j && i as bv32 == (j as bv32) + 0
    ensures 16 <= i < 32 ==> i - 16 == j && i as bv32 == (j as bv32) + 16
    ensures 32 <= i < 48 ==> i - 32 == j && i as bv32 == (j as bv32) + 32
    ensures 48 <= i < 64 ==> i - 48 == j && i as bv32 == (j as bv32) + 48
    ensures 64 <= i < 80 ==> i - 64 == j && i as bv32 == (j as bv32) + 64
    ensures 80 <= i < 96 ==> i - 80 == j && i as bv32 == (j as bv32) + 80
    ensures 96 <= i < 112 ==> i - 96 == j && i as bv32 == (j as bv32) + 96
    ensures 112 <= i < 128 ==> i - 112 == j && i as bv32 == (j as bv32) + 112
    ensures 128 <= i < 144 ==> i - 128 == j && i as bv32 == (j as bv32) + 128
    ensures 144 <= i < 160 ==> i - 144 == j && i as bv32 == (j as bv32) + 144
    ensures 160 <= i < 176 ==> i - 160 == j && i as bv32 == (j as bv32) + 160
    ensures 176 <= i < 192 ==> i - 176 == j && i as bv32 == (j as bv32) + 176
    ensures 192 <= i < 208 ==> i - 192 == j && i as bv32 == (j as bv32) + 192
    ensures 208 <= i < 224 ==> i - 208 == j && i as bv32 == (j as bv32) + 208
    ensures 224 <= i < 240 ==> i - 224 == j && i as bv32 == (j as bv32) + 224
    ensures 240 <= i ==> i - 240 == j && i as bv32 == (j as bv32) + 240
  {}

  /** Every table entry is the division of its index. */
  lemma TableEntry(i: bv8)
    ensures Table(i) == DivideOctet(Wide(i))
  {
    hide DivideOctet, Row0, Row1, Row2, Row3, Row4, Row5, Row6, Row7, Row8, Row9, RowA, RowB, RowC, RowD, RowE, RowF;
    var j := i & 0xf;
    Rows01(j);
    Rows23(j);
    Rows45(j);
    Rows67(j);
    Rows89(j);
    RowsAB(j);
    RowsCD(j);
    RowsEF(j);
    Nibbles(i, j);
  }

  /** Division is linear where nothing is carried out. */
  lemma ShiftOne(r: bv32, x: bv32)
    requires Even(x)
    ensures Divide(Xor(r, x)) == Xor(Divide(r), Half(x))
  {
    hide Divide, Xor, Half, Even;
    DivideBy(r);
    DivideBy(Xor(r, x));
    XorLaws(r, x, 0);
    XorLaws(Half(r), Half(x), 0xedb88320);
  }

  lemma XorIs(a: bv32, b: bv32)
    ensures Xor(a, b) == a ^ b
  {}

  lemma HalfIs(a: bv32)
    ensures Half(a) == a >> 1
  {}

  lemma EvenIs(a: bv32)
    ensures Even(a) == (a & 1 == 0)
  {}

  lemma XorSwap(a: bv32, b: bv32, c: bv32, x: bv32, y: bv32)
    requires x == a ^ b && y == a ^ c
    ensures x ^ c == y ^ b
  {}

  lemma XorHalf(a: bv32, b: bv32, x: bv32)
    requires x == a ^ b
    ensures x >> 1 == (a >> 1) ^ (b >> 1) && (b & 1 == 0 ==> x & 1 == a & 1)
  {}

  lemma XorLaws(a: bv32, b: bv32, c: bv32)
    ensures Xor(Xor(a, b), c) == Xor(Xor(a, c), b) && Half(Xor(a, b)) == Xor(Half(a), Half(b))
    ensures Even(b) ==> Even(Xor(a, b)) == Even(a)
  {
    hide Xor, Half, Even;
    XorIs(a, b);
    XorIs(a, c);
    XorIs(Xor(a, b), c);
    XorIs(Xor(a, c), b);
    XorIs(Half(a), Half(b));
    HalfIs(a);
    HalfIs(b);
    HalfIs(Xor(a, b));
    EvenIs(a);
    EvenIs(b);
    EvenIs(Xor(a, b));
    XorSwap(a, b, c, Xor(a, b), Xor(a, c));
    XorHalf(a, b, Xor(a, b));
  }

  lemma DivideBy(r: bv32)
    ensures Divide(r) == if Even(r) then Half(r) else Xor(Half(r), 0xedb88320)
  {}

  lemma Halves(x: bv32)
    requires NoLow(x)
    ensures Even(x) && Even(Half(x)) && Even(Half(Half(x))) && Even(Half(Half(Half(x))))
    ensures var y := Half(Half(Half(Half(x))));
            Even(y) && Even(Half(y)) && Even(Half(Half(y))) && Even(Half(Half(Half(y))))
              && Half(Half(Half(Half(y)))) == Down(x)
  {}

  lemma ShiftFour(r: bv32, x: bv32)
    requires Even(x) && Even(Half(x)) && Even(Half(Half(x))) && Even(Half(Half(Half(x))))
    ensures Divide(Divide(Divide(Divide(Xor(r, x)))))
            == Xor(Divide(Divide(Divide(Divide(r)))), Half(Half(Half(Half(x)))))
  {
    hide Divide, Xor, Half, Even;
    ShiftOne(r, x);
    ShiftOne(Divide(r), Half(x));
    ShiftOne(Divide(Divide(r)), Half(Half(x)));
    ShiftOne(Divide(Divide(Divide(r))), Half(Half(Half(x))));
  }

  /** What lies above the low octet only shifts. */
  lemma ShiftsOut(r: bv32, x: bv32)
    requires NoLow(x)
    ensures DivideOctet(Xor(r, x)) == Xor(DivideOctet(r), Down(x))
  {
    hide Divide, Xor, Half, Even, Down, NoLow;
    Halves(x);
    ShiftFour(r, x);
    ShiftFour(Divide(Divide(Divide(Divide(r)))), Half(Half(Half(Half(x)))));
  }

  lemma LowAndHigh(r: bv32) returns (x: bv32)
    ensures NoLow(x) && Down(x) == Down(r) && r == Xor(Wide(Low(r)), x)
  {
    x := r & 0xffffff00;
  }

  /** A lookup is eight steps of division. */
  lemma LookupDivides(r: bv32)
    ensures Lookup(r) == DivideOctet(r)
  {
    hide DivideOctet, Table, Xor, Down, NoLow, Low, Wide;
    var x := LowAndHigh(r);
    TableEntry(Low(r));
    ShiftsOut(Wide(Low(r)), x);
  }

  /** Fold an octet by table. */
  function ByTable(reg: bv32, c: octet): bv32
  {
    Xor(Table(Low(reg) ^ c), Down(reg))
  }

  lemma LowOctet(reg: bv32, c: octet)
    ensures Low(Xor(reg, Wide(c))) == Low(reg) ^ c && Down(Xor(reg, Wide(c))) == Down(reg)
  {}

  /** The table form is bitwise division. */
  lemma TableIsDivision(reg: bv32, c: octet)
    ensures ByTable(reg, c) == Eight(reg, c)
  {
    hide DivideOctet, Table, Xor, Down, Low, Wide;
    LookupDivides(Xor(reg, Wide(c)));
    LowOctet(reg, c);
  }

  /** The word that a little-endian machine reads at four octets. */
  function Word(a: octet, b: octet, c: octet, d: octet): bv32
  {
    (a as bv32) | ((b as bv32) << 8) | ((c as bv32) << 16) | ((d as bv32) << 24)
  }

  lemma UpAndDown(w: bv32)
    requires NoHigh(w)
    ensures NoLow(Up(w)) && Down(Up(w)) == w
  {}

  lemma XorAssoc(a: bv32, b: bv32, c: bv32)
    ensures Xor(a, Xor(b, c)) == Xor(Xor(a, b), c)
  {}

  /** The octets above the first enter the register one lookup later, shifted down. */
  lemma OctetThenRest(reg: bv32, a: octet, w: bv32)
    requires NoHigh(w)
    ensures Lookup(Xor(reg, Xor(Wide(a), Up(w)))) == Xor(Eight(reg, a), w)
  {
    hide DivideOctet, Lookup, Xor, Down, Up, NoLow, NoHigh, Wide;
    LookupDivides(Xor(reg, Xor(Wide(a), Up(w))));
    XorAssoc(reg, Wide(a), Up(w));
    UpAndDown(w);
    ShiftsOut(Xor(reg, Wide(a)), Up(w));
  }

  lemma WordParts(a: octet, b: octet, c: octet, d: octet) returns (w1: bv32, w2: bv32)
    ensures w2 == Xor(Wide(c), Up(Wide(d))) && w1 == Xor(Wide(b), Up(w2)) && Word(a, b, c, d) == Xor(Wide(a), Up(w1))
    ensures NoHigh(w1) && NoHigh(w2) && NoHigh(Wide(d))
  {
    w2 := Xor(Wide(c), Up(Wide(d)));
    w1 := Xor(Wide(b), Up(w2));
  }

  /** Four lookups on a word fold its four octets. */
  lemma WordFolds(reg: bv32, a: octet, b: octet, c: octet, d: octet)
    ensures Lookup(Lookup(Lookup(Lookup(Xor(reg, Word(a, b, c, d)))))) == Eight(Eight(Eight(Eight(reg, a), b), c), d)
  {
    hide DivideOctet, Lookup, Xor, Up, NoHigh, Wide, Word;
    var w1, w2 := WordParts(a, b, c, d);
    var r1 := Eight(reg, a);
    var r2 := Eight(r1, b);
    var r3 := Eight(r2, c);
    OctetThenRest(reg, a, w1);
    OctetThenRest(r1, b, w2);
    OctetThenRest(r2, c, Wide(d));
    LookupDivides(Xor(r3, Wide(d)));
  }

  lemma {:induction false} CrcSnoc(reg: bv32, m: Octets, i: nat)
    requires i < |m|
    ensures CrcOf(reg, m[..i + 1]) == Eight(CrcOf(reg, m[..i]), m[i])
  {
    hide Eight;
    assert m[..i + 1] == m[..i] + [m[i]];
    CrcConcat(reg, m[..i], [m[i]]);
    assert CrcOf(CrcOf(reg, m[..i]), [m[i]]) == CrcOf(Eight(CrcOf(reg, m[..i]), m[i]), []);
  }

  lemma CrcFour(reg: bv32, m: Octets, i: nat)
    requires i + 4 <= |m|
    ensures CrcOf(reg, m[..i + 4]) == Eight(Eight(Eight(Eight(CrcOf(reg, m[..i]), m[i]), m[i + 1]), m[i + 2]), m[i + 3])
  {
    hide Eight, CrcOf;
    CrcSnoc(reg, m, i);
    CrcSnoc(reg, m, i + 1);
    CrcSnoc(reg, m, i + 2);
    CrcSnoc(reg, m, i + 3);
  }

  // ----- the two implementations -----

  /** The table form: the state is kept complemented. */
  class TableCrc {
    var state: bv32

    constructor ()
      ensures state == 0
    {
      state := 0;
    }

    /** `address` is where the data lie: octets are folded singly up to a multiple of four. */
    method Update(data: Octets, address: nat) returns (r: bv32)
      modifies this
      ensures r == state == Xor(CrcOf(Xor(old(state), NEGL), data), NEGL)
    {
      hide CrcOf, Eight, Table, Xor, Down, Low, Wide, Word, Lookup;
      ghost var start := Xor(state, NEGL);
      var crc := Xor(state, NEGL);
      var i := 0;
      Empty(start, data);
      while (address + i) % 4 != 0 && i < |data|
        invariant i <= |data| && crc == CrcOf(start, data[..i])
        decreases |data| - i
      {
        TableIsDivision(crc, data[i]);
        CrcSnoc(start, data, i);
        crc := Xor(Table(Low(crc) ^ data[i]), Down(crc));
        i := i + 1;
      }
      while |data| - i >= 4
        invariant i <= |data| && crc == CrcOf(start, data[..i])
      {
        WordFolds(crc, data[i], data[i + 1], data[i + 2], data[i + 3]);
        CrcFour(start, data, i);
        crc := Xor(crc, Word(data[i], data[i + 1], data[i + 2], data[i + 3]));
        crc := Lookup(crc);
        crc := Lookup(crc);
        crc := Lookup(crc);
        crc := Lookup(crc);
        i := i + 4;
      }
      while i < |data|
        invariant i <= |data| && crc == CrcOf(start, data[..i])
      {
        TableIsDivision(crc, data[i]);
        CrcSnoc(start, data, i);
        crc := Xor(Table(Low(crc) ^ data[i]), Down(crc));
        i := i + 1;
      }
      assert data[..i] == data;
      state := Xor(crc, NEGL);
      r := state;
    }

    method Final() returns (r: bv32)
      ensures r == state
    {
      r := state;
    }
  }

  lemma Empty(reg: bv32, data: Octets)
    ensures CrcOf(reg, data[..0]) == reg
  {}

  /** The bitwise form: the state is the register. */
  class BitCrc {
    var state: bv32

    constructor ()
      ensures state == NEGL
    {
      state := NEGL;
    }

    method Update(data: Octets) returns (r: bv32)
      modifies this
      ensures state == CrcOf(old(state), data) && r == Xor(state, NEGL)
    {
      hide CrcOf, Xor, Divide, Eight, Low, Wide, Down;
      ghost var start := state;
      var crc := state;
      Empty(start, data);
      for i := 0 to |data|
        invariant crc == CrcOf(start, data[..i])
      {
        var temp := Wide(Low(crc) ^ data[i]);
        ghost var t0 := temp;
        for j := 0 to 8
          invariant temp == Times(t0, j)
        {
          temp := Divide(temp);
        }
        EightTimes(t0);
        BitStep(crc, data[i]);
        CrcSnoc(start, data, i);
        crc := Xor(Down(crc), temp);
      }
      assert data[..|data|] == data;
      state := crc;
      r := Xor(crc, NEGL);
    }

    method Final() returns (r: bv32)
      modifies this
      ensures r == state == Xor(old(state), NEGL)
    {
      state := Xor(state, NEGL);
      r := state;
    }
  }

  function Times(r: bv32, n: nat): bv32
  {
    if n == 0 then r else Divide(Times(r, n - 1))
  }

  lemma EightTimes(r: bv32)
    ensures Times(r, 8) == DivideOctet(r)
  {
    hide Divide;
    assert Times(r, 1) == Divide(r);
    assert Times(r, 3) == Divide(Divide(Times(r, 1)));
    assert Times(r, 5) == Divide(Divide(Times(r, 3)));
    assert Times(r, 7) == Divide(Divide(Times(r, 5)));
  }

  /** Dividing the low octet alone and shifting the rest down. */
  lemma BitStep(crc: bv32, c: octet)
    ensures Xor(Down(crc), DivideOctet(Wide(Low(crc) ^ c))) == Eight(crc, c)
  {
    hide DivideOctet, Table, Xor, Down, Low, Wide;
    TableIsDivision(crc, c);
    TableEntry(Low(crc) ^ c);
    XorCommutes(Down(crc), Table(Low(crc) ^ c));
  }

  lemma XorCommutes(a: bv32, b: bv32)
    ensures Xor(a, b) == Xor(b, a)
  {}

  lemma XorTwice(a: bv32)
    ensures Xor(Xor(a, NEGL), NEGL) == a && Xor(0, NEGL) == NEGL
  {}

  method CalcTable(data: Octets, address: nat) returns (r: bv32)
    ensures r == CheckValue(data)
  {
    hide CrcOf, Xor;
    XorTwice(0);
    var ctx := new TableCrc();
    var _ := ctx.Update(data, address);
    r := ctx.Final();
  }

  method CalcBits(data: Octets) returns (r: bv32)
    ensures r == CheckValue(data)
  {
    hide CrcOf, Xor;
    var ctx := new BitCrc();
    var _ := ctx.Update(data);
    r := ctx.Final();
  }

  function Flatten(pieces: seq<Octets>): Octets
  {
    if pieces == [] then [] else Flatten(pieces[..|pieces| - 1]) + pieces[|pieces| - 1]
  }

  lemma FlattenSnoc(pieces: seq<Octets>, i: nat)
    requires i < |pieces|
    ensures Flatten(pieces[..i + 1]) == Flatten(pieces[..i]) + pieces[i]
  {
    assert pieces[..i + 1][..i] == pieces[..i];
  }

  /**
   A message in any pieces, each at any address, gets the check value that the bitwise form
   gives to the whole: how the data are cut up and aligned does not matter.
   */
  method CalcPieces(pieces: seq<Octets>, addresses: seq<nat>) returns (table: bv32, bits: bv32)
    requires |addresses| == |pieces|
    ensures table == bits == CheckValue(Flatten(pieces))
  {
    hide CrcOf, Xor, Flatten;
    XorTwice(0);
    var ctx := new TableCrc();
    var all := [];
    Empty(NEGL, []);
    NoPieces(pieces);
    for i := 0 to |pieces|
      invariant all == Flatten(pieces[..i]) && ctx.state == Xor(CrcOf(NEGL, all), NEGL)
    {
      FlattenSnoc(pieces, i);
      XorTwice(CrcOf(NEGL, all));
      CrcConcat(NEGL, all, pieces[i]);
      var _ := ctx.Update(pieces[i], addresses[i]);
      all := all + pieces[i];
    }
    assert pieces[..|pieces|] == pieces;
    table := ctx.Final();
    bits := CalcBits(all);
  }

  lemma NoPieces(pieces: seq<Octets>)
    ensures Flatten(pieces[..0]) == [] && CrcOf(NEGL, []) == NEGL && Xor(NEGL, NEGL) == 0
  {}

  // ----- what the check value is -----

  /** The octets of a register, low octet first. */
  function Tail(v: bv32): (r: Octets)
    ensures |r| == 4
  {
    [Low(v), Low(Down(v)), Low(Down(Down(v))), Low(Down(Down(Down(v))))]
  }

  lemma TailWord(v: bv32)
    ensures var t := Tail(v); Word(t[0], t[1], t[2], t[3]) == v
  {}

  lemma FourOctets(reg: bv32, m: Octets)
    requires |m| == 4
    ensures CrcOf(reg, m) == Eight(Eight(Eight(Eight(reg, m[0]), m[1]), m[2]), m[3])
  {
    hide Eight;
    var a := Eight(reg, m[0]);
    var b := Eight(a, m[1]);
    var c := Eight(b, m[2]);
    var d := Eight(c, m[3]);
    assert m[1..][0] == m[1] && m[2..][0] == m[2] && m[3..][0] == m[3];
    assert m[1..][1..] == m[2..] && m[2..][1..] == m[3..] && m[3..][1..] == [];
    assert CrcOf(d, []) == d;
    assert CrcOf(c, m[3..]) == d;
    assert CrcOf(b, m[2..]) == d;
  }

  lemma Complement(a: bv32)
    ensures Xor(a, Xor(a, 0xffffffff)) == 0xffffffff
  {}

  lemma OnesDivided()
    ensures DivideOctet(DivideOctet(DivideOctet(DivideOctet(0xffffffff)))) == 0xdebb20e3
  {
    assert DivideOctet(0xffffffff) == 0x2dfd1072;
    assert DivideOctet(0x2dfd1072) == 0xbe26ed00;
    assert DivideOctet(0xbe26ed00) == 0x00be26ed;
    assert DivideOctet(0x00be26ed) == 0xdebb20e3;
  }

  lemma FourFolded(reg: bv32, a: octet, b: octet, c: octet, d: octet)
    requires Xor(reg, Word(a, b, c, d)) == 0xffffffff
    ensures Eight(Eight(Eight(Eight(reg, a), b), c), d) == 0xdebb20e3
  {
    hide DivideOctet, Lookup, Eight, Word, Xor;
    WordFolds(reg, a, b, c, d);
    LookupDivides(0xffffffff);
    LookupDivides(DivideOctet(0xffffffff));
    LookupDivides(DivideOctet(DivideOctet(0xffffffff)));
    LookupDivides(DivideOctet(DivideOctet(DivideOctet(0xffffffff))));
    OnesDivided();
  }

  /** A message followed by its check value, low octet first, always leaves the same residue. */
  lemma Residue(m: Octets)
    ensures CrcOf(0xffffffff, m + Tail(CheckValue(m))) == 0xdebb20e3
  {
    hide Eight, Tail, Word, Xor;
    var reg := CrcOf(0xffffffff, m);
    var t := Tail(CheckValue(m));
    CrcConcat(0xffffffff, m, t);
    FourOctets(reg, t);
    TailWord(CheckValue(m));
    Complement(reg);
    FourFolded(reg, t[0], t[1], t[2], t[3]);
  }

  lemma DigitsFolded()
    ensures Eight(0xffffffff, 0x31) == 0x7c231048
    ensures Eight(0x7c231048, 0x32) == 0xb0acbb32
    ensures Eight(0xb0acbb32, 0x33) == 0x77b79c2d
    ensures Eight(0x77b79c2d, 0x34) == 0x641c1f5c
    ensures Eight(0x641c1f5c, 0x35) == 0x340ac5e3
    ensures Eight(0x340ac5e3, 0x36) == 0xf68d2c9e
    ensures Eight(0xf68d2c9e, 0x37) == 0xaffc9660
    ensures Eight(0xaffc9660, 0x38) == 0x651f2550
    ensures Eight(0x651f2550, 0x39) == 0x340bc6d9
  {}

  /** The check value of the nine digits, and of a zero octet. */
  lemma KnownValues()
    ensures CheckValue([0x31, 0x32, 0x33, 0x34, 0x35, 0x36, 0x37, 0x38, 0x39]) == 0xcbf43926
    ensures CheckValue([0x00]) == 0xd202ef8d
  {
    hide Eight;
    var m: Octets := [0x31, 0x32, 0x33, 0x34, 0x35, 0x36, 0x37, 0x38, 0x39];
    DigitsFolded();
    ZeroFolded();
    FourOctets(0xffffffff, m[..4]);
    FourOctets(0x641c1f5c, m[4..8]);
    OneOctet(0x651f2550, m[8..]);
    OneOctet(0xffffffff, [0x00]);
    CrcConcat(0xffffffff, m[..4], m[4..8]);
    CrcConcat(0xffffffff, m[..8], m[8..]);
    assert m[..4] + m[4..8] == m[..8] && m[..8] + m[8..] == m;
  }

  lemma ZeroFolded()
    ensures Eight(0xffffffff, 0x00) == 0x2dfd1072
  {}

  lemma OneOctet(reg: bv32, m: Octets)
    requires |m| == 1
    ensures CrcOf(reg, m) == Eight(reg, m[0])
  {
    hide Eight;
    assert m[1..] == [];
    assert CrcOf(Eight(reg, m[0]), []) == Eight(reg, m[0]);
  }
}
