/** The start-stop packers: shift registers that turn characters into groups of bits and back. */
module AsyncPacker {
  import opened Words
  import opened Registers
  import opened Bits
  import opened Async
  import H = Hdlc
  import P = HdlcPacker

  // ----- bit order -----

  /** Four bits read from the other end, by table. */
  function Ordered(i: nat): nat
    requires i < 16
  {
    if i == 0 then 0x0 else if i == 1 then 0x8 else if i == 2 then 0x4 else if i == 3 then 0xc else
    if i == 4 then 0x2 else if i == 5 then 0xa else if i == 6 then 0x6 else if i == 7 then 0xe else
    if i == 8 then 0x1 else if i == 9 then 0x9 else if i == 10 then 0x5 else if i == 11 then 0xd else
    if i == 12 then 0x3 else if i == 13 then 0xb else if i == 14 then 0x7 else 0xf
  }

  /** An octet read from the other end. */
  function Reverse(c: byte): (r: byte)
  {
    var low: nat, high: nat := c % 16, c / 16;
    OrderedBits(low);
    OrderedBits(high);
    Ordered(low) * 16 + Ordered(high)
  }

  lemma OrderedBits(i: nat)
    requires i < 16
    ensures var r := Ordered(i);
            r < 16 && r / 8 % 2 == i % 2 && r / 4 % 2 == i / 2 % 2 && r / 2 % 2 == i / 4 % 2 && r % 2 == i / 8 % 2
  {}

  lemma Entries(i: nat)
    requires i < 16
    ensures Ordered(i) < 16 && Window(Ordered(i), 4) == BitsOf(i, 4)
  {
    hide Window, BitsOf, Ordered;
    OrderedBits(i);
    FourWide(Ordered(i));
    FourBits(i);
  }

  lemma FourWide(v: nat)
    ensures Window(v, 4) == [v / 8 % 2 == 1, v / 4 % 2 == 1, v / 2 % 2 == 1, v % 2 == 1]
  {
    assert Window(v / 8, 1) == [v / 8 % 2 == 1] by { P.OneBit(v / 8); }
    assert v / 4 / 2 == v / 8 && v / 2 / 2 == v / 4;
    assert Window(v / 4, 2) == Window(v / 8, 1) + [v / 4 % 2 == 1];
    assert Window(v / 2, 3) == Window(v / 4, 2) + [v / 2 % 2 == 1];
  }

  lemma FourBits(v: nat)
    ensures BitsOf(v, 4) == [v % 2 == 1, v / 2 % 2 == 1, v / 4 % 2 == 1, v / 8 % 2 == 1]
  {
    assert v / 4 / 2 == v / 8 && v / 2 / 2 == v / 4;
    assert BitsOf(v / 8, 1) == [v / 8 % 2 == 1] + BitsOf(v / 16, 0);
    assert BitsOf(v / 4, 2) == [v / 4 % 2 == 1] + BitsOf(v / 8, 1);
    assert BitsOf(v / 2, 3) == [v / 2 % 2 == 1] + BitsOf(v / 4, 2);
  }

  /** From the top down, the reversed octet has the bits of the octet from the bottom up. */
  lemma ReverseBits(c: byte)
    ensures Window(Reverse(c), 8) == BitsOf(c, 8)
  {
    hide Window, BitsOf, Ordered;
    var low: nat, high: nat := c % 16, c / 16;
    Entries(low);
    Entries(high);
    Sixteen();
    WindowAppend(Ordered(low), 4, Ordered(high), 4);
    SplitValue(c, low, high, 4, 4);
  }

  lemma Sixteen()
    ensures Pow2(4) == 16 && Pow2(10) == 1024 && Pow2(1) == 2 && Pow2(9) == 512
  {
    assert Pow2(4) == 16;
    assert Pow2(6) == 4 * Pow2(4);
    assert Pow2(8) == 4 * Pow2(6);
    assert Pow2(10) == 4 * Pow2(8);
  }

  /** The ten bits put in for a character. */
  lemma FrameValue(c: byte)
    ensures Reverse(c) * 2 + 1 < 1024 && Window(Reverse(c) * 2 + 1, 10) == Frame(c)
  {
    hide Window, BitsOf, Reverse;
    var r := Reverse(c);
    ReverseBits(c);
    Sixteen();
    Pow2Eight();
    WindowAppend(0, 1, r, 8);
    P.OneBit(0);
    WindowAppend(r, 9, 1, 1);
    P.OneBit(1);
    assert [false] + BitsOf(c, 8) + [true] == Frame(c);
  }

  lemma OrderedTwice(i: nat)
    requires i < 16
    ensures Ordered(i) < 16 && Ordered(Ordered(i)) == i
  {}

  lemma ReverseTwice(c: byte)
    ensures Reverse(Reverse(c)) == c
  {
    hide Ordered;
    var low: nat, high: nat := c % 16, c / 16;
    OrderedTwice(low);
    OrderedTwice(high);
    Nibbles(Ordered(low), Ordered(high));
  }

  lemma Nibbles(high: nat, low: nat)
    requires high < 16 && low < 16
    ensures (high * 16 + low) % 16 == low && (high * 16 + low) / 16 == high
  {}

  /** The value of eight bits received from the lowest on. */
  lemma ReverseValue(ch: byte)
    ensures Value(Window(ch, 8)) == Reverse(ch)
  {
    hide Window, Reverse;
    ReverseTwice(ch);
    ReverseBits(Reverse(ch));
    Pow2Eight();
    ValueBits(Reverse(ch), 8);
  }

  /** An octet keeps the low bits. */
  lemma OctetWindow(x: nat, n: nat)
    requires n <= 8
    ensures Window(x % 256, n) == Window(x, n)
  {
    hide Window, Pow2;
    Pow2Eight();
    Pow2Add(8 - n, n);
    DivMod(x, 256);
    Above(x, x % 256, x / 256, Pow2(8 - n), n);
  }

  lemma Above(x: nat, low: nat, high: nat, k: nat, n: nat)
    requires x == low + high * 256 && k * Pow2(n) == 256
    ensures Window(low, n) == Window(x, n)
  {
    assert high * 256 == (high * k) * Pow2(n);
    WindowIgnores(low, high * k, n);
  }

  lemma {:induction false} AllOnes(n: nat)
    ensures Window(Pow2(n) - 1, n) == Marks(n)
    decreases n
  {
    if n > 0 {
      AllOnes(n - 1);
      assert (Pow2(n) - 1) / 2 == Pow2(n - 1) - 1 && (Pow2(n) - 1) % 2 == 1;
      assert Marks(n - 1) + [true] == Marks(n);
    }
  }

  lemma LineSnoc(items: seq<Item>, i: Item)
    ensures Line(items + [i]) == Line(items) + (if i.Char? then Frame(i.c) else Marks(i.n))
    ensures Chars(items + [i]) == Chars(items) + (if i.Char? then [i.c] else [])
  {
    assert (items + [i])[..|items|] == items;
  }

  /** The transmitting side. */
  class Transmitter {
    var data: nat
    var bit: nat
    /** The characters that the source will give. */
    var source: Str
    ghost var items: seq<Item>
    ghost var emitted: seq<bool>

    /** Bits sent and bits pending are the line; the register never holds more than 17 bits. */
    ghost predicate Inv()
      reads `data, `bit, `items, `emitted
    {
      bit <= 17 && emitted + Window(data, bit) == Line(items)
    }

    constructor ()
      ensures Inv() && source == [] && items == [] && emitted == [] && bit == 0
    {
      data, bit, source, items, emitted := 0, 0, [], [], [];
    }

    /** Put a character into the register. */
    method PutChar(c: byte)
      requires Inv() && bit < 8
      modifies `data, `bit, `items
      ensures Inv() && bit == old(bit) + 10 && items == old(items) + [Char(c)]
    {
      hide Window, Reverse, Line;
      CharPushed(emitted, data, bit, items, c, Reverse(c) * 2 + 1);
      var ch: nat := Reverse(c);
      data := (data * 1024 + (ch * 2 + 1)) % WORD;
      bit := bit + 10;
      items := items + [Char(c)];
    }

    /** The oldest `n` bits. */
    method TakeGroup(n: nat) returns (g: nat)
      requires Inv() && n <= 8 && n <= bit
      modifies `bit, `emitted
      ensures Inv() && bit == old(bit) - n && emitted == old(emitted) + Window(g, n)
    {
      hide Window, Pow2;
      ShiftOut(data, bit, n);
      OctetWindow(Shr(data, bit - n), n);
      g := Shr(data, bit - n) % 256;
      assert emitted + (Window(g, n) + Window(data, bit - n)) == (emitted + Window(g, n)) + Window(data, bit - n);
      bit := bit - n;
      emitted := emitted + Window(g, n);
    }

    /** Fewer than `n` bits are left and no character: fill up with marks. */
    method PadGroup(n: nat) returns (g: nat)
      requires Inv() && n <= 8 && bit < n
      modifies `bit, `emitted, `items
      ensures Inv() && bit == 0 && emitted == old(emitted) + Window(g, n) && items == old(items) + [Pause(n - old(bit))]
    {
      hide Window, Pow2, Line;
      var k := n - bit;
      g := (data * Pow2(k) + (Pow2(k) - 1)) % 256;
      Padded(emitted, data, bit, items, n, k, g);
      bit := 0;
      emitted := emitted + Window(g, n);
      items := items + [Pause(k)];
      assert emitted + Window(data, 0) == emitted;
    }

    /** Nothing is left: marks only. */
    method MarkGroup(n: nat) returns (g: nat)
      requires Inv() && n <= 8 && bit == 0
      modifies `emitted, `items
      ensures Inv() && emitted == old(emitted) + Window(g, n) && items == old(items) + [Pause(n)]
    {
      hide Window, Pow2, Line, Marks;
      g := Pow2(n) - 1;
      AllOnes(n);
      LineSnoc(items, Pause(n));
      assert emitted + Window(data, 0) == emitted;
      emitted := emitted + Window(g, n);
      items := items + [Pause(n)];
      assert emitted + Window(data, 0) == emitted;
    }

    /** Groups while there are bits and characters. */
    method SendChars(n: nat, cnt: nat) returns (out: seq<nat>)
      requires Inv() && 1 <= n <= 8
      modifies this
      ensures Inv() && |out| <= cnt && emitted == old(emitted) + H.Flatten(P.Groups(out, n))
      ensures Chars(items) + source == old(Chars(items) + source)
      ensures |emitted| + bit + 10 * |source| == old(|emitted| + bit + 10 * |source|)
      ensures |out| < cnt ==> source == [] && bit < n
    {
      hide Window, Inv, Chars, H.Flatten;
      out := [];
      assert P.Groups([], n) == [];
      Nothing(emitted);
      while true
        invariant Inv() && |out| <= cnt && emitted == old(emitted) + H.Flatten(P.Groups(out, n))
        invariant Chars(items) + source == old(Chars(items) + source)
        invariant |emitted| + bit + 10 * |source| == old(|emitted| + bit + 10 * |source|)
        decreases |source|, cnt - |out|
      {
        if |out| < cnt && bit >= n {
          var g := TakeGroup(n);
          P.GroupsSnoc(old(emitted), out, g, n);
          out := out + [g];
        } else if |out| == cnt || source == [] {
          break;
        } else {
          var c := source[0];
          LineSnoc(items, Char(c));
          assert Chars(items) + source == (Chars(items) + [c]) + source[1..];
          PutChar(c);
          source := source[1..];
        }
      }
    }

    /** `cnt` groups of `n` bits: pending bits, then characters, then marks. */
    method GetBits(n: nat, cnt: nat) returns (out: seq<nat>)
      requires Inv() && 1 <= n <= 8
      modifies this
      ensures Inv() && |out| == cnt && emitted == old(emitted) + H.Flatten(P.Groups(out, n))
      ensures Chars(items) + source == old(Chars(items) + source)
      ensures |emitted| >= old(|emitted| + bit + 10 * |source|) ==> source == [] && bit == 0
    {
      hide Window, Inv, Chars, H.Flatten;
      out := SendChars(n, cnt);
      if bit > 0 && |out| < cnt {
        LineSnoc(items, Pause(n - bit));
        var g := PadGroup(n);
        P.GroupsSnoc(old(emitted), out, g, n);
        out := out + [g];
      }
      while |out| < cnt
        invariant Inv() && |out| <= cnt && emitted == old(emitted) + H.Flatten(P.Groups(out, n))
        invariant Chars(items) + source == old(Chars(items) + source)
        invariant |out| < cnt ==> source == [] && bit == 0
        invariant (source == [] && bit == 0) || |emitted| + bit + 10 * |source| == old(|emitted| + bit + 10 * |source|)
      {
        LineSnoc(items, Pause(n));
        var g := MarkGroup(n);
        P.GroupsSnoc(old(emitted), out, g, n);
        out := out + [g];
      }
    }
  }

  lemma Nothing(e: seq<bool>)
    ensures e + H.Flatten([]) == e
  {}

  /** The receiving side. */
  class Receiver {
    var data: nat
    var bit: nat
    /** The characters handed over. */
    var got: Str
    ghost var received: seq<bool>

    /** All complete characters have been handed over; fewer than ten bits are pending. */
    ghost predicate Inv()
      reads this
    {
      bit < CHAR_SIZE && got == Read(received) && Strip(Window(data, bit)) == Left(received)
    }

    constructor ()
      ensures Inv() && got == [] && received == []
    {
      data, bit, got, received := 0, 0, [], [];
    }

    method TakeIn(g: nat, n: nat)
      requires bit + n <= 32
      modifies `data, `bit
      ensures bit == old(bit) + n && Window(data, bit) == old(Window(data, bit)) + Window(g, n)
    {
      hide Window, Pow2;
      P.MaskedGroup(g, n);
      ShiftIn(data, bit, g % Pow2(n), n);
      data := (data * Pow2(n) + g % Pow2(n)) % WORD;
      bit := bit + n;
    }

    /** Pass over the marks. */
    method SkipMarks()
      modifies `bit
      ensures bit <= old(bit) && Window(data, bit) == Strip(old(Window(data, bit)))
    {
      hide Window, Pow2;
      while bit > 0 && Shr(data, bit - 1) % 2 == 1
        invariant bit <= old(bit) && Strip(Window(data, bit)) == Strip(old(Window(data, bit)))
        decreases bit
      {
        TopBit(data, bit);
        bit := bit - 1;
      }
      if bit > 0 {
        TopBit(data, bit);
      }
    }

    /** Hand over the complete character at the front. */
    method TakeChar()
      requires CHAR_SIZE <= bit
      modifies `bit, `got
      ensures bit == old(bit) - CHAR_SIZE && Window(data, bit) == old(Window(data, bit))[CHAR_SIZE..]
      ensures got == old(got) + [Middle(old(Window(data, bit)))]
    {
      hide Window, Pow2, Reverse, Value;
      var ch := Shr(data, bit - 9) % 256;
      MiddleOctet(data, bit, ch);
      ReverseValue(ch);
      ShiftOut(data, bit, CHAR_SIZE);
      bit := bit - CHAR_SIZE;
      got := got + [Reverse(ch)];
    }

    method PutGroup(g: nat, n: nat)
      requires Inv() && 1 <= n <= 8
      modifies this
      ensures Inv() && received == old(received) + Window(g, n)
    {
      hide Window, Read, Left, Strip;
      ghost var w := Window(data, bit);
      TakeIn(g, n);
      SkipMarks();
      ghost var s := Window(data, bit);
      GroupRead(received, w, Window(g, n), s);
      while bit >= CHAR_SIZE
        invariant bit <= 17 && received == old(received)
        invariant Window(data, bit) == (if bit >= CHAR_SIZE then s else if |s| >= CHAR_SIZE then s[CHAR_SIZE..] else s)
        invariant got == old(got) + if bit < CHAR_SIZE <= |s| then [Middle(s)] else []
        invariant bit >= CHAR_SIZE ==> |s| == bit
        decreases bit
      {
        TakeChar();
      }
      received := received + Window(g, n);
    }

    method PutBits(n: nat, groups: seq<nat>)
      requires Inv() && 1 <= n <= 8
      modifies this
      ensures Inv() && received == old(received) + H.Flatten(P.Groups(groups, n))
    {
      hide Window, Inv, H.Flatten;
      assert P.Groups(groups[..0], n) == [];
      Nothing(received);
      for i := 0 to |groups|
        invariant Inv() && received == old(received) + H.Flatten(P.Groups(groups[..i], n))
      {
        assert groups[..i + 1] == groups[..i] + [groups[i]];
        P.GroupsSnoc(old(received), groups[..i], groups[i], n);
        PutGroup(groups[i], n);
      }
      assert groups[..|groups|] == groups;
    }
  }

  lemma TopBit(v: nat, bit: nat)
    requires bit > 0
    ensures Window(v, bit) == [Shr(v, bit - 1) % 2 == 1] + Window(v, bit - 1)
    ensures Strip(Window(v, bit)) == if Shr(v, bit - 1) % 2 == 1 then Strip(Window(v, bit - 1)) else Window(v, bit)
  {
    hide Window, Pow2;
    ShiftOut(v, bit, 1);
    P.OneBit(Shr(v, bit - 1));
    assert Window(v, bit)[1..] == Window(v, bit - 1);
  }

  lemma MiddleOctet(v: nat, bit: nat, ch: byte)
    requires bit >= CHAR_SIZE && ch == Shr(v, bit - 9) % 256
    ensures Window(v, bit)[1..9] == Window(ch, 8)
  {
    hide Window, Pow2;
    ShiftOut(v, bit, 9);
    var top := Shr(v, bit - 9);
    ShiftOut(top, 9, 8 + 1 - 8);
    OctetWindow(top, 8);
  }

  /** What one more group completes. */
  lemma GroupRead(received: seq<bool>, w: seq<bool>, g: seq<bool>, s: seq<bool>)
    requires Strip(w) == Left(received) && s == Strip(w + g) && |w + g| <= 17
    ensures Read(received + g) == Read(received) + if |s| >= CHAR_SIZE then [Middle(s)] else []
    ensures Left(received + g) == Strip(if |s| >= CHAR_SIZE then s[CHAR_SIZE..] else s)
  {
    ReadAppend(received, g);
    StripAppend(w, g);
    ReadStripped(Left(received) + g, w + g);
    if |s| >= CHAR_SIZE {
      var t := s[CHAR_SIZE..];
      assert |Strip(t)| < CHAR_SIZE;
      assert Read(t) == [] && Left(t) == Strip(t);
    } else {
      assert Strip(s) == s;
    }
  }

  lemma CharPushed(e: seq<bool>, data: nat, bit: nat, items: seq<Item>, c: byte, w: nat)
    requires e + Window(data, bit) == Line(items) && bit < 8 && w == Reverse(c) * 2 + 1
    ensures e + Window((data * 1024 + w) % WORD, bit + 10) == Line(items + [Char(c)])
  {
    hide Window, Reverse, Pow2, Line, Frame;
    FrameValue(c);
    Sixteen();
    ShiftIn(data, bit, w, 10);
    LineSnoc(items, Char(c));
    assert (e + Window(data, bit)) + Frame(c) == e + (Window(data, bit) + Frame(c));
  }

  lemma Padded(e: seq<bool>, data: nat, bit: nat, items: seq<Item>, n: nat, k: nat, g: nat)
    requires e + Window(data, bit) == Line(items) && bit < n <= 8 && k == n - bit
    requires g == (data * Pow2(k) + (Pow2(k) - 1)) % 256
    ensures e + Window(g, n) == Line(items + [Pause(k)])
  {
    hide Window, Pow2, Line, Marks;
    AllOnes(k);
    WindowAppend(data, bit, Pow2(k) - 1, k);
    OctetWindow(data * Pow2(k) + (Pow2(k) - 1), n);
    LineSnoc(items, Pause(k));
    assert (e + Window(data, bit)) + Marks(k) == e + (Window(data, bit) + Marks(k));
  }
}
