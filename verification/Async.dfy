/**
 Start-stop framing: every character becomes a start bit, its bits from the lowest on, and a
 stop bit; between characters the line is held at mark.  Both packers work through a 32-bit
 shift register in groups of one to eight bits.
 */
module Async {
  import opened Words
  import opened Bits

  const CHAR_SIZE := 10

  // ----- the line -----

  function Frame(c: byte): (b: seq<bool>)
    ensures |b| == CHAR_SIZE && !b[0]
  {
    [false] + BitsOf(c, 8) + [true]
  }

  function Marks(n: nat): (b: seq<bool>)
    ensures |b| == n
  {
    seq(n, _ => true)
  }

  datatype Item = Char(c: byte) | Pause(n: nat)

  function Line(items: seq<Item>): seq<bool>
  {
    if items == [] then []
    else
      var last := items[|items| - 1];
      Line(items[..|items| - 1]) + if last.Char? then Frame(last.c) else Marks(last.n)
  }

  function Chars(items: seq<Item>): Str
  {
    if items == [] then []
    else
      var last := items[|items| - 1];
      Chars(items[..|items| - 1]) + if last.Char? then [last.c] else []
  }

  // ----- reading the line -----

  /** Skip the marks. */
  function Strip(b: seq<bool>): (r: seq<bool>)
    ensures |r| <= |b| && (r != [] ==> !r[0])
  {
    if b != [] && b[0] then Strip(b[1..]) else b
  }

  lemma FitsByte(b: seq<bool>)
    requires |b| == 8
    ensures Value(b) < 256
  {
    Pow2Eight();
  }

  /** The character of a frame; the stop bit is not looked at. */
  function Middle(b: seq<bool>): (c: byte)
    requires |b| >= CHAR_SIZE
  {
    FitsByte(b[1..9]);
    Value(b[1..9])
  }

  /** The characters in a stretch of line. */
  function Read(b: seq<bool>): Str
    decreases |b|
  {
    var s := Strip(b);
    if |s| < CHAR_SIZE then [] else [Middle(s)] + Read(s[CHAR_SIZE..])
  }

  /** What is left of it. */
  function Left(b: seq<bool>): (r: seq<bool>)
    ensures |r| < CHAR_SIZE && Strip(r) == r
    decreases |b|
  {
    var s := Strip(b);
    if |s| < CHAR_SIZE then s else Left(s[CHAR_SIZE..])
  }

  lemma {:induction false} StripAppend(a: seq<bool>, b: seq<bool>)
    ensures Strip(a + b) == if Strip(a) == [] then Strip(b) else Strip(a) + b
    ensures Strip(Strip(a) + b) == Strip(a + b)
    decreases |a|
  {
    if a == [] {
      assert a + b == b;
    } else if a[0] {
      assert (a + b)[1..] == a[1..] + b;
      StripAppend(a[1..], b);
    }
  }

  lemma ReadOne(b: seq<bool>)
    requires |Strip(b)| >= CHAR_SIZE
    ensures var s := Strip(b); Read(b) == [Middle(s)] + Read(s[CHAR_SIZE..]) && Left(b) == Left(s[CHAR_SIZE..])
  {}

  lemma ReadNone(b: seq<bool>)
    requires |Strip(b)| < CHAR_SIZE
    ensures Read(b) == [] && Left(b) == Strip(b)
  {}

  lemma MiddleAppend(s: seq<bool>, b: seq<bool>)
    requires |s| >= CHAR_SIZE
    ensures Middle(s + b) == Middle(s)
  {
    assert (s + b)[1..9] == s[1..9];
  }

  lemma {:induction false} ReadAppend(a: seq<bool>, b: seq<bool>)
    ensures Read(a + b) == Read(a) + Read(Left(a) + b)
    ensures Left(a + b) == Left(Left(a) + b)
    decreases |a|
  {
    hide Strip, Read, Left, Middle;
    StripAppend(a, b);
    var s := Strip(a);
    if |s| < CHAR_SIZE {
      ReadNone(a);
      ReadStripped(a + b, s + b);
    } else {
      ReadOne(a);
      ReadOne(a + b);
      MiddleAppend(s, b);
      var t := s[CHAR_SIZE..];
      assert (s + b)[CHAR_SIZE..] == t + b;
      ReadAppend(t, b);
      assert [Middle(s)] + (Read(t) + Read(Left(t) + b)) == ([Middle(s)] + Read(t)) + Read(Left(t) + b);
    }
  }

  /** Only what follows the marks matters. */
  lemma ReadStripped(a: seq<bool>, b: seq<bool>)
    requires Strip(a) == Strip(b)
    ensures Read(a) == Read(b) && Left(a) == Left(b)
  {}

  lemma {:induction false} ReadMarks(n: nat)
    ensures Strip(Marks(n)) == []
    decreases n
  {
    if n > 0 {
      assert Marks(n)[1..] == Marks(n - 1);
      ReadMarks(n - 1);
    }
  }

  lemma ReadFrame(c: byte)
    ensures Read(Frame(c)) == [c] && Left(Frame(c)) == []
  {
    var f := Frame(c);
    assert Strip(f) == f;
    assert f[1..9] == BitsOf(c, 8);
    Pow2Eight();
    ValueBits(c, 8);
    assert f[CHAR_SIZE..] == [];
  }

  /** Reading the line gives back its characters, whatever the pauses between them. */
  lemma {:induction false} ReadLine(items: seq<Item>)
    ensures Read(Line(items)) == Chars(items) && Left(Line(items)) == []
    decreases |items|
  {
    hide Frame, Marks;
    if items != [] {
      var before, last := items[..|items| - 1], items[|items| - 1];
      ReadLine(before);
      var piece := if last.Char? then Frame(last.c) else Marks(last.n);
      ReadAppend(Line(before), piece);
      assert [] + piece == piece;
      if last.Char? {
        ReadFrame(last.c);
      } else {
        ReadMarks(last.n);
      }
    }
  }

  lemma ReadPrefix(a: seq<bool>, b: seq<bool>)
    ensures Read(a) <= Read(a + b)
  {
    ReadAppend(a, b);
  }

  /** After any pause, a start bit and eight bits are a character, whatever stands in place of the stop bit. */
  lemma ReadAny(n: nat, c: byte, stop: bool, rest: seq<bool>)
    ensures Read(Marks(n) + ([false] + BitsOf(c, 8) + [stop] + rest)) == [c] + Read(rest)
  {
    hide BitsOf, Marks;
    var f := [false] + BitsOf(c, 8) + [stop];
    ReadMarks(n);
    StripAppend(Marks(n), f + rest);
    assert Strip(f + rest) == f + rest;
    ReadStripped(Marks(n) + (f + rest), f + rest);
    ReadOne(f + rest);
    assert (f + rest)[1..9] == BitsOf(c, 8) && (f + rest)[CHAR_SIZE..] == rest;
    Pow2Eight();
    ValueBits(c, 8);
  }

  /** The character 0x53 on the line: the start bit is 0, the lowest bit comes first, and the stop bit is 1. */
  lemma FrameBits()
    ensures Frame(0x53) == [false, true, true, false, false, true, false, true, false, true]
  {
    hide BitsOf, Pow2;
    FourBits();
    BitsAppend(3, 4, 5, 4);
    assert [true, true, false, false] + [true, false, true, false]
           == [true, true, false, false, true, false, true, false];
  }

  lemma FourBits()
    ensures Pow2(4) == 16
    ensures BitsOf(3, 4) == [true, true, false, false] && BitsOf(5, 4) == [true, false, true, false]
  {
    assert BitsOf(0, 2) == [false, false] && BitsOf(1, 2) == [true, false];
  }
}
