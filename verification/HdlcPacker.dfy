/**
 The HDLC packers: bits go through a 32-bit shift register in groups of one to eight, and the
 frames are found or produced in loops over bits.
 */
module HdlcPacker {
  import opened Fcs
  import opened Hdlc
  import opened Registers
  import opened B = Bits

  function Groups(gs: seq<nat>, n: nat): (r: seq<seq<bool>>)
    ensures |r| == |gs| && forall i :: 0 <= i < |gs| ==> r[i] == Window(gs[i], n)
  {
    seq(|gs|, i requires 0 <= i < |gs| => Window(gs[i], n))
  }

  lemma {:induction false} FlattenSnoc(groups: seq<seq<bool>>, g: seq<bool>)
    ensures Flatten(groups + [g]) == Flatten(groups) + g
    decreases |groups|
  {
    if groups == [] {
      assert groups + [g] == [g];
      assert Flatten([g]) == g + Flatten([]);
    } else {
      assert (groups + [g])[1..] == groups[1..] + [g];
      FlattenSnoc(groups[1..], g);
    }
  }

  /** Zero insertion adds at most one bit in five. */
  lemma {:induction false} StuffLength(raw: seq<bool>, k: nat)
    requires k < 5
    ensures |Stuff(raw, k)| <= |raw| + (k + |raw|) / 5
    decreases |raw|
  {
    if raw != [] {
      StuffLength(raw[1..], if !raw[0] || k + 1 == 5 then 0 else k + 1);
    }
  }

  /** Shifting an octet right moves its bits down by one. */
  lemma ShiftedBits(b: octet)
    ensures OctetBits(b >> 1)[..7] == OctetBits(b)[1..]
  {
    ShiftedMasks(b);
  }

  lemma ShiftedMasks(b: octet)
    ensures ((b >> 1) & 0x01 != 0) == (b & 0x02 != 0) && ((b >> 1) & 0x02 != 0) == (b & 0x04 != 0)
    ensures ((b >> 1) & 0x04 != 0) == (b & 0x08 != 0) && ((b >> 1) & 0x08 != 0) == (b & 0x10 != 0)
    ensures ((b >> 1) & 0x10 != 0) == (b & 0x20 != 0) && ((b >> 1) & 0x20 != 0) == (b & 0x40 != 0)
    ensures ((b >> 1) & 0x40 != 0) == (b & 0x80 != 0)
  {}

  /** Answers given move from the source to `asked`, in order; an empty source answers Idle. */
  predicate Drawn(asked: seq<Answer>, source: seq<Answer>, asked1: seq<Answer>, source1: seq<Answer>)
  {
    && |asked| <= |asked1| && |asked| + |source| <= |asked1| + |source1|
    && var all := asked1 + source1;
       && all[..|asked| + |source|] == asked + source
       && (forall i :: |asked| + |source| <= i < |all| ==> all[i] == Idle)
       && (|asked| + |source| < |all| ==> source1 == [])
  }

  lemma DrawnOne(asked: seq<Answer>, source: seq<Answer>)
    ensures Drawn(asked, source, asked + [if source == [] then Idle else source[0]],
                  if source == [] then [] else source[1..])
  {
    if source != [] {
      assert (asked + [source[0]]) + source[1..] == asked + source;
    }
  }

  lemma DrawnTwice(a: seq<Answer>, s: seq<Answer>, a1: seq<Answer>, s1: seq<Answer>, a2: seq<Answer>, s2: seq<Answer>)
    requires Drawn(a, s, a1, s1) && Drawn(a1, s1, a2, s2)
    ensures Drawn(a, s, a2, s2)
  {
    var all1, all2 := a1 + s1, a2 + s2;
    assert all2[..|a| + |s|] == all2[..|all1|][..|a| + |s|];
    assert forall i :: |a| + |s| <= i < |all1| ==> all2[i] == all1[i];
  }

  class Transmitter {
    var data: nat
    var bit: nat
    var ones: nat
    /** The frame being sent, if any: its octets, how many have gone, and their check so far. */
    var sending: bool
    var frame: Octets
    var count: nat
    var fcs: bv16
    /** What the framer will answer. */
    var source: seq<Answer>
    /** What it has answered, and the bits handed out. */
    ghost var asked: seq<Answer>
    ghost var emitted: seq<bool>

    /** Octets of the current frame that are still to be turned into bits. */
    ghost function Left(): Octets
      reads this
      requires sending ==> count <= |frame|
    {
      if sending then frame[count..] + Check(frame) else []
    }

    ghost predicate Inv()
      reads this
    {
      && bit <= 32 && ones < 5 && (!sending ==> ones == 0)
      && (sending ==> count <= |frame| && fcs == FcsOf(INIT_FCS, frame[..count]))
      && emitted + (Window(data, bit) + Stuff(RawBits(Left()), ones)) == Line(asked)
    }

    constructor (answers: seq<Answer>)
      ensures Inv() && asked == [] && emitted == [] && source == answers && bit == 0
    {
      data, bit, ones, sending, frame, count, fcs := 0, 0, 0, false, [], 0, INIT_FCS;
      source, asked, emitted := answers, [], [];
    }

    /** Shift one bit in. */
    method PutBit(b: bool)
      requires bit < 32
      modifies `data, `bit
      ensures bit == old(bit) + 1 && Window(data, bit) == old(Window(data, bit)) + [b]
    {
      hide Window;
      WindowOne(b);
      ShiftIn(data, bit, if b then 1 else 0, 1);
      data := (data * 2 + if b then 1 else 0) % WORD;
      bit := bit + 1;
    }

    /** Shift an octet in, least significant bit first, with zero insertion. */
    method PutOctet(b: octet)
      requires bit <= 22 && ones < 5
      modifies `data, `bit, `ones
      ensures ones == Carry(OctetBits(b), old(ones)) && bit <= old(bit) + 10
      ensures Window(data, bit) == old(Window(data, bit)) + Stuff(OctetBits(b), old(ones))
    {
      hide Window, OctetBits;
      ghost var raw, k0, w0 := OctetBits(b), ones, Window(data, bit);
      StuffLength(raw, k0);
      var x := b;
      var i := 0;
      assert raw[..0] == [] && OctetBits(x)[..8] == raw[0..];
      assert w0 + [] == w0;
      while i < 8
        invariant 0 <= i <= 8 && ones == Carry(raw[..i], k0) && OctetBits(x)[..8 - i] == raw[i..]
        invariant bit == |Window(data, bit)| && Window(data, bit) == w0 + Stuff(raw[..i], k0)
      {
        BitAt(raw, i, k0);
        LowBit(x);
        ShiftedBits(x);
        assert raw[i] == OctetBits(x)[..8 - i][0];
        assert OctetBits(x >> 1)[..7 - i] == OctetBits(x)[..8 - i][1..] == raw[i + 1..] by {
          assert OctetBits(x >> 1)[..7 - i] == OctetBits(x >> 1)[..7][..7 - i];
          assert OctetBits(x)[..8 - i][1..] == OctetBits(x)[1..][..7 - i];
        }
        StuffLength(raw[..i + 1], k0);
        if x & 1 != 0 {
          PutBit(true);
          ones := ones + 1;
          if ones == 5 {
            PutBit(false);
            ones := 0;
          }
        } else {
          PutBit(false);
          ones := 0;
        }
        x := x >> 1;
        i := i + 1;
      }
      assert raw[..8] == raw;
    }

    /** The next octet of the frame. */
    method PutFrameOctet()
      requires Inv() && sending && count < |frame| && bit < 8
      modifies this
      ensures Inv() && bit > old(bit) && asked == old(asked) && emitted == old(emitted) && source == old(source)
    {
      hide Window, Stuff, Carry, Line, Check, OctetBits, FcsOf;
      ghost var left := Left();
      var b := frame[count];
      NextOctet(left, ones);
      assert left[0] == b && left[1..] == frame[count + 1..] + Check(frame);
      FcsSnoc(frame, count);
      TableIsDivision(fcs, b);
      fcs := ByTable(fcs, b);
      count := count + 1;
      PutOctet(b);
      Regroup(emitted, old(Window(data, bit)), Stuff(OctetBits(b), old(ones)), Stuff(RawBits(Left()), ones));
    }

    /** Two octets with zero insertion. */
    method PutPair(c: Octets)
      requires bit < 8 && ones < 5 && |c| == 2
      modifies `data, `bit, `ones
      ensures bit > old(bit) && bit <= 32
      ensures Window(data, bit) == (old(Window(data, bit)) + Stuff(OctetBits(c[0]), old(ones)))
              + Stuff(OctetBits(c[1]), Carry(OctetBits(c[0]), old(ones)))
    {
      hide Window, Stuff, Carry, OctetBits;
      CheckBits(c, ones);
      PutOctet(c[0]);
      PutOctet(c[1]);
    }

    /** The two check octets, which end the frame. */
    method PutCheck()
      requires Inv() && sending && count == |frame| && bit < 8
      modifies this
      ensures Inv() && bit > old(bit) && asked == old(asked) && emitted == old(emitted) && source == old(source)
    {
      hide Window, Stuff, Carry, Line, OctetBits, FcsOf, Pair;
      ghost var k, w := ones, Window(data, bit);
      assert frame[..count] == frame && Left() == Check(frame) by {
        assert [] + Check(frame) == Check(frame);
      }
      var c := Pair(fcs ^ 0xffff);
      CheckBits(c, k);
      PutPair(c);
      ones := 0;
      sending := false;
      AllSent(emitted, w, Stuff(OctetBits(c[0]), k), Stuff(OctetBits(c[1]), Carry(OctetBits(c[0]), k)),
        Window(data, bit));
    }

    method PutFlagBits()
      requires bit < 8
      modifies `data, `bit
      ensures bit == old(bit) + 8 && Window(data, bit) == old(Window(data, bit)) + FLAG
    {
      hide Window;
      FlagBits();
      ShiftIn(data, bit, 0x7e, 8);
      data := (data * 256 + 0x7e) % WORD;
      bit := bit + 8;
    }

    /** A flag, and the framer's answer after it. */
    method PutFlag()
      requires Inv() && !sending && bit < 8
      modifies this
      ensures Inv() && bit > old(bit) && emitted == old(emitted) && old(asked) <= asked
      ensures Drawn(old(asked), old(source), asked, source)
    {
      hide Window, Stuff, Carry, OctetBits, FcsOf, Check, RawBits, Frames, Line;
      ghost var w := Window(data, bit);
      PutFlagBits();
      var a := if source == [] then Idle else source[0];
      DrawnOne(asked, source);
      LineSnoc(asked, a);
      FlagSent(emitted, w, asked, a);
      source := if source == [] then [] else source[1..];
      asked := asked + [a];
      if a.Frame? {
        sending, frame, count, fcs := true, a.f, 0, INIT_FCS;
        assert a.f[..0] == [] && a.f[0..] == a.f;
        FcsNothing();
      }
    }

    /** Produce more bits when fewer than a group are left. */
    method Refill()
      requires Inv() && bit < 8
      modifies this
      ensures Inv() && bit > old(bit) && emitted == old(emitted) && old(asked) <= asked
      ensures Drawn(old(asked), old(source), asked, source)
    {
      hide Window, Stuff, Carry, Line, OctetBits, FcsOf, Check, RawBits, Frames;
      if !sending {
        PutFlag();
      } else if count == |frame| {
        PutCheck();
        assert Drawn(asked, source, asked, source);
      } else {
        PutFrameOctet();
        assert Drawn(asked, source, asked, source);
      }
    }

    /** The oldest `n` bits, as one group. */
    method TakeGroup(n: nat) returns (g: nat)
      requires Inv() && 1 <= n <= 8 && n <= bit
      modifies `bit, `emitted
      ensures Inv() && g < Pow2(n) && bit == old(bit) - n && emitted == old(emitted) + Window(g, n)
    {
      hide Window, Stuff, Carry, Line, FcsOf, Check, RawBits, Pow2;
      ghost var e, w := emitted, Window(data, bit);
      g := Shr(data, bit - n) % Pow2(n);
      GroupOf(data, bit, n, g);
      bit := bit - n;
      emitted := emitted + Window(g, n);
      assert (e + Window(g, n)) + (Window(data, bit) + Stuff(RawBits(Left()), ones))
          == e + ((Window(g, n) + Window(data, bit)) + Stuff(RawBits(Left()), ones));
    }

    /** `cnt` groups of `n` bits. */
    method GetBits(n: nat, cnt: nat) returns (out: seq<nat>)
      requires Inv() && 1 <= n <= 8
      modifies this
      ensures Inv() && |out| == cnt && emitted == old(emitted) + Flatten(Groups(out, n)) && old(asked) <= asked
      ensures Drawn(old(asked), old(source), asked, source)
    {
      hide Window, Stuff, Carry, Line, FcsOf, Check, RawBits, Pow2, Frames;
      out := [];
      assert Drawn(asked, source, asked, source);
      assert Groups([], n) == [] && emitted + [] == emitted;
      while |out| < cnt
        invariant Inv() && |out| <= cnt && emitted == old(emitted) + Flatten(Groups(out, n)) && old(asked) <= asked
        invariant Drawn(old(asked), old(source), asked, source)
        decreases cnt - |out|, 8 - bit
      {
        if bit >= n {
          ghost var e := emitted;
          var g := TakeGroup(n);
          GroupsSnoc(old(emitted), out, g, n);
          out := out + [g];
        } else {
          ghost var a1, s1 := asked, source;
          Refill();
          DrawnTwice(old(asked), old(source), a1, s1, asked, source);
        }
      }
    }
  }

  class Receiver {
    var data: nat
    var bit: nat
    var hunting: bool
    var ones: nat
    const buf: array<octet>
    var count: nat
    var fcs: bv16
    /** The frames handed to the framer. */
    var got: seq<Octets>

    ghost function Value(): Rx
      reads this, buf
      requires count <= buf.Length
    {
      Rx(Window(data, bit), hunting, ones, buf[..count])
    }

    ghost predicate Inv()
      reads this, buf
    {
      && buf.Length == RX_SIZE && count <= RX_SIZE && bit <= 32 && ones < 5
      && (!hunting ==> fcs == FcsOf(INIT_FCS, buf[..count]))
    }

    constructor ()
      ensures Inv() && fresh(buf) && Value() == RX_INIT && got == []
    {
      buf := new octet[RX_SIZE](i => 0);
      data, bit, hunting, ones, count, fcs, got := 0, 0, true, 0, 0, INIT_FCS, [];
      new;
      assert buf[..0] == [];
    }

    /** Shift a group in. */
    method TakeIn(g: nat, n: nat)
      requires Inv() && bit + n <= 32
      modifies `data, `bit
      ensures Inv() && Value() == Extend(old(Value()), Window(g, n)) && bit == old(bit) + n
    {
      hide Window, FcsOf, Pow2;
      MaskedGroup(g, n);
      ShiftIn(data, bit, g % Pow2(n), n);
      data := (data * Pow2(n) + g % Pow2(n)) % WORD;
      bit := bit + n;
    }

    /** A flag: hand over the frame if it is good, and start anew. */
    method EndFrame(i: nat)
      requires Inv() && bit >= 8
      modifies this
      ensures Inv() && Value() == Rx(old(Value()).q[8..], false, 0, []) && got == old(got) + Completed(old(Value()), i)
    {
      hide Window, FcsOf;
      assert got + [] == got;
      ShiftOut(data, bit, 8);
      if count != 0 && !hunting && i == 0 && count >= 3 && fcs == GOOD_FCS {
        assert buf[..count][..count - 2] == buf[..count - 2];
        got := got + [buf[..count - 2]];
      }
      bit := bit - 8;
      ones, hunting, fcs, count := 0, false, INIT_FCS, 0;
      FcsNothing();
      assert buf[..0] == [];
    }

    /** One data bit with the zero inserted after it, or one bit skipped. */
    method TakeOne() returns (b: bool)
      requires Inv() && bit >= 8
      modifies this
      ensures Inv() && Value() == TakeBit(old(Value())) && got == old(got) && b == old(Value()).q[0]
    {
      hide Window, FcsOf;
      ShiftOut(data, bit, 1);
      ShiftOut(data, bit - 1, 1);
      TopBits(data, bit);
      b := Shr(data, bit - 1) % 2 == 1;
      var second := Shr(data, bit - 2) % 2 == 1;
      if !hunting {
        if b {
          ones := ones + 1;
          if ones == 5 {
            if second {
              hunting := true;
              count := 0;
              assert buf[..0] == [];
            }
            bit := bit - 1;
            ones := 0;
          }
        } else {
          ones := 0;
        }
      }
      bit := bit - 1;
    }

    /** Store a complete octet. */
    method StoreOctet(out: octet)
      requires Inv()
      modifies this, buf
      ensures Inv() && Value() == Store(old(Value()), out) && got == old(got)
    {
      hide Window, FcsOf, ByTable, Eight;
      if !hunting {
        if count < RX_SIZE {
          ghost var before := buf[..count];
          FcsSnoc(before + [out], count);
          assert (before + [out])[..count] == before && (before + [out])[..count + 1] == before + [out];
          TableIsDivision(fcs, out);
          buf[count] := out;
          count := count + 1;
          fcs := ByTable(fcs, out);
          assert buf[..count] == before + [out];
        } else {
          hunting := true;
          count := 0;
          assert buf[..0] == [];
        }
      }
    }

    /** One receive pass: eight data bits, or up to a flag. */
    method RunPass()
      requires Inv() && bit >= LOOKAHEAD
      modifies this, buf
      ensures Inv() && old(got) <= got && Got(Value(), got[|old(got)|..]) == Pass(old(Value()), 0, 0)
    {
      hide Window, FcsOf, Pass, TakeBit, Store, Completed, Collect;
      ghost var v, g0 := Value(), got;
      var out: octet := 0;
      var i := 0;
      while i < 8
        invariant 0 <= i <= 8 && Inv() && got == g0 && (i < 8 ==> bit >= Room(i, ones))
        invariant Pass(v, 0, 0) == Pass(Value(), i, out)
      {
        ghost var r := Value();
        PassStep(r, i, out);
        SeesFlag(data, bit);
        if Shr(data, bit - 8) % 256 == 0x7e {
          EndFrame(i);
          assert got[|g0|..] == Completed(r, i);
          return;
        }
        var skip := hunting;
        var b := TakeOne();
        if !skip {
          out := Collect(out, b);
        }
        i := i + 1;
      }
      PassEnd(Value(), out);
      StoreOctet(out);
      assert got[|g0|..] == [];
    }

    /** Groups of `n` bits from the line. */
    method PutBits(n: nat, groups: seq<nat>)
      requires Inv() && 1 <= n <= 8 && bit < LOOKAHEAD
      modifies this, buf
      ensures Inv() && bit < LOOKAHEAD && old(got) <= got
      ensures Got(Value(), got[|old(got)|..]) == PutAll(old(Value()), Groups(groups, n))
    {
      hide Window, FcsOf, Pass, PutAll, Groups, Hdlc.Put;
      ghost var v, g0, gs := Value(), got, Groups(groups, n);
      var i := 0;
      assert gs[0..] == gs && got[|g0|..] == [];
      PutNothing(v, gs);
      while i < |groups|
        invariant 0 <= i <= |groups| && Inv() && bit < LOOKAHEAD && g0 <= got && |gs| == |groups|
        invariant PutAll(v, gs) == Behind(got[|g0|..], PutAll(Value(), gs[i..]))
      {
        ghost var r, mid := Value(), got;
        PutDrains(r, gs[i]);
        PutOne(r, gs, i);
        TakeIn(groups[i], n);
        assert got[|mid|..] == [];
        PutUnfolds(r, gs[i]);
        if bit >= LOOKAHEAD {
          RunPass();
        }
        BehindTwice(g0, mid, got, PutAll(Value(), gs[i + 1..]));
        i := i + 1;
      }
      PutNothing(Value(), gs[i..]);
    }
  }

  /** Results after frames that have been delivered already. */
  function Behind(frames: seq<Octets>, g: Got): Got
  {
    Got(g.r, frames + g.frames)
  }

  lemma BehindTwice(a: seq<Octets>, b: seq<Octets>, c: seq<Octets>, g: Got)
    requires a <= b <= c
    ensures Behind(b[|a|..], Behind(c[|b|..], g)) == Behind(c[|a|..], g)
  {
    assert b[|a|..] + (c[|b|..] + g.frames) == c[|a|..] + g.frames;
  }

  lemma PutNothing(r: Rx, gs: seq<seq<bool>>)
    requires RxInv(r)
    ensures gs == [] ==> PutAll(r, gs) == Got(r, [])
    ensures Behind([], PutAll(r, gs)) == PutAll(r, gs)
    ensures forall f: seq<Octets> :: Behind(f, Got(r, [])).frames == f
  {
    assert [] + PutAll(r, gs).frames == PutAll(r, gs).frames;
  }

  lemma PutOne(r: Rx, gs: seq<seq<bool>>, i: nat)
    requires RxInv(r) && i < |gs|
    ensures PutAll(r, gs[i..]) == Behind(Hdlc.Put(r, gs[i]).frames, PutAll(Hdlc.Put(r, gs[i]).r, gs[i + 1..]))
  {
    hide Hdlc.Put;
    assert gs[i..][1..] == gs[i + 1..];
  }

  lemma PutUnfolds(r: Rx, g: seq<bool>)
    requires RxInv(r)
    ensures Hdlc.Put(r, g) == if |Extend(r, g).q| < LOOKAHEAD then Got(Extend(r, g), []) else Pass(Extend(r, g), 0, 0)
  {
    hide Pass;
  }

  lemma PassEnd(r: Rx, out: octet)
    requires RxInv(r)
    ensures Pass(r, 8, out) == Got(Store(r, out), [])
  {}

  lemma {:induction false} WindowInjective(u: nat, v: nat, n: nat)
    requires u < Pow2(n) && v < Pow2(n) && Window(u, n) == Window(v, n)
    ensures u == v
    decreases n
  {
    if n > 0 {
      var a, b := Window(u, n), Window(v, n);
      assert a[..n - 1] == Window(u / 2, n - 1) && b[..n - 1] == Window(v / 2, n - 1);
      assert a[n - 1] == (u % 2 == 1) && b[n - 1] == (v % 2 == 1);
      WindowInjective(u / 2, v / 2, n - 1);
    }
  }

  /** A group only has `n` bits. */
  lemma MaskedGroup(g: nat, n: nat)
    ensures g % Pow2(n) < Pow2(n) && Window(g % Pow2(n), n) == Window(g, n)
  {
    hide Window, Pow2;
    DivMod(g, Pow2(n));
    MaskedValue(g, g % Pow2(n), Shr(g, n), n);
  }

  lemma MaskedValue(g: nat, low: nat, high: nat, n: nat)
    requires g == low + high * Pow2(n)
    ensures Window(low, n) == Window(g, n)
  {
    WindowIgnores(low, high, n);
  }

  lemma GroupOf(v: nat, bit: nat, n: nat, g: nat)
    requires n <= bit && g == Shr(v, bit - n) % Pow2(n)
    ensures g < Pow2(n) && Window(v, bit) == Window(g, n) + Window(v, bit - n)
  {
    hide Window, Pow2;
    ShiftOut(v, bit, n);
    MaskedGroup(Shr(v, bit - n), n);
  }

  /** The two oldest bits. */
  lemma TopBits(v: nat, bit: nat)
    requires bit >= 2
    ensures Window(v, bit)[0] == (Shr(v, bit - 1) % 2 == 1) && Window(v, bit)[1] == (Shr(v, bit - 2) % 2 == 1)
  {
    hide Window, Pow2;
    ShiftOut(v, bit, 1);
    ShiftOut(v, bit - 1, 1);
    OneBit(Shr(v, bit - 1));
    OneBit(Shr(v, bit - 2));
  }

  lemma OneBit(v: nat)
    ensures Window(v, 1) == [v % 2 == 1]
  {
    assert Window(v / 2, 0) == [];
  }

  /** The flag test on the oldest eight bits. */
  lemma SeesFlag(v: nat, bit: nat)
    requires bit >= 8
    ensures Shr(v, bit - 8) % 256 == 0x7e <==> Window(v, bit)[..8] == FLAG
  {
    hide Window, Pow2;
    FlagBits();
    var top := Shr(v, bit - 8);
    ShiftOut(v, bit, 8);
    MaskedGroup(top, 8);
    assert Window(v, bit)[..8] == Window(top, 8);
    if Window(top % 256, 8) == Window(0x7e, 8) {
      WindowInjective(top % 256, 0x7e, 8);
    }
  }

  lemma GroupsSnoc(e: seq<bool>, out: seq<nat>, g: nat, n: nat)
    ensures (e + Flatten(Groups(out, n))) + Window(g, n) == e + Flatten(Groups(out + [g], n))
  {
    hide Window, Flatten;
    assert Groups(out + [g], n) == Groups(out, n) + [Window(g, n)];
    FlattenSnoc(Groups(out, n), Window(g, n));
    assert (e + Flatten(Groups(out, n))) + Window(g, n) == e + (Flatten(Groups(out, n)) + Window(g, n));
  }

  lemma LowBit(b: octet)
    ensures OctetBits(b)[0] == (b & 1 != 0)
  {}

  /** Stuffing one more bit. */
  lemma BitAt(raw: seq<bool>, i: nat, k: nat)
    requires i < |raw| && k < 5
    ensures var c := Carry(raw[..i], k);
            && Stuff(raw[..i + 1], k) == Stuff(raw[..i], k)
               + (if !raw[i] then [false] else if c + 1 == 5 then [true, false] else [true])
            && Carry(raw[..i + 1], k) == (if !raw[i] || c + 1 == 5 then 0 else c + 1)
  {
    assert raw[..i + 1] == raw[..i] + [raw[i]];
    StuffConcat(raw[..i], [raw[i]], k);
    assert [raw[i]][1..] == [];
  }

  lemma NextOctet(m: Octets, k: nat)
    requires m != [] && k < 5
    ensures Stuff(RawBits(m), k) == Stuff(OctetBits(m[0]), k) + Stuff(RawBits(m[1..]), Carry(OctetBits(m[0]), k))
  {
    StuffConcat(OctetBits(m[0]), RawBits(m[1..]), k);
  }

  lemma FcsSnoc(f: Octets, n: nat)
    requires n < |f|
    ensures FcsOf(INIT_FCS, f[..n + 1]) == Eight(FcsOf(INIT_FCS, f[..n]), f[n])
  {
    assert f[..n + 1] == f[..n] + [f[n]];
    FcsConcat(INIT_FCS, f[..n], [f[n]]);
    assert [f[n]][1..] == [];
  }

  lemma FcsNothing()
    ensures FcsOf(INIT_FCS, []) == INIT_FCS
  {}

  lemma Regroup(e: seq<bool>, w: seq<bool>, x: seq<bool>, y: seq<bool>)
    ensures e + (w + (x + y)) == e + ((w + x) + y)
  {
    assert w + (x + y) == (w + x) + y;
  }

  lemma CheckBits(c: Octets, k: nat)
    requires |c| == 2 && k < 5
    ensures Stuff(RawBits(c), k) == Stuff(OctetBits(c[0]), k) + Stuff(OctetBits(c[1]), Carry(OctetBits(c[0]), k))
    ensures |Stuff(OctetBits(c[0]), k)| >= 8
  {
    hide Stuff, OctetBits;
    NextOctet(c, k);
    NextOctet(c[1..], Carry(OctetBits(c[0]), k));
    assert c[1..][1..] == [];
    NoMore(OctetBits(c[1]), Carry(OctetBits(c[0]), k));
    var x := Stuff(OctetBits(c[1]), Carry(OctetBits(c[0]), k));
    assert x + [] == x;
  }

  /** After the last octet of a frame nothing is left to send. */
  lemma AllSent(e: seq<bool>, w: seq<bool>, x: seq<bool>, y: seq<bool>, all: seq<bool>)
    requires all == (w + x) + y
    ensures e + (all + Stuff(RawBits([]), 0)) == e + (w + (x + y))
  {
    NoBits(0);
    assert all + [] == w + (x + y);
  }

  /** A flag leaves the answer's octets to be sent. */
  lemma FlagSent(e: seq<bool>, w: seq<bool>, asked: seq<Answer>, a: Answer)
    requires e + (w + Stuff(RawBits([]), 0)) == Line(asked)
    ensures e + ((w + FLAG) + Stuff(RawBits(Sent(a)), 0)) == Line(asked) + Piece(a)
  {
    hide Stuff, RawBits, Line, Sent;
    var s := Stuff(RawBits(Sent(a)), 0);
    NoBits(0);
    assert e + (w + []) == e + w;
    assert e + ((w + FLAG) + s) == (e + w) + (FLAG + s);
  }

  lemma NoMore(x: seq<bool>, k: nat)
    requires k < 5
    ensures x + [] == x && Stuff(RawBits([]), Carry(x, k)) == []
  {}

  lemma NoBits(k: nat)
    ensures Stuff(RawBits([]), k) == []
  {}

  lemma FlagBits()
    ensures Window(0x7e, 8) == FLAG && Pow2(8) == 256
  {
    Pow2Eight();
    assert Window(0x7e, 1) == [false];
    WindowStep(0x7e, 8); WindowStep(0x3f, 7); WindowStep(0x1f, 6); WindowStep(0x0f, 5);
    WindowStep(0x07, 4); WindowStep(0x03, 3); WindowStep(0x01, 2); WindowStep(0x00, 1);
  }

  lemma WindowStep(v: nat, n: nat)
    requires n > 0
    ensures Window(v, n) == Window(v / 2, n - 1) + [v % 2 == 1] && Window(v, 0) == []
  {}

  lemma {:induction false} LineSnoc(answers: seq<Answer>, a: Answer)
    ensures Line(answers + [a]) == Line(answers) + Piece(a)
    decreases |answers|
  {
    hide Piece;
    if answers == [] {
      assert answers + [a] == [a];
      assert Line([a]) == Piece(a) + Line([]);
      assert Piece(a) + [] == Piece(a);
      assert [] + Piece(a) == Piece(a);
    } else {
      assert (answers + [a])[1..] == answers[1..] + [a];
      LineSnoc(answers[1..], a);
      assert Piece(answers[0]) + (Line(answers[1..]) + Piece(a)) == (Piece(answers[0]) + Line(answers[1..])) + Piece(a);
    }
  }

  // ----- from transmitter to receiver -----

  /** Bits cut into groups of `n`; what does not fill a group is left out. */
  function Cut(bits: seq<bool>, n: nat): (gs: seq<nat>)
    requires 1 <= n
    decreases |bits|
  {
    if |bits| < n then [] else [ValueOf(bits[..n])] + Cut(bits[n..], n)
  }

  function ValueOf(bits: seq<bool>): nat
  {
    if bits == [] then 0 else 2 * ValueOf(bits[..|bits| - 1]) + (if bits[|bits| - 1] then 1 else 0)
  }

  lemma {:induction false} WindowValue(bits: seq<bool>)
    ensures Window(ValueOf(bits), |bits|) == bits
    decreases |bits|
  {
    if bits != [] {
      WindowValue(bits[..|bits| - 1]);
      assert bits == bits[..|bits| - 1] + [bits[|bits| - 1]];
    }
  }

  /** Cutting keeps the bits in order and loses fewer than `n` at the end. */
  lemma {:induction false} CutBits(bits: seq<bool>, n: nat)
    requires 1 <= n
    ensures Flatten(Groups(Cut(bits, n), n)) <= bits && |Flatten(Groups(Cut(bits, n), n))| > |bits| - n
    decreases |bits|
  {
    var gs := Cut(bits, n);
    if |bits| < n {
      assert Groups(gs, n) == [];
    } else {
      CutBits(bits[n..], n);
      WindowValue(bits[..n]);
      assert Groups(gs, n)[1..] == Groups(Cut(bits[n..], n), n);
      assert Groups(gs, n)[0] == bits[..n];
      assert bits == bits[..n] + bits[n..];
    }
  }
}
