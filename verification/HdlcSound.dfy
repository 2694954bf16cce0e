/**
 What the receiver hands over from any line whatever, damaged or not: only frames that stand on the
 line between two flags, with their own check octets behind them.
 */
module HdlcSound {
  import opened Fcs
  import opened Hdlc
  import opened HdlcRoundTrip

  /** Frame `f` stands on the line between the flag at `a` and the flag at `b`. */
  predicate Stands(line: seq<bool>, a: nat, b: nat, f: Octets)
  {
    && a + 8 <= b && b + 8 <= |line| && line[a..a + 8] == FLAG && line[b..b + 8] == FLAG
    && line[a + 8..b] == Stuff(RawBits(f + Check(f)), 0) && 1 <= |f| <= 510
  }

  /** The frames stand on the line in their order, the last flag at or before `end`; neighbours may share a flag. */
  ghost predicate Carries(line: seq<bool>, fs: seq<Octets>, end: nat)
    decreases |fs|
  {
    if fs == [] then true
    else
      var n := |fs| - 1;
      exists a: nat, b: nat :: Stands(line, a, b, fs[n]) && b <= end && Carries(line, fs[..n], a)
  }

  /** Since the flag at `a` the line holds the bits `raw`, stuffed, and nothing else. */
  predicate Open(line: seq<bool>, a: nat, pos: nat, raw: seq<bool>, ones: nat)
  {
    && a + 8 <= pos <= |line| && line[a..a + 8] == FLAG && line[a + 8..pos] == Stuff(raw, 0)
    && ones == Carry(raw, 0)
  }

  /** The receiver has come to `pos`; the flag at `a` opened what it collects. */
  predicate At(line: seq<bool>, pos: nat, r: Rx, a: nat, bits: seq<bool>)
  {
    && RxInv(r) && pos <= |line| && r.q == line[pos..]
    && (!r.hunting ==> Open(line, a, pos, RawBits(r.buf) + bits, r.ones))
  }

  lemma {:induction false} RawSnoc(m: Octets, o: octet)
    ensures RawBits(m + [o]) == RawBits(m) + OctetBits(o)
    decreases |m|
  {
    hide OctetBits;
    if m == [] {
      assert ([o])[1..] == [] && RawBits([]) == [];
      assert OctetBits(o) + [] == [] + OctetBits(o);
    } else {
      assert (m + [o])[0] == m[0] && (m + [o])[1..] == m[1..] + [o];
      RawSnoc(m[1..], o);
      assert OctetBits(m[0]) + (RawBits(m[1..]) + OctetBits(o)) == (OctetBits(m[0]) + RawBits(m[1..])) + OctetBits(o);
    }
  }

  lemma CollectEight(b: seq<bool>)
    requires |b| == 8
    ensures CollectAll(0, b) == Collect(Collect(Collect(Collect(Collect(Collect(Collect(Collect(0,
              b[0]), b[1]), b[2]), b[3]), b[4]), b[5]), b[6]), b[7])
  {
    hide Collect;
    var c1 := Collect(0, b[0]); var c2 := Collect(c1, b[1]); var c3 := Collect(c2, b[2]); var c4 := Collect(c3, b[3]);
    var c5 := Collect(c4, b[4]); var c6 := Collect(c5, b[5]); var c7 := Collect(c6, b[6]);
    assert b[0..] == b && b[8..] == [];
    CollectStep(0, b, 0); CollectStep(c1, b, 1); CollectStep(c2, b, 2); CollectStep(c3, b, 3);
    CollectStep(c4, b, 4); CollectStep(c5, b, 5); CollectStep(c6, b, 6); CollectStep(c7, b, 7);
  }

  /** Eight bits collected are the bits of the octet stored. */
  lemma BitsCollected(b: seq<bool>)
    requires |b| == 8
    ensures OctetBits(CollectAll(0, b)) == b
  {
    hide *;
    CollectEight(b);
    EightCollected(b, CollectAll(0, b));
  }

  lemma EightCollected(b: seq<bool>, o: octet)
    requires |b| == 8
    requires o == Collect(Collect(Collect(Collect(Collect(Collect(Collect(Collect(0,
                    b[0]), b[1]), b[2]), b[3]), b[4]), b[5]), b[6]), b[7])
    ensures OctetBits(o) == b
  {
    assert b == [b[0], b[1], b[2], b[3], b[4], b[5], b[6], b[7]];
  }

  lemma {:induction false} CollectSnoc(out: octet, b: seq<bool>, x: bool)
    ensures CollectAll(out, b + [x]) == Collect(CollectAll(out, b), x)
    decreases |b|
  {
    hide Collect;
    if b == [] {
      assert [x][1..] == [] && [] + [x] == [x];
      assert CollectAll(Collect(out, x), []) == Collect(out, x);
    } else {
      assert (b + [x])[1..] == b[1..] + [x];
      CollectSnoc(Collect(out, b[0]), b[1..], x);
    }
  }

  lemma OneMore(raw: seq<bool>, x: bool)
    ensures Stuff(raw + [x], 0) == Stuff(raw, 0) + Stuff([x], Carry(raw, 0))
    ensures var k := Carry(raw, 0);
            && Carry(raw + [x], 0) == (if !x || k + 1 == 5 then 0 else k + 1)
            && Stuff([x], k) == (if !x then [false] else if k + 1 == 5 then [true, false] else [true])
  {
    StuffConcat(raw, [x], 0);
    StuffOne([x], Carry(raw, 0));
    assert [x][..1] == [x];
  }

  /** One bit of the line, with the zero inserted after it. */
  lemma TakeSound(line: seq<bool>, pos: nat, r: Rx, a: nat, bits: seq<bool>) returns (pos1: nat)
    requires At(line, pos, r, a, bits) && |r.q| >= 8
    ensures pos <= pos1 && At(line, pos1, TakeBit(r), a, if r.hunting then bits else bits + [r.q[0]])
    ensures TakeBit(r).hunting || TakeBit(r).buf == r.buf
  {
    hide Stuff, Carry, RawBits;
    pos1 := pos + |r.q| - |TakeBit(r).q|;
    assert r.q[1..] == line[pos + 1..] && r.q[2..] == line[pos + 2..];
    if !r.hunting {
      var raw := RawBits(r.buf) + bits;
      OneMore(raw, r.q[0]);
      assert RawBits(r.buf) + (bits + [r.q[0]]) == raw + [r.q[0]];
      assert line[a + 8..pos + 1] == line[a + 8..pos] + [r.q[0]];
      assert line[a + 8..pos + 2] == line[a + 8..pos] + [r.q[0], r.q[1]];
    }
  }

  /** A frame handed over at a flag stands on the line. */
  lemma CompletedStands(line: seq<bool>, pos: nat, r: Rx, i: nat, a: nat, bits: seq<bool>)
    requires At(line, pos, r, a, bits) && |bits| == i && |r.q| >= 8 && r.q[..8] == FLAG
    ensures Completed(r, i) == [] || (|Completed(r, i)| == 1 && Stands(line, a, pos, Completed(r, i)[0]))
    ensures Open(line, pos, pos + 8, [], 0)
  {
    hide FcsOf, Stuff;
    assert line[pos..pos + 8] == r.q[..8];
    assert line[pos + 8..pos + 8] == [];
    assert Stuff([], 0) == [] by { StuffNothing(); }
    if Completed(r, i) != [] {
      GoodIsChecked(r.buf);
      assert bits == [] && RawBits(r.buf) + [] == RawBits(r.buf);
    }
  }

  lemma StuffNothing()
    ensures Stuff([], 0) == []
  {}

  /** The rest of a pass. */
  lemma {:induction false} PassSound(line: seq<bool>, pos: nat, r: Rx, i: nat, out: octet, a: nat, bits: seq<bool>)
    returns (pos1: nat, a1: nat)
    requires At(line, pos, r, a, bits) && i <= 8 && (i < 8 ==> |r.q| >= Room(i, r.ones))
    requires !r.hunting ==> |bits| == i && out == CollectAll(0, bits)
    ensures var g := Pass(r, i, out);
            && pos <= pos1 && At(line, pos1, g.r, a1, []) && (a1 == a || pos <= a1)
            && (g.frames == [] || (|g.frames| == 1 && Stands(line, a, a1, g.frames[0]) && !r.hunting))
            && (r.hunting && !g.r.hunting ==> pos <= a1) && (g.frames != [] ==> a1 <= pos1)
    decreases 8 - i
  {
    hide Collect, FcsOf, TakeBit, Stuff, Carry, Completed, CollectAll, RawBits, Stands;
    if i == 8 {
      pos1, a1 := pos, a;
      if !r.hunting {
        StoreSound(line, pos, r, out, a, bits);
      }
    } else {
      PassStep(r, i, out);
      if r.q[..8] == FLAG {
        CompletedAt(line, pos, r, i, a, bits);
        pos1, a1 := pos + 8, pos;
        assert r.q[8..] == line[pos + 8..];
      } else {
        var p := TakeSound(line, pos, r, a, bits);
        TakeBitRoom(r, i);
        TakeHunts(r);
        CollectSnoc(0, bits, r.q[0]);
        var next := if r.hunting then out else Collect(out, r.q[0]);
        pos1, a1 := PassSound(line, p, TakeBit(r), i + 1, next, a, if r.hunting then bits else bits + [r.q[0]]);
      }
    }
  }

  lemma TakeHunts(r: Rx)
    requires RxInv(r) && |r.q| >= 8
    ensures r.hunting ==> TakeBit(r).hunting
  {}

  lemma CompletedAt(line: seq<bool>, pos: nat, r: Rx, i: nat, a: nat, bits: seq<bool>)
    requires At(line, pos, r, a, bits) && (!r.hunting ==> |bits| == i) && |r.q| >= 8 && r.q[..8] == FLAG
    ensures Completed(r, i) == [] || (!r.hunting && |Completed(r, i)| == 1 && Stands(line, a, pos, Completed(r, i)[0]))
    ensures Open(line, pos, pos + 8, RawBits([]) + [], 0)
  {
    hide FcsOf, Stuff, Stands;
    assert RawBits([]) + [] == [];
    if r.hunting {
      assert line[pos..pos + 8] == r.q[..8];
      assert line[pos + 8..pos + 8] == [];
      StuffNothing();
    } else {
      CompletedStands(line, pos, r, i, a, bits);
    }
  }

  lemma StoreSound(line: seq<bool>, pos: nat, r: Rx, out: octet, a: nat, bits: seq<bool>)
    requires At(line, pos, r, a, bits) && !r.hunting && |bits| == 8 && out == CollectAll(0, bits)
    ensures At(line, pos, Store(r, out), a, [])
  {
    hide Stuff, Carry, CollectAll, RawBits, OctetBits;
    BitsCollected(bits);
    RawSnoc(r.buf, out);
    assert RawBits(r.buf + [out]) + [] == RawBits(r.buf) + bits;
  }

  lemma CarriesMore(line: seq<bool>, fs: seq<Octets>, e: nat, a: nat, b: nat, f: Octets)
    requires Carries(line, fs, e) && e <= a && Stands(line, a, b, f)
    ensures Carries(line, fs + [f], b)
  {
    hide Stands;
    CarriesLater(line, fs, e, a);
    assert (fs + [f])[..|fs|] == fs && (fs + [f])[|fs|] == f;
    assert Stands(line, a, b, (fs + [f])[|fs|]) && Carries(line, (fs + [f])[..|fs|], a);
  }

  lemma CarriesLater(line: seq<bool>, fs: seq<Octets>, e: nat, e1: nat)
    requires Carries(line, fs, e) && e <= e1
    ensures Carries(line, fs, e1)
  {
    hide Stands;
    if fs != [] {
      var n := |fs| - 1;
      var a: nat, b: nat :| Stands(line, a, b, fs[n]) && b <= e && Carries(line, fs[..n], a);
    }
  }

  lemma {:induction false} DrainSound(line: seq<bool>, pos: nat, r: Rx, a: nat, fs: seq<Octets>, e: nat)
    returns (e1: nat)
    requires At(line, pos, r, a, []) && Carries(line, fs, e) && e <= pos && (!r.hunting ==> e <= a)
    ensures Carries(line, fs + Drain(r).frames, e1)
    decreases |r.q|
  {
    hide Pass, Stuff, Carry, RawBits, Stands, Carries, Drain;
    if |r.q| < LOOKAHEAD {
      DrainIdle(r);
      assert fs + [] == fs;
      e1 := e;
    } else {
      CollectNothing();
      var pos1, a1 := PassSound(line, pos, r, 0, 0, a, []);
      DrainStep(r);
      var g := Pass(r, 0, 0);
      var e0 := e;
      if g.frames != [] {
        CarriesMore(line, fs, e, a, a1, g.frames[0]);
        assert g.frames == [g.frames[0]];
        e0 := a1;
      } else {
        assert fs + [] == fs;
      }
      FlagBehind(line, pos1, g.r, a1);
      e1 := DrainSound(line, pos1, g.r, a1, fs + g.frames, e0);
      assert (fs + g.frames) + Drain(g.r).frames == fs + (g.frames + Drain(g.r).frames);
    }
  }

  lemma CollectNothing()
    ensures CollectAll(0, []) == 0
  {}

  lemma FlagBehind(line: seq<bool>, pos: nat, r: Rx, a: nat)
    requires At(line, pos, r, a, [])
    ensures !r.hunting ==> a <= pos
  {}

  /**
   Whatever bits arrive, and however they are grouped: the frames handed over stand on the line in
   their order, each between two flags, with between 1 and 510 octets followed by its check octets
   and nothing else, stuffed.
   */
  lemma OnlyGoodFrames(groups: seq<seq<bool>>)
    requires forall g :: g in groups ==> |g| <= 8
    ensures exists end :: Carries(Flatten(groups), PutAll(RX_INIT, groups).frames, end)
  {
    hide Carries, Pass, Drain;
    GroupingIrrelevant(RX_INIT, groups);
    var line := Flatten(groups);
    var r := Extend(RX_INIT, line);
    assert r.q == line == line[0..];
    CarriesNone(line);
    var e := DrainSound(line, 0, r, 0, [], 0);
    assert [] + Drain(r).frames == Drain(r).frames;
  }

  lemma CarriesNone(line: seq<bool>)
    ensures Carries(line, [], 0)
  {}

  // ----- what becomes of octets between two flags -----

  lemma CarryConcat(a: Octets, o: octet, k: nat)
    requires k < 5
    ensures RawBits([o] + a) == OctetBits(o) + RawBits(a)
    ensures Stuff(RawBits([o] + a), k) == Stuff(OctetBits(o), k) + Stuff(RawBits(a), Carry(OctetBits(o), k))
    ensures Carry(RawBits([o] + a), k) == Carry(RawBits(a), Carry(OctetBits(o), k))
  {
    hide Stuff, Carry, OctetBits;
    assert ([o] + a)[1..] == a;
    StuffConcat(OctetBits(o), RawBits(a), k);
  }

  lemma {:induction false} OctetsArrive(r: Rx, m: Octets, tail: seq<bool>)
    requires RxInv(r) && !r.hunting && r.q == Stuff(RawBits(m), r.ones) + tail
    requires |tail| >= LOOKAHEAD && !tail[0] && |r.buf| + |m| <= RX_SIZE
    ensures var r1 := Rx(tail, false, Carry(RawBits(m), r.ones), r.buf + m); Drain(r) == Drain(r1)
    decreases |m|
  {
    hide Pass, Drain, Stuff, Carry, OctetBits;
    if m == [] {
      NoOctets(r.ones);
      assert r.buf + [] == r.buf && [] + tail == tail;
    } else {
      OctetPass(r, m, tail);
      DrainStep(r);
      var o, rest := m[0], m[1..];
      CarryConcat(rest, o, r.ones);
      assert [o] + rest == m;
      var w := |Stuff(OctetBits(o), r.ones)|;
      var r1 := Rx(r.q[w..], false, Carry(OctetBits(o), r.ones), r.buf + [o]);
      assert r.q == Stuff(OctetBits(o), r.ones) + (Stuff(RawBits(rest), r1.ones) + tail);
      assert r.q[w..] == Stuff(RawBits(rest), r1.ones) + tail;
      assert [] + Drain(r1).frames == Drain(r1).frames;
      OctetsArrive(r1, rest, tail);
      assert (r.buf + [o]) + rest == r.buf + m;
    }
  }

  lemma NoOctets(k: nat)
    requires k < 5
    ensures Stuff(RawBits([]), k) == [] && Carry(RawBits([]), k) == k
  {}

  lemma FlagPass(r: Rx, more: seq<bool>)
    requires RxInv(r) && r.q == FLAG + more && |r.q| >= LOOKAHEAD
    ensures Drain(r).frames == Completed(r, 0) + Drain(Rx(more, false, 0, [])).frames
  {
    hide Completed;
    assert r.q[..8] == FLAG && r.q[8..] == more;
    PassStep(r, 0, 0);
    DrainStep(r);
  }

  /** What the second of two flags makes of the octets before it. */
  function Verdict(g: Octets): seq<Octets>
  {
    if |g| >= 3 && g == g[..|g| - 2] + Check(g[..|g| - 2]) then [g[..|g| - 2]] else []
  }

  lemma CompletedIs(r: Rx)
    requires !r.hunting
    ensures Completed(r, 0) == Verdict(r.buf)
  {
    hide FcsOf, Check;
    if |r.buf| >= 3 {
      GoodIsChecked(r.buf);
    }
  }

  lemma Opens(tail: seq<bool>)
    requires |tail| >= 10
    ensures Drain(Extend(RX_INIT, FLAG + tail)).frames == Drain(Rx(tail, false, 0, [])).frames
  {
    hide Pass, Drain, FcsOf;
    var r := Extend(RX_INIT, FLAG + tail);
    assert r.q == FLAG + tail;
    FlagPass(r, tail);
    assert [] + Drain(Rx(tail, false, 0, [])).frames == Drain(Rx(tail, false, 0, [])).frames;
  }

  /**
   Up to 512 octets between two flags: they are handed over as a frame if and only if there are at
   least three and the last two are the check octets of those before; and the receiver goes on from
   the second flag.
   */
  lemma HandedOver(g: Octets, more: seq<bool>)
    requires |g| <= RX_SIZE && |more| >= 10
    ensures var line := FLAG + (Stuff(RawBits(g), 0) + (FLAG + more));
            Drain(Extend(RX_INIT, line)).frames == Verdict(g) + Drain(Extend(RX_INIT, FLAG + more)).frames
  {
    hide Pass, Drain, Stuff, Carry, Verdict, Completed, RawBits;
    var data, tail := Stuff(RawBits(g), 0), FLAG + more;
    Opens(data + tail);
    Opens(more);
    var r1 := Rx(data + tail, false, 0, []);
    assert !tail[0];
    OctetsArrive(r1, g, tail);
    assert [] + g == g;
    var r2 := Rx(tail, false, Carry(RawBits(g), 0), g);
    FlagPass(r2, more);
    CompletedIs(r2);
  }

  /**
   A frame of which two neighbouring octets have been damaged, in one bit or in many, is not handed
   over, and nothing else in its place.
   */
  lemma DamagedIsDropped(f: Octets, x: Octets, c: Octets, d: Octets, y: Octets, more: seq<bool>)
    requires 1 <= |f| <= 510 && |more| >= 10 && f + Check(f) == x + c + y && |c| == |d| == 2 && c != d
    ensures var line := FLAG + (Stuff(RawBits(x + d + y), 0) + (FLAG + more));
            Drain(Extend(RX_INIT, line)).frames == Drain(Extend(RX_INIT, FLAG + more)).frames
  {
    hide Drain, Stuff, FcsOf, Check, RawBits;
    var g := x + d + y;
    assert |g| == |f + Check(f)| == |f| + 2;
    Residue(f);
    DamageDetected(x, c, d, y);
    GoodIsChecked(g);
    HandedOver(g, more);
    var after := Drain(Extend(RX_INIT, FLAG + more)).frames;
    assert [] + after == after;
  }

  // ----- an example -----

  /**
   A frame of two octets as it stands on the line: a flag, then 03 7f and the check octets 5f ae, each
   from its lowest bit on, with zeros inserted.
   */
  lemma FrameOnLine()
    ensures Piece(Frame([0x03, 0x7f])) ==
            [false, true, true, true, true, true, true, false]
            + Stuff([true, true, false, false, false, false, false, false]
                    + [true, true, true, true, true, true, true, false]
                    + [true, true, true, true, true, false, true, false]
                    + [false, true, true, true, false, true, false, true], 0)
  {
    hide Stuff;
    CheckOctets();
    var c, d, e, f: octet := 0x03, 0x7f, 0x5f, 0xae;
    var x, y, z, w := OctetBits(c), OctetBits(d), OctetBits(e), OctetBits(f);
    FourOctets(c, d, e, f);
    assert [c, d] + [e, f] == [c, d, e, f];
    assert x == [true, true, false, false, false, false, false, false];
    assert y == [true, true, true, true, true, true, true, false];
    assert z == [true, true, true, true, true, false, true, false];
    assert w == [false, true, true, true, false, true, false, true];
  }

  lemma FourOctets(c: octet, d: octet, e: octet, f: octet)
    ensures RawBits([c, d, e, f]) == OctetBits(c) + OctetBits(d) + OctetBits(e) + OctetBits(f)
  {
    hide OctetBits;
    assert [c, d, e, f] == [c] + [d, e, f] && [d, e, f] == [d] + [e, f] && [e, f] == [e] + [f] && [f] == [f] + [];
    RawFront(c, [d, e, f]);
    RawFront(d, [e, f]);
    RawFront(e, [f]);
    RawFront(f, []);
    assert RawBits([]) == [];
  }

  lemma RawFront(o: octet, m: Octets)
    ensures RawBits([o] + m) == OctetBits(o) + RawBits(m)
  {
    assert ([o] + m)[1..] == m;
  }
}
