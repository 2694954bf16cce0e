/** What the receiver makes of the line: exactly the frames that were sent, in order. */
module HdlcRoundTrip {
  import opened Fcs
  import opened Hdlc

  function CollectAll(out: octet, bits: seq<bool>): octet
    decreases |bits|
  {
    if bits == [] then out else CollectAll(Collect(out, bits[0]), bits[1..])
  }

  lemma CollectStep(out: octet, b: seq<bool>, i: nat)
    requires i < |b|
    ensures CollectAll(out, b[i..]) == CollectAll(Collect(out, b[i]), b[i + 1..])
  {
    assert b[i..][1..] == b[i + 1..];
  }

  /** Eight collected bits are the octet they came from. */
  lemma CollectOctet(b: octet)
    ensures CollectAll(0, OctetBits(b)) == b
  {
    hide Collect;
    var o := OctetBits(b);
    var c1 := Collect(0, o[0]); var c2 := Collect(c1, o[1]); var c3 := Collect(c2, o[2]); var c4 := Collect(c3, o[3]);
    var c5 := Collect(c4, o[4]); var c6 := Collect(c5, o[5]); var c7 := Collect(c6, o[6]);
    assert o[0..] == o && o[8..] == [];
    CollectStep(0, o, 0); CollectStep(c1, o, 1); CollectStep(c2, o, 2); CollectStep(c3, o, 3);
    CollectStep(c4, o, 4); CollectStep(c5, o, 5); CollectStep(c6, o, 6); CollectStep(c7, o, 7);
    CollectBits(b);
  }

  lemma CollectBits(b: octet)
    ensures Collect(Collect(Collect(Collect(Collect(Collect(Collect(Collect(0,
              b & 0x01 != 0), b & 0x02 != 0), b & 0x04 != 0), b & 0x08 != 0),
              b & 0x10 != 0), b & 0x20 != 0), b & 0x40 != 0), b & 0x80 != 0) == b
  {}

  /** The receiver is at a data bit: what it has not processed starts the stuffed `raw`. */
  predicate AtData(r: Rx, raw: seq<bool>, tail: seq<bool>)
  {
    RxInv(r) && !r.hunting && (tail != [] ==> !tail[0]) && r.q <= Stuff(raw, r.ones) + tail
  }

  lemma {:induction false} StuffOne(raw: seq<bool>, k: nat)
    requires raw != [] && k < 5
    ensures Stuff(raw, k) == Stuff(raw[..1], k) + Stuff(raw[1..], Carry(raw[..1], k))
    ensures Carry(raw[..1], k) == (if !raw[0] || k + 1 == 5 then 0 else k + 1)
    ensures Stuff(raw[..1], k) == (if !raw[0] then [false] else if k + 1 == 5 then [true, false] else [true])
  {
    assert raw[..1] + raw[1..] == raw;
    StuffConcat(raw[..1], raw[1..], k);
    assert raw[..1][1..] == [];
  }

  lemma DropPrefix(q: seq<bool>, a: seq<bool>, b: seq<bool>)
    requires q <= a + b && |a| <= |q|
    ensures q[|a|..] <= b
  {
    assert q == (a + b)[..|q|];
    assert q[|a|..] == b[..|q| - |a|];
  }

  /** One data bit is taken with the zero inserted after it. */
  lemma TakeDataBit(r: Rx, raw: seq<bool>, tail: seq<bool>)
    requires AtData(r, raw, tail) && raw != [] && |r.q| >= 8
    ensures var w := |Stuff(raw[..1], r.ones)|; var k := Carry(raw[..1], r.ones);
            && w <= 2 && r.q[0] == raw[0] && r.q[..8] != FLAG
            && TakeBit(r) == r.(q := r.q[w..], ones := k)
            && AtData(TakeBit(r), raw[1..], tail)
  {
    hide Stuff, Carry;
    NoFlagInside(raw, r.ones, tail, r.q);
    StuffOne(raw, r.ones);
    var first := Stuff(raw[..1], r.ones);
    var s := Stuff(raw, r.ones) + tail;
    assert s == first + (Stuff(raw[1..], Carry(raw[..1], r.ones)) + tail);
    DropPrefix(r.q, first, Stuff(raw[1..], Carry(raw[..1], r.ones)) + tail);
    assert r.q[0] == s[0] && r.q[1] == s[1];
  }

  /** Cutting `n` data bits off stuffed data is cutting one, then `n - 1`. */
  lemma StuffCut(raw: seq<bool>, k: nat, n: nat)
    requires k < 5 && 0 < n <= |raw|
    ensures var k1 := Carry(raw[..1], k);
            && Stuff(raw[..n], k) == Stuff(raw[..1], k) + Stuff(raw[1..][..n - 1], k1)
            && Carry(raw[..n], k) == Carry(raw[1..][..n - 1], k1)
            && raw[1..][n - 1..] == raw[n..]
  {
    assert raw[1..][..n - 1] == raw[1..n];
    assert raw[..1] + raw[1..n] == raw[..n];
    StuffConcat(raw[..1], raw[1..n], k);
  }

  lemma CollectCut(out: octet, raw: seq<bool>, n: nat)
    requires 0 < n <= |raw|
    ensures CollectAll(out, raw[..n]) == CollectAll(Collect(out, raw[0]), raw[1..][..n - 1])
  {
    assert raw[..n][1..] == raw[1..][..n - 1];
  }

  /** The receiver after `n` data bits. */
  function After(r: Rx, raw: seq<bool>, n: nat): Rx
    requires RxInv(r) && n <= |raw| && |Stuff(raw[..n], r.ones)| <= |r.q|
  {
    r.(q := r.q[|Stuff(raw[..n], r.ones)|..], ones := Carry(raw[..n], r.ones))
  }

  lemma AfterNone(r: Rx, raw: seq<bool>, out: octet)
    requires RxInv(r)
    ensures |Stuff(raw[..0], r.ones)| == 0 && After(r, raw, 0) == r && raw[0..] == raw
            && CollectAll(out, raw[..0]) == out
  {
    assert raw[..0] == [];
  }

  lemma AfterStep(r: Rx, raw: seq<bool>, n: nat, tail: seq<bool>)
    requires AtData(r, raw, tail) && 0 < n <= |raw| && |r.q| >= 8
    requires |Stuff(raw[1..][..n - 1], TakeBit(r).ones)| <= |TakeBit(r).q|
    ensures |Stuff(raw[..n], r.ones)| <= |r.q|
    ensures After(TakeBit(r), raw[1..], n - 1) == After(r, raw, n) && raw[1..][n - 1..] == raw[n..]
  {
    hide TakeBit, Stuff, Carry;
    TakeDataBit(r, raw, tail);
    StuffCut(raw, r.ones, n);
    var r1 := TakeBit(r);
    var w, w1 := |Stuff(raw[..1], r.ones)|, |Stuff(raw[1..][..n - 1], r1.ones)|;
    assert r.q[w..][w1..] == r.q[w + w1..];
  }

  /** The rest of a pass over data bits. */
  lemma {:induction false} DataPass(r: Rx, i: nat, out: octet, raw: seq<bool>, tail: seq<bool>)
    requires AtData(r, raw, tail) && i <= 8 && |raw| >= 8 - i
    requires i < 8 ==> |r.q| >= Room(i, r.ones)
    ensures |Stuff(raw[..8 - i], r.ones)| <= |r.q|
    ensures AtData(After(r, raw, 8 - i), raw[8 - i..], tail)
    ensures Pass(r, i, out) == Got(Store(After(r, raw, 8 - i), CollectAll(out, raw[..8 - i])), [])
    decreases 8 - i
  {
    hide TakeBit, Collect, FcsOf, Completed, Stuff, Carry, CollectAll, Store, After;
    var n := 8 - i;
    if i == 8 {
      AfterNone(r, raw, out);
    } else {
      TakeDataBit(r, raw, tail);
      PassStep(r, i, out);
      CollectCut(out, raw, n);
      DataPass(TakeBit(r), i + 1, Collect(out, raw[0]), raw[1..], tail);
      AfterStep(r, raw, n, tail);
    }
  }

  /** A pass over one octet of a frame stores it. */
  lemma OctetPass(r: Rx, m: Octets, tail: seq<bool>)
    requires AtData(r, RawBits(m), tail) && m != [] && |r.buf| < RX_SIZE && |r.q| >= LOOKAHEAD
    ensures var w := |Stuff(OctetBits(m[0]), r.ones)|;
            && w <= |r.q|
            && var r1 := Rx(r.q[w..], false, Carry(OctetBits(m[0]), r.ones), r.buf + [m[0]]);
               Pass(r, 0, 0) == Got(r1, []) && AtData(r1, RawBits(m[1..]), tail)
  {
    var raw := RawBits(m);
    hide Stuff, Carry, Collect, CollectAll, Pass;
    assert raw[..8] == OctetBits(m[0]) && raw[8..] == RawBits(m[1..]);
    DataPass(r, 0, 0, raw, tail);
    CollectOctet(m[0]);
  }

  /**
   The receiver follows the line: `cur` is the answer being received, of which the octets `m`
   are still to come, and `rest` are the answers after it.
   */
  predicate Tracks(r: Rx, cur: Answer, m: Octets, rest: seq<Answer>)
  {
    && RxInv(r) && !r.hunting && Fits(cur) && (forall a :: a in rest ==> Fits(a))
    && r.buf + m == Sent(cur)
    && r.q <= Stuff(RawBits(m), r.ones) + Line(rest)
  }

  lemma LineStartsLow(rest: seq<Answer>)
    ensures Line(rest) != [] ==> !Line(rest)[0]
  {
    if rest != [] {
      assert Line(rest)[0] == Line(rest)[..8][0];
    }
  }

  lemma TrackOctet(r: Rx, cur: Answer, m: Octets, rest: seq<Answer>)
    requires Tracks(r, cur, m, rest) && m != [] && |r.q| >= LOOKAHEAD
    ensures var g := Pass(r, 0, 0);
            && g.frames == [] && Tracks(g.r, cur, m[1..], rest)
            && |r.q| - |g.r.q| + |Stuff(RawBits(m[1..]), g.r.ones)| == |Stuff(RawBits(m), r.ones)|
  {
    hide Pass, Stuff, Carry, FcsOf, Check, Line, OctetBits;
    LineStartsLow(rest);
    SentFits(cur);
    assert |r.buf| + |m| == |Sent(cur)|;
    OctetPass(r, m, Line(rest));
    assert (r.buf + [m[0]]) + m[1..] == r.buf + m;
    StuffConcat(OctetBits(m[0]), RawBits(m[1..]), r.ones);
  }

  lemma SentFits(a: Answer)
    requires Fits(a)
    ensures |Sent(a)| <= RX_SIZE
  {}

  /** The frame that the flag after an answer completes. */
  lemma Completes(r: Rx, cur: Answer)
    requires RxInv(r) && !r.hunting && Fits(cur) && r.buf == Sent(cur)
    ensures Completed(r, 0) == Frames([cur])
  {
    match cur
    case Idle => assert Frames([cur]) == [] + Frames([]);
    case Frame(f) =>
      Residue(f);
      assert (f + Check(f))[..|f|] == f;
      assert Frames([cur]) == [f] + Frames([]);
  }

  lemma TrackFlag(r: Rx, cur: Answer, rest: seq<Answer>)
    requires Tracks(r, cur, [], rest) && |r.q| >= LOOKAHEAD
    ensures rest != []
    ensures var g := Pass(r, 0, 0);
            && g.frames == Frames([cur]) && |g.r.q| == |r.q| - 8 && g.r.ones == 0
            && Tracks(g.r, rest[0], Sent(rest[0]), rest[1..])
  {
    hide FcsOf, Frames, Check;
    assert r.q <= Line(rest) by {
      assert Stuff(RawBits([]), r.ones) + Line(rest) == Line(rest);
    }
    assert r.buf == Sent(cur) by {
      assert r.buf + [] == r.buf;
    }
    FlagAhead(r.q, rest);
    Completes(r, cur);
    PassStep(r, 0, 0);
    assert [] + Sent(rest[0]) == Sent(rest[0]);
  }

  lemma FlagAhead(q: seq<bool>, rest: seq<Answer>)
    requires q <= Line(rest) && |q| >= 8
    ensures rest != [] && q[..8] == FLAG
    ensures q[8..] <= Stuff(RawBits(Sent(rest[0])), 0) + Line(rest[1..])
  {
    hide Stuff, RawBits, Sent;
    var after := Stuff(RawBits(Sent(rest[0])), 0) + Line(rest[1..]);
    assert Line(rest) == FLAG + after;
    assert q == Line(rest)[..|q|];
    assert q[8..] == after[..|q| - 8];
  }

  /**
   From a receiver that follows the line: the frames delivered are the first frames of the line,
   and include every frame whose closing flag begins at least 18 bits before the end of what
   has been received.  `n` counts the answers that are complete in this sense.
   */
  lemma {:induction false} DrainTracks(r: Rx, cur: Answer, m: Octets, rest: seq<Answer>, n: nat)
    requires Tracks(r, cur, m, rest) && n <= |rest|
    ensures var got := Drain(r).frames;
            && got <= Frames([cur] + rest)
            && (|r.q| >= |Stuff(RawBits(m), r.ones)| + |Line(rest[..n])| + LOOKAHEAD ==>
               Frames([cur] + rest[..n]) <= got)
    decreases |r.q|
  {
    hide Pass, Stuff, FcsOf, Check, Drain, Frames, Line, RawBits;
    assert RxInv(r);
    if |r.q| < LOOKAHEAD {
      DrainIdle(r);
    } else {
      DrainStep(r);
      var g := Pass(r, 0, 0);
      if m != [] {
        TrackOctet(r, cur, m, rest);
        DrainTracks(g.r, cur, m[1..], rest, n);
        assert [] + Drain(g.r).frames == Drain(g.r).frames;
      } else {
        TrackFlag(r, cur, rest);
        var n1 := if n > 0 then n - 1 else 0;
        DrainTracks(g.r, rest[0], Sent(rest[0]), rest[1..], n1);
        NextAnswer(cur, rest, n);
        assert [rest[0]] + rest[1..] == rest;
        PrefixAfter(Frames([cur]), Drain(g.r).frames, Frames(rest));
        if n > 0 {
          PrefixAfter(Frames([cur]), Frames([rest[0]] + rest[1..][..n1]), Drain(g.r).frames);
        }
      }
    }
  }

  lemma PrefixAfter(a: seq<Octets>, b: seq<Octets>, c: seq<Octets>)
    ensures b <= c ==> a + b <= a + c
    ensures a <= a + b
  {}

  lemma NextAnswer(cur: Answer, rest: seq<Answer>, n: nat)
    requires rest != [] && n <= |rest|
    ensures Frames([cur] + rest) == Frames([cur]) + Frames(rest)
    ensures n == 0 ==> Frames([cur] + rest[..n]) == Frames([cur])
    ensures n > 0 ==> [rest[0]] + rest[1..][..n - 1] == rest[..n]
                      && Frames([cur] + rest[..n]) == Frames([cur]) + Frames(rest[..n])
                      && |Line(rest[..n])| == 8 + |Stuff(RawBits(Sent(rest[0])), 0)| + |Line(rest[1..][..n - 1])|
  {
    hide Frames, Stuff, Line, RawBits;
    FramesConcat([cur], rest);
    FramesConcat([cur], rest[..n]);
    if n > 0 {
      assert rest[..n][1..] == rest[1..][..n - 1];
      LineLength(rest[..n]);
    } else {
      assert [cur] + rest[..n] == [cur];
    }
  }

  lemma LineLength(answers: seq<Answer>)
    requires answers != []
    ensures |Line(answers)| == 8 + |Stuff(RawBits(Sent(answers[0])), 0)| + |Line(answers[1..])|
  {
    hide Stuff, RawBits, Sent;
  }

  /**
   HDLC round trip.  For every sequence of frames of 1 to 510 octets with any idle flags between
   them, and however the bits of the line are grouped (up to eight at a time): the frames
   delivered are frames sent, from the first on and in order, and the frames of the first `n`
   answers are all delivered once 18 bits from the flag after them have arrived.
   */
  lemma RoundTrip(answers: seq<Answer>, groups: seq<seq<bool>>, n: nat)
    requires forall a :: a in answers ==> Fits(a)
    requires forall g :: g in groups ==> |g| <= 8
    requires Flatten(groups) <= Line(answers) && n <= |answers|
    ensures var got := PutAll(RX_INIT, groups).frames;
            && got <= Frames(answers)
            && (|Flatten(groups)| >= |Line(answers[..n])| + LOOKAHEAD ==> Frames(answers[..n]) <= got)
  {
    hide Pass, Stuff, FcsOf, Check;
    GroupingIrrelevant(RX_INIT, groups);
    var r := Extend(RX_INIT, Flatten(groups));
    assert r.q == Flatten(groups);
    if |r.q| >= LOOKAHEAD {
      FlagAhead(r.q, answers);
      PassStep(r, 0, 0);
      var g := Pass(r, 0, 0);
      assert [] + Sent(answers[0]) == Sent(answers[0]);
      var n1 := if n > 0 then n - 1 else 0;
      DrainTracks(g.r, answers[0], Sent(answers[0]), answers[1..], n1);
      assert [] + Drain(g.r).frames == Drain(g.r).frames;
      assert [answers[0]] + answers[1..] == answers;
      if n > 0 {
        NextAnswer(Idle, answers, n);
      } else {
        assert answers[..n] == [];
      }
    }
  }
}
