/**
 HDLC framing (ITU-T V.42, section 8.1.1): the bits that a sequence of frames puts on the
 line, and the receiver that finds the frames again while it looks only 18 bits ahead.
 */
module Hdlc {
  import opened Fcs

  const FLAG: seq<bool> := [false, true, true, true, true, true, true, false]

  /** The bits of an octet in the order in which they are sent. */
  function OctetBits(b: octet): (r: seq<bool>)
    ensures |r| == 8
  {
    [b & 0x01 != 0, b & 0x02 != 0, b & 0x04 != 0, b & 0x08 != 0,
     b & 0x10 != 0, b & 0x20 != 0, b & 0x40 != 0, b & 0x80 != 0]
  }

  function RawBits(m: Octets): (r: seq<bool>)
    ensures |r| == 8 * |m|
    decreases |m|
  {
    if m == [] then [] else OctetBits(m[0]) + RawBits(m[1..])
  }

  /** Zero insertion after five ones; `k` ones have just been sent. */
  function Stuff(raw: seq<bool>, k: nat): (r: seq<bool>)
    ensures |r| >= |raw|
    decreases |raw|
  {
    if raw == [] then []
    else if !raw[0] then [false] + Stuff(raw[1..], 0)
    else if k + 1 == 5 then [true, false] + Stuff(raw[1..], 0)
    else [true] + Stuff(raw[1..], k + 1)
  }

  /** The count of ones that zero insertion ends with. */
  function Carry(raw: seq<bool>, k: nat): (r: nat)
    requires k < 5
    ensures r < 5
    decreases |raw|
  {
    if raw == [] then k
    else if !raw[0] || k + 1 == 5 then Carry(raw[1..], 0)
    else Carry(raw[1..], k + 1)
  }

  lemma {:induction false} StuffConcat(a: seq<bool>, b: seq<bool>, k: nat)
    requires k < 5
    ensures Stuff(a + b, k) == Stuff(a, k) + Stuff(b, Carry(a, k))
    ensures Carry(a + b, k) == Carry(b, Carry(a, k))
    decreases |a|
  {
    if a == [] {
      assert a + b == b;
    } else {
      assert (a + b)[1..] == a[1..] + b;
      StuffConcat(a[1..], b, if !a[0] || k + 1 == 5 then 0 else k + 1);
    }
  }

  /** What the framer answers when the transmitter asks for a frame. */
  datatype Answer = Idle | Frame(f: Octets)

  /** The octets of an answer as transmitted: the frame and its check octets. */
  function Sent(a: Answer): Octets
  {
    match a case Idle => [] case Frame(f) => f + Check(f)
  }

  /** The bits on the line for one answer: a flag, and the stuffed octets. */
  function Piece(a: Answer): (r: seq<bool>)
    ensures |r| >= 8 && r[..8] == FLAG
  {
    FLAG + Stuff(RawBits(Sent(a)), 0)
  }

  /** The bits on the line for a sequence of answers. */
  function Line(answers: seq<Answer>): (r: seq<bool>)
    ensures answers != [] ==> |r| >= 8 && r[..8] == FLAG
  {
    if answers == [] then [] else Piece(answers[0]) + Line(answers[1..])
  }

  function Frames(answers: seq<Answer>): seq<Octets>
  {
    if answers == [] then []
    else (match answers[0] case Idle => [] case Frame(f) => [f]) + Frames(answers[1..])
  }

  /** Concatenated answers carry concatenated frames. */
  lemma {:induction false} FramesConcat(a: seq<Answer>, b: seq<Answer>)
    ensures Frames(a + b) == Frames(a) + Frames(b)
    decreases |a|
  {
    if a == [] {
      assert a + b == b;
    } else {
      assert (a + b)[1..] == a[1..] + b;
      FramesConcat(a[1..], b);
    }
  }

  /** Frames that fit the receiver's buffer with their check octets. */
  predicate Fits(a: Answer)
  {
    a.Frame? ==> 1 <= |a.f| <= 510
  }

  // ----- no flag inside a frame -----

  predicate StartsWithOnes(s: seq<bool>, j: nat)
  {
    j <= |s| && forall i :: 0 <= i < j ==> s[i]
  }

  /** Zero insertion leaves no run of six ones, counting the `k` before. */
  lemma {:induction false} NoSixOnes(raw: seq<bool>, k: nat, tail: seq<bool>, j: nat)
    requires k < 5 && (tail != [] ==> !tail[0]) && j + k >= 6
    ensures !StartsWithOnes(Stuff(raw, k) + tail, j)
    decreases |raw|
  {
    var s := Stuff(raw, k) + tail;
    if raw == [] {
      assert s == tail;
      assert j > |s| || !s[0];
    } else if !raw[0] {
      assert !s[0];
    } else {
      if k + 1 == 5 {
        assert !s[1];
      } else {
        var s1 := Stuff(raw[1..], k + 1) + tail;
        assert s == [true] + s1;
        NoSixOnes(raw[1..], k + 1, tail, j - 1);
        if StartsWithOnes(s, j) {
          assert forall i :: 0 <= i < j - 1 ==> s1[i] == s[i + 1];
        }
      }
    }
  }

  /** No flag starts at a data bit. */
  lemma NoFlagInside(raw: seq<bool>, k: nat, tail: seq<bool>, q: seq<bool>)
    requires raw != [] && k < 5 && (tail != [] ==> !tail[0])
    requires |q| >= 8 && q <= Stuff(raw, k) + tail
    ensures q[..8] != FLAG
  {
    if q[..8] == FLAG {
      assert !q[..8][0];
      assert !raw[0];
      var s1 := Stuff(raw[1..], 0) + tail;
      assert Stuff(raw, k) + tail == [false] + s1;
      NoSixOnes(raw[1..], 0, tail, 6);
      assert forall i :: 0 <= i < 6 ==> s1[i] == q[..8][i + 1];
    }
  }

  // ----- receiver -----

  const RX_SIZE := 512
  const LOOKAHEAD := 18

  /** `q`: bits received and not processed.  `hunting`: skip everything up to the next flag. */
  datatype Rx = Rx(q: seq<bool>, hunting: bool, ones: nat, buf: Octets)

  predicate RxInv(r: Rx)
  {
    r.ones < 5 && |r.buf| <= RX_SIZE
  }

  const RX_INIT := Rx([], true, 0, [])

  /** Bits needed to process data bits `i` to 8 with a flag in sight. */
  function Room(i: nat, ones: nat): int
    requires i <= 8
  {
    16 - i + (ones + 8 - i) / 5
  }

  function Collect(out: octet, bit: bool): octet
  {
    (out >> 1) | (if bit then 0x80 else 0)
  }

  /** The frame that a flag completes, if it is good. */
  function Completed(r: Rx, i: nat): seq<Octets>
  {
    if r.buf != [] && !r.hunting && i == 0 && |r.buf| >= 3 && FcsOf(INIT_FCS, r.buf) == GOOD_FCS
    then [r.buf[..|r.buf| - 2]] else []
  }

  /** One data bit, or one bit skipped. */
  function TakeBit(r: Rx): (r1: Rx)
    requires RxInv(r) && |r.q| >= 8
    ensures RxInv(r1)
  {
    if r.hunting then r.(q := r.q[1..])
    else if !r.q[0] then r.(q := r.q[1..], ones := 0)
    else if r.ones + 1 < 5 then r.(q := r.q[1..], ones := r.ones + 1)
    else if r.q[1] then r.(q := r.q[2..], ones := 0, hunting := true, buf := [])
    else r.(q := r.q[2..], ones := 0)
  }

  /** Store a complete octet. */
  function Store(r: Rx, out: octet): (r1: Rx)
    requires RxInv(r)
    ensures RxInv(r1)
  {
    if r.hunting then r
    else if |r.buf| < RX_SIZE then r.(buf := r.buf + [out])
    else r.(hunting := true, buf := [])
  }

  datatype Got = Got(r: Rx, frames: seq<Octets>)

  /** The rest of one receive pass, which stops after eight data bits or at a flag. */
  function Pass(r: Rx, i: nat, out: octet): (g: Got)
    requires RxInv(r) && i <= 8 && (i < 8 ==> |r.q| >= Room(i, r.ones))
    ensures RxInv(g.r) && |g.r.q| + 8 - i <= |r.q| && (i < 8 ==> |g.r.q| < |r.q|)
    decreases 8 - i
  {
    if i == 8 then Got(Store(r, out), [])
    else if r.q[..8] == FLAG then Got(Rx(r.q[8..], false, 0, []), Completed(r, i))
    else Pass(TakeBit(r), i + 1, if r.hunting then out else Collect(out, r.q[0]))
  }

  /** One group of bits from the line: at most one pass. */
  function Put(r: Rx, group: seq<bool>): (g: Got)
    requires RxInv(r)
    ensures RxInv(g.r)
  {
    var r1 := r.(q := r.q + group);
    if |r1.q| < LOOKAHEAD then Got(r1, []) else Pass(r1, 0, 0)
  }

  function PutAll(r: Rx, groups: seq<seq<bool>>): (g: Got)
    requires RxInv(r)
    ensures RxInv(g.r)
    decreases |groups|
  {
    if groups == [] then Got(r, [])
    else
      var g := Put(r, groups[0]);
      var h := PutAll(g.r, groups[1..]);
      Got(h.r, g.frames + h.frames)
  }

  /** Passes as long as there is something to look ahead at. */
  function Drain(r: Rx): (g: Got)
    requires RxInv(r)
    ensures RxInv(g.r)
    decreases |r.q|
  {
    if |r.q| < LOOKAHEAD then Got(r, [])
    else
      var g := Pass(r, 0, 0);
      var h := Drain(g.r);
      Got(h.r, g.frames + h.frames)
  }

  // ----- the grouping of bits does not matter -----

  function Extend(r: Rx, x: seq<bool>): Rx
  {
    r.(q := r.q + x)
  }

  lemma TakeBitLocal(r: Rx, x: seq<bool>)
    requires RxInv(r) && |r.q| >= 8
    ensures TakeBit(Extend(r, x)) == Extend(TakeBit(r), x)
    ensures (r.q + x)[..8] == r.q[..8] && (r.q + x)[8..] == r.q[8..] + x && (r.q + x)[0] == r.q[0]
  {
    assert (r.q + x)[1..] == r.q[1..] + x;
    assert (r.q + x)[2..] == r.q[2..] + x;
  }

  /** Bits beyond the lookahead do not influence a pass. */
  lemma {:induction false} PassLocal(r: Rx, i: nat, out: octet, x: seq<bool>)
    requires RxInv(r) && i <= 8 && (i < 8 ==> |r.q| >= Room(i, r.ones))
    ensures var g := Pass(r, i, out);
            Pass(Extend(r, x), i, out) == Got(Extend(g.r, x), g.frames)
    decreases 8 - i
  {
    hide Collect, FcsOf, TakeBit;
    if i < 8 {
      TakeBitLocal(r, x);
      TakeBitRoom(r, i);
      PassStep(r, i, out);
      PassStep(Extend(r, x), i, out);
      if r.q[..8] != FLAG {
        PassLocal(TakeBit(r), i + 1, if r.hunting then out else Collect(out, r.q[0]), x);
      }
    }
  }

  lemma TakeBitRoom(r: Rx, i: nat)
    requires RxInv(r) && i < 8 && |r.q| >= Room(i, r.ones)
    ensures i + 1 < 8 ==> |TakeBit(r).q| >= Room(i + 1, TakeBit(r).ones)
  {}

  lemma PassStep(r: Rx, i: nat, out: octet)
    requires RxInv(r) && i < 8 && |r.q| >= Room(i, r.ones)
    ensures r.q[..8] == FLAG ==> Pass(r, i, out) == Got(Rx(r.q[8..], false, 0, []), Completed(r, i))
    ensures i + 1 < 8 ==> |TakeBit(r).q| >= Room(i + 1, TakeBit(r).ones)
    ensures r.q[..8] != FLAG ==>
              Pass(r, i, out) == Pass(TakeBit(r), i + 1, if r.hunting then out else Collect(out, r.q[0]))
  {}

  lemma DrainIdle(r: Rx)
    requires RxInv(r) && |r.q| < LOOKAHEAD
    ensures Drain(r) == Got(r, []) && forall x: Got :: Got(x.r, [] + x.frames) == x
  {
    forall x: Got
      ensures Got(x.r, [] + x.frames) == x
    {
      assert [] + x.frames == x.frames;
    }
  }

  lemma DrainStep(r: Rx)
    requires RxInv(r) && |r.q| >= LOOKAHEAD
    ensures var p := Pass(r, 0, 0);
            RxInv(p.r) && |p.r.q| < |r.q| && Drain(r) == Got(Drain(p.r).r, p.frames + Drain(p.r).frames)
  {
    hide Pass;
  }

  lemma ExtendInv(r: Rx, x: seq<bool>)
    requires RxInv(r)
    ensures RxInv(Extend(r, x)) && Extend(r, x).q == r.q + x
  {}

  lemma {:induction false} DrainExtend(r: Rx, x: seq<bool>)
    requires RxInv(r)
    ensures var g := Drain(r); var h := Drain(Extend(g.r, x));
            Drain(Extend(r, x)) == Got(h.r, g.frames + h.frames)
    decreases |r.q|
  {
    hide Pass, Drain;
    if |r.q| < LOOKAHEAD {
      DrainIdle(r);
    } else {
      PassLocal(r, 0, 0, x);
      DrainStep(r);
      ExtendInv(r, x);
      DrainStep(Extend(r, x));
      var p := Pass(r, 0, 0);
      DrainExtend(p.r, x);
      var g := Drain(p.r);
      var h := Drain(Extend(g.r, x));
      assert p.frames + (g.frames + h.frames) == (p.frames + g.frames) + h.frames;
    }
  }

  function Flatten(groups: seq<seq<bool>>): seq<bool>
  {
    if groups == [] then [] else groups[0] + Flatten(groups[1..])
  }

  /** A group of at most eight bits never leaves a second pass to do. */
  lemma PutDrains(r: Rx, group: seq<bool>)
    requires RxInv(r) && |r.q| < LOOKAHEAD && |group| <= 8
    ensures Put(r, group) == Drain(Extend(r, group)) && |Put(r, group).r.q| < LOOKAHEAD
  {
    var r1 := Extend(r, group);
    if |r1.q| >= LOOKAHEAD {
      var p := Pass(r1, 0, 0);
      assert p.frames + [] == p.frames;
    }
  }

  /** However the bits are grouped, the receiver does the same with them. */
  lemma {:induction false} GroupingIrrelevant(r: Rx, groups: seq<seq<bool>>)
    requires RxInv(r) && |r.q| < LOOKAHEAD
    requires forall g :: g in groups ==> |g| <= 8
    ensures PutAll(r, groups) == Drain(Extend(r, Flatten(groups)))
    ensures |PutAll(r, groups).r.q| < LOOKAHEAD
    decreases |groups|
  {
    if groups == [] {
      assert r.q + [] == r.q;
    } else {
      PutDrains(r, groups[0]);
      var g := Put(r, groups[0]);
      GroupingIrrelevant(g.r, groups[1..]);
      DrainExtend(Extend(r, groups[0]), Flatten(groups[1..]));
      assert Extend(Extend(r, groups[0]), Flatten(groups[1..])) == Extend(r, Flatten(groups)) by {
        assert (r.q + groups[0]) + Flatten(groups[1..]) == r.q + Flatten(groups);
      }
    }
  }
}
