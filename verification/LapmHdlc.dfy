/** The line at the level of bits: what an end is granted goes through the HDLC transmitter and receiver. */
module LapmHdlc {
  import opened Words
  import L = Lapm
  import opened Lapm
  import opened LapmLink
  import opened LapmWire
  import opened LapmSlots
  import R = LapmRing
  import S = LapmSafety
  import A = LapmPair
  import X = Xid
  import B = Bits
  import H = Hdlc
  import K = HdlcLink
  import F = Fcs

  // ----- every frame fits -----

  ghost predicate EndFits(e: End)
  {
    S.EndOk(e) && SlotsFit(e.p) && forall i :: 0 <= i < |e.line| ==> Wired(e.line[i])
  }

  /** Sources give no more at a time than a slot has room for. */
  predicate Modest(v: S.Event)
  {
    (v.Grant? ==> |v.chars| <= MOST) && (v.Arrive? ==> |v.chars| <= MOST)
  }

  lemma ContentFits(e: End)
    requires EndFits(e) && !e.hdlc.Nothing?
    ensures Wired(S.Content(e))
  {
    hide Wired;
  }

  lemma LocalFits(e: End, v: S.Event)
    requires EndFits(e) && Modest(v)
    ensures EndFits(S.Local(e, v))
  {
    hide PeerInv, GetTxFrame, Elapse, PushRest, Disconnect, Wired, SlotsFit;
    match v
    case Grant(chars) => NextSlots(e.p, R.Draw(chars));
    case Bits(n) => NextSlots(e.p, R.Tick(n));
    case Push(k) => NextSlots(e.p, R.Push(k));
    case Hangup => NextSlots(e.p, R.Hangup);
    case Complete =>
      if !e.hdlc.Nothing? {
        ContentFits(e);
      }
    case Lose(_) =>
    case Arrive(_, _) =>
  }

  lemma ArrivedFits(e: End, f: Frame, k: nat, chars: Str)
    requires EndFits(e) && Wired(f) && |chars| <= MOST && (f.I? ==> k <= |f.info|)
    ensures EndFits(S.Arrived(e, f, k, chars))
  {
    hide PeerInv, Receive, SlotsFit, Octets;
    NextSlots(e.p, R.Hear(f, k, chars));
  }

  lemma StepFirstFits(s: S.Link, v: S.Event)
    requires EndFits(s.a) && EndFits(s.b) && Modest(v)
    ensures EndFits(S.StepFirst(s, v).a) && EndFits(S.StepFirst(s, v).b)
  {
    hide S.Local, S.Arrived, S.EndOk, SlotsFit, Wired;
    if !v.Arrive? {
      LocalFits(s.a, v);
    } else if s.b.line != [] && (s.b.line[0].I? ==> v.k <= |s.b.line[0].info|) {
      ArrivedFits(s.a, s.b.line[0], v.k, v.chars);
    }
  }

  // ----- what the framer of the first end is answered -----

  datatype Reply = NoFrame | Whole(f: Frame)

  /** The answer to a request for a frame: none, or a frame, as it is when its transmission is complete. */
  function ReplyTo(e: End, atFirst: bool, v: S.Event): seq<Reply>
    requires S.EndOk(e)
  {
    if !atFirst then []
    else if v.Grant? && e.hdlc.Nothing? && GetTxFrame(e.p, v.chars).1.Nothing? then [NoFrame]
    else if v.Complete? && !e.hdlc.Nothing? then [Whole(S.Content(e))]
    else []
  }

  function Replies(s: S.Link, events: seq<(bool, S.Event)>): seq<Reply>
    requires S.EndOk(s.a) && S.EndOk(s.b)
    decreases |events|
  {
    if events == [] then []
    else
      ReplyTo(s.a, events[0].0, events[0].1) + Replies(S.Step(s, events[0].0, events[0].1), events[1..])
  }

  function Put(rs: seq<Reply>): seq<Frame>
  {
    if rs == [] then [] else (match rs[0] case NoFrame => [] case Whole(f) => [f]) + Put(rs[1..])
  }

  predicate Fit(rs: seq<Reply>)
  {
    forall i :: 0 <= i < |rs| && rs[i].Whole? ==> Wired(rs[i].f)
  }

  /** In every history, each frame that is transmitted has octets, and they fit a frame. */
  lemma {:induction false} RepliesFit(s: S.Link, events: seq<(bool, S.Event)>)
    requires EndFits(s.a) && EndFits(s.b) && forall i :: 0 <= i < |events| ==> Modest(events[i].1)
    ensures Fit(Replies(s, events))
    decreases |events|
  {
    hide EndFits, S.StepFirst, Wired, Modest, S.EndOk;
    if events != [] {
      var (atFirst, v) := events[0];
      assert Modest(events[0].1);
      FitsOk(s);
      OneReplyFits(s.a, atFirst, v);
      StepFirstFits(s, v);
      StepFirstFits(S.Swap(s), v);
      RepliesFit(S.Step(s, atFirst, v), events[1..]);
    }
  }

  lemma FitsOk(s: S.Link)
    requires EndFits(s.a) && EndFits(s.b)
    ensures S.EndOk(s.a) && S.EndOk(s.b)
  {}

  lemma OneReplyFits(e: End, atFirst: bool, v: S.Event)
    requires EndFits(e)
    ensures Fit(ReplyTo(e, atFirst, v))
  {
    hide EndFits, GetTxFrame, Wired;
    FitsOk(S.Link(e, e));
    if !e.hdlc.Nothing? {
      ContentFits(e);
    }
  }

  lemma {:induction false} PutConcat(x: seq<Reply>, y: seq<Reply>)
    ensures Put(x + y) == Put(x) + Put(y)
    decreases |x|
  {
    if x == [] {
      assert x + y == y;
    } else {
      assert (x + y)[1..] == x[1..] + y;
      PutConcat(x[1..], y);
    }
  }

  lemma PutNone()
    ensures Put([]) == []
  {}

  // ----- the frames that the second end hears -----

  function HeardAt(s: S.Link, atFirst: bool, v: S.Event): seq<Frame>
  {
    if atFirst || !v.Arrive? || s.a.line == [] || (s.a.line[0].I? && v.k > |s.a.line[0].info|) then []
    else [s.a.line[0]]
  }

  function Heard(s: S.Link, events: seq<(bool, S.Event)>): seq<Frame>
    requires S.EndOk(s.a) && S.EndOk(s.b)
    decreases |events|
  {
    if events == [] then []
    else
      HeardAt(s, events[0].0, events[0].1) + Heard(S.Step(s, events[0].0, events[0].1), events[1..])
  }

  lemma StepLine(s: S.Link, atFirst: bool, v: S.Event)
    requires S.EndOk(s.a) && S.EndOk(s.b) && !(atFirst && v.Lose?)
    ensures HeardAt(s, atFirst, v) + S.Step(s, atFirst, v).a.line == s.a.line + Put(ReplyTo(s.a, atFirst, v))
  {
    hide GetTxFrame, Receive, Elapse, PushRest, Disconnect, PeerInv;
    assert Put([NoFrame]) == [];
    if atFirst && v.Complete? && !s.a.hdlc.Nothing? {
      assert Put([Whole(S.Content(s.a))]) == [S.Content(s.a)];
    }
  }

  /** Where nothing is lost, the frames put on the line are those heard and those still on their way. */
  lemma {:induction false} NothingElse(s: S.Link, events: seq<(bool, S.Event)>)
    requires S.EndOk(s.a) && S.EndOk(s.b)
    requires forall i :: 0 <= i < |events| ==> !(events[i].0 && events[i].1.Lose?)
    ensures Heard(s, events) + S.Run(s, events).a.line == s.a.line + Put(Replies(s, events))
    decreases |events|
  {
    hide S.Step, S.EndOk, HeardAt, ReplyTo, Put;
    if events == [] {
      PutNone();
    } else {
      var (atFirst, v) := events[0];
      assert events[0] == (atFirst, v);
      var r, rest := S.Step(s, atFirst, v), events[1..];
      StepLine(s, atFirst, v);
      NothingElse(r, rest);
      PutConcat(ReplyTo(s.a, atFirst, v), Replies(r, rest));
      Join(HeardAt(s, atFirst, v), Heard(r, rest), S.Run(r, rest).a.line, r.a.line, Put(Replies(r, rest)), s.a.line,
           Put(ReplyTo(s.a, atFirst, v)));
    }
  }

  lemma Join(h: seq<Frame>, h1: seq<Frame>, l2: seq<Frame>, l1: seq<Frame>, p1: seq<Frame>, l: seq<Frame>,
             p: seq<Frame>)
    requires h1 + l2 == l1 + p1 && h + l1 == l + p
    ensures (h + h1) + l2 == l + (p + p1)
  {
    assert (h + h1) + l2 == h + (h1 + l2) == (h + l1) + p1;
  }

  // ----- octets and bits -----

  /** The octet with these bits, in the order in which they are sent. */
  function OctetOf(b: seq<bool>): F.octet
    requires |b| == 8
  {
    (if b[0] then 0x01 else 0) | (if b[1] then 0x02 else 0) | (if b[2] then 0x04 else 0) | (if b[3] then 0x08 else 0)
    | (if b[4] then 0x10 else 0) | (if b[5] then 0x20 else 0) | (if b[6] then 0x40 else 0) | (if b[7] then 0x80 else 0)
  }

  lemma OctetOfBits(b: seq<bool>)
    requires |b| == 8
    ensures H.OctetBits(OctetOf(b)) == b
  {}

  function Raw(s: Str): (r: F.Octets)
    ensures |r| == |s|
  {
    seq(|s|, i requires 0 <= i < |s| => OctetOf(B.BitsOf(s[i], 8)))
  }

  function Bytes(r: F.Octets): (s: Str)
    ensures |s| == |r|
  {
    seq(|r|, i requires 0 <= i < |r| => B.ByteOf(H.OctetBits(r[i])))
  }

  lemma BytesRaw(s: Str)
    ensures Bytes(Raw(s)) == s
  {
    forall i | 0 <= i < |s|
      ensures Bytes(Raw(s))[i] == s[i]
    {
      ByteAgain(s[i]);
    }
  }

  lemma ByteAgain(v: byte)
    ensures B.ByteOf(H.OctetBits(OctetOf(B.BitsOf(v, 8)))) == v
  {
    hide H.OctetBits, OctetOf, B.BitsOf, B.Value;
    B.Pow2Eight();
    OctetOfBits(B.BitsOf(v, 8));
    B.ValueBits(v, 8);
  }

  function Answered(r: Reply): H.Answer
    requires r.Whole? ==> Wired(r.f)
  {
    match r case NoFrame => H.Idle case Whole(f) => H.Frame(Raw(Octets(f)))
  }

  function Wire(rs: seq<Reply>): seq<H.Answer>
    requires Fit(rs)
  {
    if rs == [] then [] else [Answered(rs[0])] + Wire(rs[1..])
  }

  lemma {:induction false} WireFits(rs: seq<Reply>)
    requires Fit(rs)
    ensures forall a :: a in Wire(rs) ==> H.Fits(a)
    decreases |rs|
  {
    if rs != [] {
      WireFits(rs[1..]);
    }
  }

  lemma {:induction false} WireFrames(rs: seq<Reply>)
    requires Fit(rs)
    ensures var fs := H.Frames(Wire(rs));
            && |fs| == |Put(rs)|
            && forall i :: 0 <= i < |fs| ==> Wired(Put(rs)[i]) && fs[i] == Raw(Octets(Put(rs)[i]))
    decreases |rs|
  {
    hide Wired, Octets, Raw;
    if rs != [] {
      WireFrames(rs[1..]);
      assert Wire(rs)[1..] == Wire(rs[1..]);
      assert Wire(rs)[0] == Answered(rs[0]);
    }
  }

  /** Received octets are understood as the frame that was sent. */
  method Understand(raw: seq<F.Octets>, ghost put: seq<Frame>) returns (got: seq<Frame>)
    requires |raw| <= |put| && forall i :: 0 <= i < |raw| ==> Wired(put[i]) && raw[i] == Raw(Octets(put[i]))
    ensures got == put[..|raw|]
  {
    hide Raw, Bytes, Octets, Parse, Complete, Sendable;
    got := [];
    while |got| < |raw|
      invariant |got| <= |raw| && got == put[..|got|]
    {
      BytesRaw(Octets(put[|got|]));
      ParseOctets(put[|got|]);
      got := got + [Parse(Bytes(raw[|got|]))];
    }
  }

  // ----- objects -----

  /** What the framer is answered, tried on a copy of the peer. */
  method ReplyNow(a: A.LapmEnd, atFirst: bool, v: S.Event) returns (rs: seq<Reply>)
    requires a.Inv()
    ensures S.EndOk(a.Value()) && rs == ReplyTo(a.Value(), atFirst, v)
  {
    hide L.GetTxFrame;
    rs := [];
    if atFirst {
      if v.Grant? && a.hdlc.Nothing? {
        var p := a.peer.Snapshot();
        if L.GetTxFrame(p, v.chars).1.Nothing? {
          rs := [NoFrame];
        }
      } else if v.Complete? {
        match a.hdlc {
          case Nothing =>
          case Ctrl(slot) => rs := [Whole(a.peer.ctrl[slot])];
          case Info(slot) => rs := [Whole(a.peer.info[slot])];
        }
      }
    }
  }

  /** Two ends just connected; the first of them is the caller or the other. */
  method Begin(caller: bool, sizesA: X.Sizes, sizesB: X.Sizes, offer: X.Comp)
    returns (a: A.LapmEnd, b: A.LapmEnd, ghost s: S.Link)
    ensures fresh(a) && fresh(a.peer) && fresh(a.peer.info) && fresh(a.peer.ctrl)
    ensures fresh(b) && fresh(b.peer) && fresh(b.peer.info) && fresh(b.peer.ctrl)
    ensures a.Inv() && b.Inv() && A.Apart(a, b) && s == A.Both(a, b) && EndFits(s.a) && EndFits(s.b)
    ensures var t := if caller then s else S.Swap(s);
            S.Connected(t) && (SizesOf(t.a.p), SizesOf(t.b.p)) == X.Settled(sizesA, sizesB)
  {
    hide S.Connected, A.LapmEnd.Value, A.LapmEnd.Inv, S.EndOk, SizesOf, X.Settled, SlotsFit, EndFits;
    a, b := A.Connect(sizesA, offer, sizesB, offer);
    s := A.Both(a, b);
    A.SizesThere(a);
    A.SizesThere(b);
    StartFits(s);
    if !caller {
      a, b, s := b, a, S.Swap(s);
    }
  }

  /**
   Two ends, connected, with any history; whatever the first, which is the caller or the other, gives
   to its HDLC transmitter, in groups of `txN` bits, comes out of an HDLC receiver, in groups of `rxN`
   bits, as the same frames in the same order, and all of them once enough bits have gone by.
   */
  method Transmit(caller: bool, sizesA: X.Sizes, sizesB: X.Sizes, offer: X.Comp, events: seq<(bool, S.Event)>,
                  txN: nat, cnt: nat, rxN: nat)
    returns (got: seq<Frame>, ghost s: S.Link)
    requires 1 <= txN <= 8 && 1 <= rxN <= 8 && forall i :: 0 <= i < |events| ==> Modest(events[i].1)
    ensures EndFits(s.a) && EndFits(s.b)
    ensures var t := if caller then s else S.Swap(s);
            S.Connected(t) && (SizesOf(t.a.p), SizesOf(t.b.p)) == X.Settled(sizesA, sizesB)
    ensures var rs := Replies(s, events);
            && Fit(rs) && got <= Put(rs)
            && (txN * cnt >= |H.Line(Wire(rs))| + H.LOOKAHEAD + rxN ==> got == Put(rs))
  {
    hide S.Step, S.Connected, A.LapmEnd.Value, S.EndOk, SizesOf, X.Settled, SlotsFit, EndFits, H.Line, H.Frames, H.Fits,
         Replies, ReplyTo, Put, Fit, Wire;
    var a, b;
    a, b, s := Begin(caller, sizesA, sizesB, offer);
    FitsOk(s);
    var rs, i := [], 0;
    assert events[0..] == events && [] + Replies(s, events) == Replies(s, events);
    while i < |events|
      invariant i <= |events| && A.Apart(a, b) && a.Inv() && b.Inv()
      invariant fresh(a) && fresh(a.peer) && fresh(a.peer.info) && fresh(a.peer.ctrl)
      invariant fresh(b) && fresh(b.peer) && fresh(b.peer.info) && fresh(b.peer.ctrl)
      invariant S.EndOk(s.a) && S.EndOk(s.b) && S.EndOk(A.Both(a, b).a) && S.EndOk(A.Both(a, b).b)
      invariant Replies(s, events) == rs + Replies(A.Both(a, b), events[i..])
    {
      var more := ReplyNow(a, events[i].0, events[i].1);
      RepliesUnfold(A.Both(a, b), events, i);
      A.Step(a, b, events[i].0, events[i].1);
      rs, i := rs + more, i + 1;
    }
    RepliesEnd(A.Both(a, b), events[i..]);
    assert rs + [] == rs;
    RepliesFit(s, events);
    WireFits(rs);
    WireFrames(rs);
    var raw := K.Relay(Wire(rs), txN, cnt, rxN);
    got := Understand(raw, Put(rs));
  }

  lemma StartFits(s: S.Link)
    requires S.Connected(s) && SlotsFit(s.a.p) && SlotsFit(s.b.p)
    ensures EndFits(s.a) && EndFits(s.b)
  {}

  lemma RepliesUnfold(s: S.Link, events: seq<(bool, S.Event)>, i: nat)
    requires S.EndOk(s.a) && S.EndOk(s.b) && i < |events|
    ensures Replies(s, events[i..])
            == ReplyTo(s.a, events[i].0, events[i].1) + Replies(S.Step(s, events[i].0, events[i].1), events[i + 1..])
  {
    hide S.Step, S.EndOk, ReplyTo;
    assert events[i..][0] == events[i] && events[i..][1..] == events[i + 1..];
  }

  lemma RepliesEnd(s: S.Link, events: seq<(bool, S.Event)>)
    requires S.EndOk(s.a) && S.EndOk(s.b) && events == []
    ensures Replies(s, events) == []
  {}
}
