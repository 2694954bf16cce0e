/** Two LAPM peer objects joined by lines that may lose frames. */
module LapmPair {
  import opened Words
  import L = Lapm
  import opened Lapm
  import opened LapmLink
  import S = LapmSafety
  import X = Xid
  import P = LapmPeer
  import opened LapmSlots

  /** One end: its peer, the slot that its HDLC transmitter reads, and its line to the other end. */
  class LapmEnd {
    const peer: P.LapmPeer
    var hdlc: Grant
    var line: seq<Frame>
    var taken: Str
    var accepted: Str

    ghost function Value(): End
      reads this, peer, peer.info, peer.ctrl
    {
      End(peer.Value(), hdlc, line, taken, accepted)
    }

    ghost predicate Inv()
      reads this, peer, peer.info, peer.ctrl
    {
      peer.Inv() && S.EndOk(Value())
    }

    constructor (caller: bool, sizes: X.Sizes, offer: X.Comp)
      ensures Inv() && fresh(peer) && fresh(peer.info) && fresh(peer.ctrl)
      ensures hdlc == Nothing && line == [] && taken == [] && accepted == []
      ensures var p := peer.Value();
              p.state == IDLE && p.timer == 0 && !p.config && SizesOf(p) == sizes && !p.busy && !p.peerBusy
              && !p.reject && p.infoList == 0 && p.ctrlList == 0 && p.rest == []
              && p.terms.comp == offer && p.sentInfo == p.txInfo == p.infoList && p.txCtrl == p.ctrlList
              && p.vs == p.va == p.vr == 0 && (p.cmdAddr, p.rspAddr) == (if caller then (3, 1) else (1, 3))
              && SlotsFit(p)
    {
      hide PeerInv;
      peer := new P.LapmPeer(caller, sizes, offer);
      hdlc, line, taken, accepted := Nothing, [], [], [];
    }

    /** The HDLC transmitter asks for a frame. */
    method Give(chars: Str)
      requires Inv()
      modifies this, peer, peer.info
      ensures Inv() && Value() == S.Local(old(Value()), S.Grant(chars))
    {
      hide PeerInv, L.GetTxFrame;
      ghost var e := Value();
      if hdlc.Nothing? {
        var next := peer.infoList;
        hdlc := peer.GetTxFrame(chars);
        if peer.infoList != next {
          taken := taken + chars;
        }
      }
      assert Value() == S.Local(e, S.Grant(chars));
    }

    /** The frame being transmitted is on the line. */
    method Finish()
      requires Inv()
      modifies this
      ensures Inv() && Value() == S.Local(old(Value()), S.Complete)
    {
      match hdlc {
        case Nothing =>
        case Ctrl(slot) => line := line + [peer.ctrl[slot]];
        case Info(slot) => line := line + [peer.info[slot]];
      }
      hdlc := Nothing;
    }

    method Lose(i: nat)
      requires Inv()
      modifies this
      ensures Inv() && Value() == S.Local(old(Value()), S.Lose(i))
    {
      hide PeerInv;
      if i < |line| {
        line := line[..i] + line[i + 1..];
      }
    }

    method Pass(n: nat)
      requires Inv()
      modifies peer, peer.ctrl
      ensures Inv() && Value() == S.Local(old(Value()), S.Bits(n))
    {
      hide PeerInv, L.Elapse;
      ghost var e := Value();
      peer.Elapse(n);
      assert Value() == S.Local(e, S.Bits(n));
    }

    method Push(k: nat)
      requires Inv()
      modifies this, peer, peer.ctrl
      ensures Inv() && Value() == S.Local(old(Value()), S.Push(k))
    {
      hide PeerInv, L.PushRest;
      ghost var e := Value();
      if k <= |peer.rest| {
        if peer.state == DATA {
          accepted := accepted + peer.rest[..k];
        }
        peer.PushRest(k);
      }
      assert Value() == S.Local(e, S.Push(k));
    }

    method Hangup()
      requires Inv()
      modifies peer, peer.ctrl
      ensures Inv() && Value() == S.Local(old(Value()), S.Hangup)
    {
      hide PeerInv, L.Disconnect;
      ghost var e := Value();
      peer.Disconnect();
      assert Value() == S.Local(e, S.Hangup);
    }

    /** A frame of the other end arrives; the consumer takes `k` characters of it if it is taken. */
    method Hear(f: Frame, k: nat, chars: Str)
      requires Inv() && (f.I? ==> k <= |f.info|)
      modifies this, peer, peer.info, peer.ctrl
      ensures Inv() && Value() == S.Arrived(old(Value()), f, k, chars)
    {
      hide PeerInv, L.Receive;
      ghost var e := Value();
      var next, takes := peer.infoList, f.I? && peer.state == DATA && !peer.busy && f.ns == peer.vr;
      peer.Receive(f, k, chars);
      if peer.infoList != next {
        taken := taken + chars;
      }
      if takes {
        accepted := accepted + f.info[..k];
      }
      assert Value() == S.Arrived(e, f, k, chars);
    }

    /** Any event that concerns this end only. */
    method Do(v: S.Event)
      requires Inv() && !v.Arrive?
      modifies this, peer, peer.info, peer.ctrl
      ensures Inv() && Value() == S.Local(old(Value()), v)
    {
      hide Inv, S.Local;
      match v {
        case Grant(chars) => Give(chars);
        case Complete => Finish();
        case Lose(i) => Lose(i);
        case Bits(n) => Pass(n);
        case Push(k) => Push(k);
        case Hangup => Hangup();
        case Arrive(_, _) =>
      }
    }
  }

  /** Ends that share nothing. */
  ghost predicate Apart(a: LapmEnd, b: LapmEnd)
    reads a, b
  {
    && a != b && a.peer != b.peer
    && a.peer.info != b.peer.info && a.peer.info != b.peer.ctrl && a.peer.ctrl != b.peer.info
    && a.peer.ctrl != b.peer.ctrl
  }

  ghost function Both(a: LapmEnd, b: LapmEnd): S.Link
    reads a, a.peer, a.peer.info, a.peer.ctrl, b, b.peer, b.peer.info, b.peer.ctrl
  {
    S.Link(a.Value(), b.Value())
  }

  /** An event at `a`; the frame that arrives comes off the line of `b`. */
  method StepFirst(a: LapmEnd, b: LapmEnd, v: S.Event)
    requires Apart(a, b) && a.Inv() && b.Inv()
    modifies a, a.peer, a.peer.info, a.peer.ctrl, b`line
    ensures a.Inv() && b.Inv() && Both(a, b) == S.StepFirst(old(Both(a, b)), v)
  {
    hide S.Local, S.Arrived, PeerInv;
    ghost var s := Both(a, b);
    match v {
      case Arrive(k, chars) =>
        if b.line != [] && (b.line[0].I? ==> k <= |b.line[0].info|) {
          var f := b.line[0];
          b.line := b.line[1..];
          a.Hear(f, k, chars);
        }
      case _ => a.Do(v);
    }
    assert Both(a, b) == S.StepFirst(s, v);
  }

  method Step(a: LapmEnd, b: LapmEnd, atFirst: bool, v: S.Event)
    requires Apart(a, b) && a.Inv() && b.Inv()
    modifies a, a.peer, a.peer.info, a.peer.ctrl, b, b.peer, b.peer.info, b.peer.ctrl
    ensures a.Inv() && b.Inv() && Both(a, b) == S.Step(old(Both(a, b)), atFirst, v)
  {
    hide S.StepFirst, LapmEnd.Inv, LapmEnd.Value;
    if atFirst {
      StepFirst(a, b, v);
    } else {
      StepFirst(b, a, v);
    }
  }

  // ----- connecting -----

  /** A peer in state `st` with no data filled, sent or taken, and nothing queued; `head` is its next control slot. */
  predicate Blank(p: Peer, st: State, config: bool, head: nat)
  {
    && PeerInv(p) && p.state == st && p.config == config && !p.busy && !p.peerBusy && p.rest == []
    && p.vs == p.va == p.vr == 0 && p.sentInfo == p.txInfo == p.infoList == 0
    && p.txCtrl == p.ctrlList == head < 7 && !p.reject
  }

  /** What negotiation and the addresses say. */
  predicate Alike(p: Peer, q: Peer)
  {
    p.cmdAddr == q.cmdAddr && p.rspAddr == q.rspAddr && p.txWin == q.txWin && p.terms == q.terms
  }

  /** A control frame queued by a blank peer is the next one out, and then the peer is blank again. */
  lemma QueuedGoesOut(p: Peer, f: Frame, st: State, config: bool, head: nat)
    requires Blank(p, st, config, head) && head < 6
    ensures var q := TxCtrl(p, f);
            var (r, g) := GetTxFrame(q, []);
            && g == Ctrl(head) && head < |r.ctrl| && r.ctrl[head] == f && Blank(r, st, config, head + 1)
            && Alike(p, r) && r.timer == p.timer && r.rtx == p.rtx
  {}

  /** The caller's XID command. */
  lemma AsksTerms(p: Peer, head: nat)
    requires Blank(p, IDLE, false, head) && head < 6
    ensures var (r, g) := GetTxFrame(Configure(p), []);
            && g.Ctrl? && g.slot < |r.ctrl| && Blank(r, IDLE, true, head + 1) && Alike(p, r)
            && r.ctrl[g.slot] == U(p.cmdAddr, XID(X.FI_GENERAL, X.Offer(SizesOf(p), p.terms.comp)), false)
  {
    hide X.Offer;
    var f := U(p.cmdAddr, XID(X.FI_GENERAL, X.Offer(SizesOf(p), p.terms.comp)), false);
    QueuedGoesOut(p.(config := true), f, IDLE, true, head);
  }

  /** The answer to it. */
  lemma GivesTerms(p: Peer, groups: Str, head: nat)
    requires Blank(p, IDLE, false, head) && head < 6
    ensures var q := Receive(p, U(p.rspAddr, XID(X.FI_GENERAL, groups), false), 0, []);
            var (r, g) := GetTxFrame(q, []);
            && g.Ctrl? && g.slot < |r.ctrl| && Blank(r, IDLE, false, head + 1)
            && Alike(HeedXid(p, X.FI_GENERAL, groups), r)
            && r.ctrl[g.slot] == U(p.rspAddr, XID(X.FI_GENERAL, X.Offer(SizesOf(r), r.terms.comp)), false)
  {
    hide X.Offer, X.Heed, X.UpdateComp;
    var h := HeedXid(p, X.FI_GENERAL, groups);
    QueuedGoesOut(h, U(p.rspAddr, XID(X.FI_GENERAL, X.Offer(SizesOf(h), h.terms.comp)), false), IDLE, false, head);
  }

  /** With the answer the caller asks to connect. */
  lemma AsksLink(p: Peer, groups: Str, head: nat)
    requires Blank(p, IDLE, true, head) && head < 6
    ensures var q := Receive(p, U(p.cmdAddr, XID(X.FI_GENERAL, groups), false), 0, []);
            var (r, g) := GetTxFrame(q, []);
            && g.Ctrl? && g.slot < |r.ctrl| && Blank(r, ESTAB, false, head + 1)
            && Alike(HeedXid(p, X.FI_GENERAL, groups), r)
            && r.ctrl[g.slot] == U(p.cmdAddr, SABME, true)
  {
    hide X.Heed, X.UpdateComp;
    var h := Reset(Stop(HeedXid(p, X.FI_GENERAL, groups).(config := false))).(state := ESTAB);
    QueuedGoesOut(h, U(p.cmdAddr, SABME, true), ESTAB, false, head);
  }

  lemma GivesLink(p: Peer, head: nat)
    requires Blank(p, IDLE, false, head) && head < 6
    ensures var q := Receive(p, U(p.rspAddr, SABME, true), 0, []);
            var (r, g) := GetTxFrame(q, []);
            && g.Ctrl? && g.slot < |r.ctrl| && Blank(r, DATA, false, head + 1) && Alike(p, r)
            && r.ctrl[g.slot] == U(p.rspAddr, UA, true) && r.timer == r.rtx == 0
  {
    QueuedGoesOut(Stop(Reset(p).(state := DATA)), U(p.rspAddr, UA, true), DATA, false, head);
  }

  lemma LinkUp(p: Peer, head: nat)
    requires Blank(p, ESTAB, false, head)
    ensures var r := Receive(p, U(p.cmdAddr, UA, true), 0, []);
            Blank(r, DATA, false, head) && Alike(p, r) && r.timer == r.rtx == 0
  {}

  /** The control frame that a peer has ready. */
  method TakeCtrl(p: P.LapmPeer) returns (f: Frame)
    requires p.Inv() && Ready(p.Value())
    modifies p, p.info
    ensures p.Inv() && p.Value() == GetTxFrame(old(p.Value()), []).0
    ensures f == Control(old(p.Value()))
  {
    hide PeerInv, GetTxFrame;
    ghost var was := p.Value();
    var g := p.GetTxFrame([]);
    assert p.ctrl[..] == GetTxFrame(was, []).0.ctrl;
    f := p.ctrl[g.slot];
  }

  predicate Ready(p: Peer)
  {
    PeerInv(p) && var (r, g) := GetTxFrame(p, []); g.Ctrl? && g.slot < |r.ctrl|
  }

  function Control(p: Peer): Frame
    requires Ready(p)
  {
    GetTxFrame(p, []).0.ctrl[GetTxFrame(p, []).1.slot]
  }

  /** The sizes that a peer holds after an XID frame of the other end. */
  lemma Heeds(p: Peer, q: Peer)
    requires PeerInv(q)
    ensures var r := HeedXid(q, X.FI_GENERAL, X.Offer(SizesOf(p), p.terms.comp));
            SizesOf(r) == X.SettleAll(SizesOf(q), X.Carried(SizesOf(p))) && r.cmdAddr == q.cmdAddr
              && r.rspAddr == q.rspAddr && r.terms.comp == X.UpdateComp(q.terms.comp, X.CarriedComp(p.terms.comp))
  {
    hide PeerInv, X.Heed, X.Offer, X.SettleAll, X.UpdateComp, X.CarriedComp;
    X.OfferHeeded(SizesOf(p), p.terms.comp, SizesOf(q));
  }

  /** Both ends blank, and their frames addressed to each other. */
  ghost predicate Facing(a: P.LapmPeer, b: P.LapmPeer, sa: State, ca: bool, sb: State, head: nat)
    reads a, a.info, a.ctrl, b, b.info, b.ctrl
  {
    && a.Inv() && b.Inv() && Blank(a.Value(), sa, ca, head) && Blank(b.Value(), sb, false, head)
    && SlotsFit(a.Value()) && SlotsFit(b.Value())
    && a.cmdAddr == b.rspAddr == 3 && b.cmdAddr == a.rspAddr == 1
    && a != b && a.info != b.info && a.info != b.ctrl && a.ctrl != b.info && a.ctrl != b.ctrl
  }

  /** An XID command and its response. */
  method NegotiateTerms(a: P.LapmPeer, b: P.LapmPeer) returns (rsp: Frame)
    requires Facing(a, b, IDLE, false, IDLE, 0)
    modifies a, a.info, a.ctrl, b, b.info, b.ctrl
    ensures Facing(a, b, IDLE, true, IDLE, 1)
    ensures SizesOf(a.Value()) == old(SizesOf(a.Value()))
    ensures SizesOf(b.Value()) == X.SettleAll(old(SizesOf(b.Value())), X.Carried(old(SizesOf(a.Value()))))
    ensures a.terms.comp == old(a.terms.comp)
    ensures b.terms.comp == X.UpdateComp(old(b.terms.comp), X.CarriedComp(old(a.terms.comp)))
    ensures rsp == U(b.rspAddr, XID(X.FI_GENERAL, X.Offer(SizesOf(b.Value()), b.terms.comp)), false)
  {
    hide Blank, PeerInv, L.Configure, L.Receive, L.GetTxFrame, L.HeedXid, X.Offer, X.SettleAll, SlotsFit, X.UpdateComp,
         X.CarriedComp;
    ghost var p, q := a.Value(), b.Value();
    AsksTerms(p, 0);
    Heeds(p, q);
    GivesTerms(q, X.Offer(SizesOf(p), p.terms.comp), 0);
    ConfigureSlots(p);
    a.Configure();
    DrawSlots(a.Value(), []);
    var cmd := TakeCtrl(a);
    ReceiveSlots(q, cmd, 0, []);
    b.Receive(cmd, 0, []);
    DrawSlots(b.Value(), []);
    rsp := TakeCtrl(b);
  }

  /** The caller hears the response, asks with SABME, and is answered with UA. */
  method Establish(a: P.LapmPeer, b: P.LapmPeer, rsp: Frame)
    requires Facing(a, b, IDLE, true, IDLE, 1)
    requires rsp == U(b.rspAddr, XID(X.FI_GENERAL, X.Offer(SizesOf(b.Value()), b.terms.comp)), false)
    modifies a, a.info, a.ctrl, b, b.info, b.ctrl
    ensures Facing(a, b, DATA, false, DATA, 2)
    ensures a.timer == b.timer == a.rtx == b.rtx == 0
    ensures SizesOf(b.Value()) == old(SizesOf(b.Value()))
    ensures SizesOf(a.Value()) == X.SettleAll(old(SizesOf(a.Value())), X.Carried(old(SizesOf(b.Value()))))
    ensures b.terms.comp == old(b.terms.comp)
    ensures a.terms.comp == X.UpdateComp(old(a.terms.comp), X.CarriedComp(old(b.terms.comp)))
  {
    hide Blank, PeerInv, L.Receive, L.GetTxFrame, L.HeedXid, X.Offer, X.SettleAll, SlotsFit, X.UpdateComp,
         X.CarriedComp;
    ghost var p, q := a.Value(), b.Value();
    Heeds(q, p);
    AsksLink(p, X.Offer(SizesOf(q), q.terms.comp), 1);
    ReceiveSlots(p, rsp, 0, []);
    a.Receive(rsp, 0, []);
    DrawSlots(a.Value(), []);
    var sabme := TakeCtrl(a);
    GivesLink(q, 1);
    LinkUp(a.Value(), 2);
    ReceiveSlots(q, sabme, 0, []);
    b.Receive(sabme, 0, []);
    DrawSlots(b.Value(), []);
    var ua := TakeCtrl(b);
    ReceiveSlots(a.Value(), ua, 0, []);
    a.Receive(ua, 0, []);
  }

  /**
   Two ends, connected as the modem does it: an XID command and its response, then SABME and UA.
   They start afresh, and hold the sizes that negotiation settles on.
   */
  method Connect(sizesA: X.Sizes, offerA: X.Comp, sizesB: X.Sizes, offerB: X.Comp) returns (a: LapmEnd, b: LapmEnd)
    ensures fresh(a) && fresh(a.peer) && fresh(a.peer.info) && fresh(a.peer.ctrl)
    ensures fresh(b) && fresh(b.peer) && fresh(b.peer.info) && fresh(b.peer.ctrl)
    ensures a.Inv() && b.Inv() && Apart(a, b) && S.Connected(Both(a, b))
    ensures (SizesOf(a.peer.Value()), SizesOf(b.peer.Value())) == X.Settled(sizesA, sizesB)
    ensures var (ca, cb) := (a.peer.terms.comp, b.peer.terms.comp);
            && (ca, cb) == X.SettledComp(offerA, offerB) && ca.request == cb.request
            && (ca.request == 0 <==> offerA.request % 256 == 0 || offerB.request == 0)
            && (ca.request != 0 ==> (ca == cb <==> X.Compatible(offerA, offerB)))
    ensures SlotsFit(a.peer.Value()) && SlotsFit(b.peer.Value())
    ensures sizesA == X.Carried(sizesA) ==>
              SizesOf(a.peer.Value()) == SizesOf(b.peer.Value()) == X.SettleAll(sizesA, sizesB)
  {
    hide PeerInv, X.SettleAll, X.Offer, SlotsFit, X.UpdateComp, X.CarriedComp, X.Compatible;
    a := new LapmEnd(true, sizesA, offerA);
    b := new LapmEnd(false, sizesB, offerB);
    BlankAtStart(a.peer);
    BlankAtStart(b.peer);
    var rsp := NegotiateTerms(a.peer, b.peer);
    Establish(a.peer, b.peer, rsp);
    FreshEnd(a);
    FreshEnd(b);
    X.CompAgrees(offerA, offerB);
    if sizesA == X.Carried(sizesA) {
      X.SettledAgrees(sizesA, sizesB);
    }
  }

  /**
   Safety of the objects: from two ends just connected, whose state is `s`, they come to where the
   events lead, and what either has handed over is a prefix of what the other has taken in.
   */
  method Converse(sizesA: X.Sizes, sizesB: X.Sizes, offer: X.Comp, events: seq<(bool, S.Event)>)
    returns (takenA: Str, acceptedA: Str, takenB: Str, acceptedB: Str, ghost s: S.Link)
    ensures S.Connected(s) && (SizesOf(s.a.p), SizesOf(s.b.p)) == X.Settled(sizesA, sizesB)
    ensures S.EndOk(s.a) && S.EndOk(s.b)
    ensures var r := S.Run(s, events);
            takenA == r.a.taken && acceptedA == r.a.accepted && takenB == r.b.taken && acceptedB == r.b.accepted
    ensures acceptedB <= takenA && acceptedA <= takenB
  {
    hide S.Run, S.Step, S.Connected, LapmEnd.Value, S.EndOk, SizesOf, X.Settled;
    var a, b := Connect(sizesA, offer, sizesB, offer);
    s := Both(a, b);
    SizesThere(a);
    SizesThere(b);
    ConnectedFresh(s);
    var i := 0;
    assert events[0..] == events;
    while i < |events|
      invariant i <= |events| && Apart(a, b) && a.Inv() && b.Inv()
      invariant fresh(a) && fresh(a.peer) && fresh(a.peer.info) && fresh(a.peer.ctrl)
      invariant fresh(b) && fresh(b.peer) && fresh(b.peer.info) && fresh(b.peer.ctrl)
      invariant S.EndOk(s.a) && S.EndOk(s.b) && S.EndOk(Both(a, b).a) && S.EndOk(Both(a, b).b)
      invariant S.Run(s, events) == S.Run(Both(a, b), events[i..])
    {
      RunUnfolds(Both(a, b), events, i);
      Step(a, b, events[i].0, events[i].1);
      i := i + 1;
    }
    RunEnds(Both(a, b), events[i..]);
    S.PrefixSafety(s, events);
    Parts(a);
    Parts(b);
    takenA, acceptedA, takenB, acceptedB := a.taken, a.accepted, b.taken, b.accepted;
  }

  lemma SizesThere(e: LapmEnd)
    ensures e.Value().p == e.peer.Value()
  {}

  lemma ConnectedFresh(s: S.Link)
    requires S.Connected(s)
    ensures S.Fresh(s.a) && S.Fresh(s.b) && S.EndOk(s.a) && S.EndOk(s.b)
  {}

  lemma RunUnfolds(s: S.Link, events: seq<(bool, S.Event)>, i: nat)
    requires S.EndOk(s.a) && S.EndOk(s.b) && i < |events|
    ensures S.Run(s, events[i..]) == S.Run(S.Step(s, events[i].0, events[i].1), events[i + 1..])
  {
    hide S.Step, S.EndOk;
    assert events[i..][0] == events[i] && events[i..][1..] == events[i + 1..];
  }

  lemma RunEnds(s: S.Link, events: seq<(bool, S.Event)>)
    requires S.EndOk(s.a) && S.EndOk(s.b) && events == []
    ensures S.Run(s, events) == s
  {}

  lemma Parts(e: LapmEnd)
    ensures e.Value().taken == e.taken && e.Value().accepted == e.accepted
  {}

  lemma BlankAtStart(p: P.LapmPeer)
    requires p.Inv() && p.state == IDLE && !p.config && !p.busy && !p.peerBusy && p.rest == []
    requires p.vs == p.va == p.vr == 0 && p.sentInfo == p.txInfo == p.infoList == 0
    requires p.txCtrl == p.ctrlList == 0 && !p.reject
    ensures Blank(p.Value(), IDLE, false, 0)
  {}

  lemma FreshEnd(e: LapmEnd)
    requires e.peer.Inv() && Blank(e.peer.Value(), DATA, false, 2) && e.peer.timer == e.peer.rtx == 0
    requires e.hdlc == Nothing && e.line == [] && e.taken == [] && e.accepted == []
    ensures e.Inv() && S.Fresh(e.Value()) && S.Unused(e.Value().p)
  {}
}
