/** Hanging up: the unnumbered frames, T401 while an answer is awaited, and the way back to idle. */
module LapmRelease {
  import opened Words
  import opened Lapm
  import opened LapmRing
  import T = LapmTimer
  import X = Xid
  import opened LapmLink
  import S = LapmSafety
  import opened LapmRounds
  import F = LapmFrames

  // ----- what an unnumbered frame does -----

  /** The frame `f` has been queued, if there was room for it. */
  predicate Answered(p: Peer, r: Peer, f: Frame)
    requires PeerInv(p)
  {
    && r.txCtrl == p.txCtrl
    && if NextC(p.ctrlList) == p.txCtrl then r.ctrl == p.ctrl && r.ctrlList == p.ctrlList
       else r.ctrl == p.ctrl[p.ctrlList := f] && r.ctrlList == NextC(p.ctrlList)
  }

  /** Nothing has been sent, taken or filled, and neither end is busy. */
  predicate Cleared(p: Peer)
  {
    p.vs == p.va == p.vr == 0 && p.sentInfo == p.txInfo == p.infoList && !p.busy && !p.peerBusy
  }

  /** SABME connects in every state, and is answered with UA. */
  lemma SabmeHeard(p: Peer, pf: bool)
    requires PeerInv(p)
    ensures var r := Receive(p, U(p.rspAddr, SABME, pf), 0, []);
            && r.state == DATA && r.timer == 0 && r.rtx == 0 && Cleared(r) && Answered(p, r, U(p.rspAddr, UA, pf))
            && r.infoList == p.infoList && r.info == p.info && r.rest == p.rest && r.reject == p.reject
  {}

  /** DISC makes every state idle and is answered with UA, but by an idle peer with DM. */
  lemma DiscHeard(p: Peer, pf: bool)
    requires PeerInv(p)
    ensures var r := Receive(p, U(p.rspAddr, DISCONNECT, pf), 0, []);
            && r.state == IDLE && r.rest == p.rest
            && (p.state == IDLE ==> Answered(p, r, U(p.rspAddr, DM, false)) && r.timer == p.timer)
            && (p.state != IDLE ==> Answered(p, r, U(p.rspAddr, UA, pf)) && r.timer == 0 && r.rtx == 0 && Cleared(r))
  {}

  /** UA ends the waiting for it, with a connection or without one, and means nothing otherwise. */
  lemma UaHeard(p: Peer, pf: bool)
    requires PeerInv(p)
    ensures var r := Receive(p, U(p.cmdAddr, UA, pf), 0, []);
            && r.ctrl == p.ctrl && r.ctrlList == p.ctrlList && r.txCtrl == p.txCtrl && r.rest == p.rest
            && (p.state == ESTAB ==> r.state == DATA && r.timer == 0 && r.rtx == 0 && Cleared(r))
            && (p.state == DISC ==> r.state == IDLE && r.timer == 0 && r.rtx == 0 && Cleared(r))
            && (p.state == DATA || p.state == IDLE ==> r == p)
  {}

  /**
   DM refuses a connection and confirms a disconnection if it is final; while connected it ends the
   link if the peer is polling or the frame is not final.
   */
  lemma DmHeard(p: Peer, pf: bool)
    requires PeerInv(p)
    ensures var r := Receive(p, U(p.cmdAddr, DM, pf), 0, []);
            && r.ctrl == p.ctrl && r.ctrlList == p.ctrlList && r.txCtrl == p.txCtrl && r.rest == p.rest
            && (r != p ==> r.state == IDLE && Cleared(r))
            && ((p.state == ESTAB || p.state == DISC) && pf ==> r.state == IDLE && r.timer == 0 && r.rtx == 0)
            && ((p.state == ESTAB || p.state == DISC) && !pf ==> r == p)
            && (p.state == DATA ==> (r.state == IDLE <==> p.rtx != 0 || !pf) && r.timer == p.timer)
            && (p.state == IDLE ==> r == p)
  {}

  /** Numbered frames connect a peer that awaits UA, and release one that disconnects. */
  lemma NumberedHeard(p: Peer, f: Frame, k: nat, chars: Str)
    requires PeerInv(p) && !f.U? && (f.I? ==> k <= |f.info|)
    ensures p.state == DISC ==> Receive(p, f, k, chars) == Reset(p).(state := IDLE)
    ensures p.state == IDLE ==> Receive(p, f, k, chars) == p
    ensures p.state == ESTAB ==> Receive(p, f, k, chars) == Receive(Reset(p).(state := DATA), f, k, chars)
  {}

  /** What a peer that has had no answer asks again when T401 expires, if it has retries left. */
  lemma AsksAgain(p: Peer)
    requires PeerInv(p) && p.rtx <= MAX_RTX
    ensures var r := Timeout(p);
            && r.state == p.state && r.rtx == p.rtx + 1 && r.timer == T401
            && (p.config ==>
                  Answered(p, r, U(p.cmdAddr, XID(X.FI_GENERAL, X.Offer(SizesOf(p), p.terms.comp)), false)))
            && (!p.config && p.state == ESTAB ==> Answered(p, r, U(p.cmdAddr, SABME, true)))
            && (!p.config && p.state == DISC ==> Answered(p, r, U(p.cmdAddr, DISCONNECT, true)))
            && (!p.config && p.state == DATA ==> Answered(p, r, S(p.cmdAddr, if p.busy then RNR else RR, p.vr, true)))
            && (!p.config && p.state == IDLE ==> r.ctrl == p.ctrl && r.ctrlList == p.ctrlList)
  {
    hide X.Offer, PeerInv;
  }

  // ----- T401 while an answer is awaited -----

  /** T401 runs as long as a peer awaits the answer to its SABME or DISC. */
  predicate Alarmed(p: Peer)
  {
    p.timer <= T401 && (p.state == ESTAB || p.state == DISC ==> p.timer > 0)
  }

  /** A response to the peer's XID command, while it awaits the answer to another command. */
  predicate StopsAlarm(p: Peer, e: Event)
  {
    && e.Hear? && e.f.U? && e.f.unnum.XID? && e.f.addr != p.rspAddr
    && p.config && (p.state == ESTAB || p.state == DISC)
  }

  /** In the data state: it stays, and T401 is stopped, started or left alone. */
  predicate Carries(p: Peer, r: Peer)
  {
    r.state == p.state && (r.timer == p.timer || r.timer == 0 || r.timer == T401)
  }

  lemma AckCarries(p: Peer, nr: nat)
    requires RingOk(p)
    ensures PeerInv(p) && PeerInv(AckInfo(p, nr)) && Carries(p, AckInfo(p, nr))
  {
    hide RingOk, PeerInv, Release, Outstanding, Disconnect, Calm;
    PeerOf(p);
    AckCalm(p, nr);
    ReleaseOnly(p, nr);
    CalmOk(p, AckInfo(p, nr));
  }

  lemma ReplyCarries(p: Peer, f: Frame, chars: Str)
    requires PeerInv(p) && f.S?
    ensures Carries(p, Reply(p, f, chars))
  {
    hide PeerInv, TxCtrl, TxInfo;
    TxInfoOnly(p, chars);
    var q := TxInfo(p, chars).0;
    TxCtrlOnly(p, S(f.addr, if p.busy then RNR else RR, p.vr, true));
    TxCtrlOnly(q, S(f.addr, if q.busy then RNR else RR, q.vr, false));
  }

  lemma BackCarries(p: Peer)
    requires PeerInv(p)
    ensures PeerInv(Stop(p)) && Carries(p, Stop(RejectInfo(p))) && Carries(p, RejectInfo(Stop(p)))
    ensures Carries(p, Start(p)) && Carries(p, Start(Stop(RejectInfo(p))))
  {}

  lemma SuperCarries(p: Peer, f: Frame, chars: Str)
    requires RingOk(p) && f.S?
    ensures PeerInv(p) && Carries(p, RxSuperCmd(p, f, chars)) && Carries(p, RxSuperRsp(p, f))
  {
    hide RingOk, PeerInv, AckInfo, Reply, TxCtrl, RejectInfo, Calm;
    PeerOf(p);
    var p0 := p.(peerBusy := f.super == RNR);
    SmallVr(p);
    FlagsCalm(p, p.state, p.reject, p.busy, f.super == RNR, p.vr, p.rest);
    CalmOk(p, p0);
    AckCarries(p0, f.nr);
    var p1 := AckInfo(p0, f.nr);
    TxCtrlOnly(p1, S(p1.rspAddr, if p1.busy then RNR else RR, p1.vr, true));
    BackCarries(p1);
    ReplyCarries(p1, f, chars);
    ReplyCarries(RejectInfo(Stop(p1)), f, chars);
  }

  lemma InfoCarries(p: Peer, f: Frame, k: nat, chars: Str)
    requires RingOk(p) && f.I? && k <= |f.info|
    ensures PeerInv(p) && Carries(p, RxInfo(p, f, k, chars))
  {
    hide RingOk, PeerInv, AckInfo, TxCtrl, TxInfo, Calm;
    PeerOf(p);
    AckCarries(p, f.nr);
    var q := AckInfo(p, f.nr);
    TxCtrlOnly(q, S(q.rspAddr, RNR, q.vr, true));
    TxCtrlOnly(q, S(q.rspAddr, REJ, q.vr, f.pf));
    TakenCarries(q, f, k, chars);
  }

  lemma TakenCarries(p: Peer, f: Frame, k: nat, chars: Str)
    requires PeerInv(p) && f.I? && k <= |f.info|
    ensures var p1 := p.(reject := false, vr := (p.vr + 1) % 128);
            var q := TxInfo(p1, chars).0;
            && Carries(p, TxSuper(p1.(rest := f.info[k..], busy := true), f.addr, RNR, f.pf))
            && Carries(p, TxSuper(p1, f.addr, RR, f.pf)) && Carries(p, q) && Carries(p, TxSuper(q, f.addr, RR, f.pf))
  {
    hide TxCtrl, TxInfo;
    var p1 := p.(reject := false, vr := (p.vr + 1) % 128);
    var q := TxInfo(p1, chars).0;
    TxInfoOnly(p1, chars);
    TxCtrlOnly(p1.(rest := f.info[k..], busy := true), S(f.addr, RNR, p1.vr, f.pf));
    TxCtrlOnly(p1, S(f.addr, RR, p1.vr, f.pf));
    TxCtrlOnly(q, S(f.addr, RR, q.vr, f.pf));
  }

  lemma UnnumCmdAlarmed(p: Peer, f: Frame)
    requires PeerInv(p) && Alarmed(p) && f.U?
    ensures Alarmed(RxUnnumCmd(p, f))
  {
    hide TxCtrl, HeedXid, X.Offer;
    if f.unnum.XID? {
      HeedOnly(p, f.unnum.fi, f.unnum.groups);
      var q := HeedXid(p, f.unnum.fi, f.unnum.groups);
      TxCtrlOnly(q, U(q.rspAddr, XID(X.FI_GENERAL, X.Offer(SizesOf(q), q.terms.comp)), false));
    } else {
      TxCtrlOnly(Reset(p).(state := DATA), U(p.rspAddr, UA, f.pf));
      TxCtrlOnly(p, U(p.rspAddr, DM, false));
      TxCtrlOnly(Reset(p.(state := IDLE)), U(p.rspAddr, UA, f.pf));
    }
  }

  lemma UnnumRspAlarmed(p: Peer, f: Frame)
    requires PeerInv(p) && Alarmed(p) && f.U?
    ensures Alarmed(RxUnnumRsp(p, f)) <==> !(f.unnum.XID? && p.config && (p.state == ESTAB || p.state == DISC))
  {
    hide HeedXid, X.Offer, TxCtrl;
    if f.unnum.XID? {
      HeedOnly(p, f.unnum.fi, f.unnum.groups);
      var q := Stop(HeedXid(p, f.unnum.fi, f.unnum.groups).(config := false));
      TxCtrlOnly(Reset(q).(state := ESTAB), U(q.cmdAddr, SABME, true));
      TxCtrlOnly(q.(busy := false), S(q.cmdAddr, RR, q.vr, false));
    }
  }

  lemma HearAlarmed(p: Peer, f: Frame, k: nat, chars: Str)
    requires RingOk(p) && Alarmed(p) && (f.I? ==> k <= |f.info|)
    ensures PeerInv(p) && (Alarmed(Receive(p, f, k, chars)) <==> !StopsAlarm(p, Hear(f, k, chars)))
  {
    hide RingOk, PeerInv, RxInfo, RxSuperCmd, RxSuperRsp, RxUnnumCmd, RxUnnumRsp, Calm;
    PeerOf(p);
    if f.U? {
      UnnumCmdAlarmed(p, f);
      UnnumRspAlarmed(p, f);
    } else {
      var p1 := ValidDataState(p);
      ValidCalm(p, f, k, chars);
      CalmOk(Anchor(p, Hear(f, k, chars)), p1);
      if p1.state == DATA {
        if f.I? {
          InfoCarries(p1, f, k, chars);
        } else {
          SuperCarries(p1, f, chars);
        }
      }
    }
  }

  lemma DrawAlarmed(p: Peer, chars: Str)
    requires PeerInv(p) && Alarmed(p)
    ensures Alarmed(GetTxFrame(p, chars).0)
  {
    hide PeerInv, TxInfo;
    TxInfoOnly(p, chars);
  }

  lemma ElapseAlarmed(p: Peer, n: nat)
    requires PeerInv(p) && Alarmed(p)
    ensures Alarmed(Elapse(p, n)) && Alarmed(Connect(p)) && Alarmed(Disconnect(p))
  {
    hide X.Offer, TxCtrl;
    var q := p.(timer := 0);
    var p0, p1 := q.(rtx := 0), q.(rtx := p.rtx + 1);
    TxCtrlOnly(p0.(state := DISC), U(p.cmdAddr, DISCONNECT, true));
    TxCtrlOnly(p1, U(p.cmdAddr, SABME, true));
    TxCtrlOnly(p1, U(p.cmdAddr, DISCONNECT, true));
    TxCtrlOnly(p1, U(p.cmdAddr, XID(X.FI_GENERAL, X.Offer(SizesOf(p), p.terms.comp)), false));
    TxCtrlOnly(p1, S(p.cmdAddr, if p.busy then RNR else RR, p.vr, true));
  }

  lemma PushAlarmed(p: Peer, k: nat)
    requires PeerInv(p) && Alarmed(p) && k <= |p.rest|
    ensures Alarmed(PushRest(p, k))
  {}

  lemma ConfigureAlarmed(p: Peer)
    requires PeerInv(p) && Alarmed(p)
    ensures Alarmed(Configure(p))
  {
    hide X.Offer, TxCtrl;
    var q := p.(config := true);
    var b := q.(busy := true);
    TxCtrlOnly(b, S(p.cmdAddr, RNR, p.vr, true));
    var c := TxSuper(b, p.cmdAddr, RNR, true);
    TxCtrlOnly(q, U(p.cmdAddr, XID(X.FI_GENERAL, X.Offer(SizesOf(q), q.terms.comp)), false));
    TxCtrlOnly(c, U(p.cmdAddr, XID(X.FI_GENERAL, X.Offer(SizesOf(c), c.terms.comp)), false));
  }

  /**
   Whatever happens, T401 goes on running while an answer is awaited, with one exception: the answer
   to an earlier XID command stops it.
   */
  lemma NextAlarmed(p: Peer, e: Event)
    requires RingOk(p) && Alarmed(p)
    ensures PeerInv(p) && (Alarmed(Next(p, e)) <==> !StopsAlarm(p, e))
  {
    hide RingOk, PeerInv, GetTxFrame, Receive, Elapse, PushRest, Connect, Disconnect, Configure, Alarmed;
    PeerOf(p);
    match e
    case Draw(chars) => DrawAlarmed(p, chars);
    case Hear(f, k, chars) =>
      if !f.I? || k <= |f.info| {
        HearAlarmed(p, f, k, chars);
      }
    case Tick(n) => ElapseAlarmed(p, n);
    case Push(k) =>
      if k <= |p.rest| {
        PushAlarmed(p, k);
      }
    case Negotiate => ConfigureAlarmed(p);
    case Dial => ElapseAlarmed(p, 0);
    case Hangup => ElapseAlarmed(p, 0);
  }

  /** No event of the history is the answer that stops T401. */
  predicate Undisturbed(p: Peer, es: seq<Event>)
    requires PeerInv(p)
    decreases es
  {
    es == [] || (!StopsAlarm(p, es[0]) && Undisturbed(Next(p, es[0]), es[1..]))
  }

  lemma {:induction false} AlwaysAlarmed(p: Peer, es: seq<Event>)
    requires RingOk(p) && Alarmed(p)
    ensures PeerInv(p) && RingOk(Run(p, es)) && (Undisturbed(p, es) ==> Alarmed(Run(p, es)))
    decreases es
  {
    hide RingOk, Next, PeerInv, Alarmed, StopsAlarm;
    PeerOf(p);
    if es == [] {
    } else {
      NextAlarmed(p, es[0]);
      F.NextRing(p, es[0]);
      if Alarmed(Next(p, es[0])) {
        AlwaysAlarmed(Next(p, es[0]), es[1..]);
      } else {
        F.RingAlways(Next(p, es[0]), es[1..]);
      }
    }
  }

  /**
   A peer that has been hung up, or that calls, after any frames of any sender: if it then hears nothing
   more it becomes idle with the expiry foretold, at most the seventh.
   */
  lemma HungUpGivesUp(p: Peer, es: seq<Event>, quiet: seq<T.Silent>)
    requires RingOk(p) && Alarmed(p)
    ensures PeerInv(p)
    ensures var r := Run(p, es);
            Undisturbed(p, es) && (r.state == DISC || r.state == ESTAB) ==>
              && T.Left(r) <= 7 && (T.Resting(T.Run(r, quiet)) <==> T.Expiries(r, quiet) == T.Left(r))
              && T.Expiries(r, quiet) <= T.Left(r)
  {
    hide RingOk, Run, PeerInv, Undisturbed, T.Run, T.Expiries, T.Left, T.Resting;
    AlwaysAlarmed(p, es);
    PeerOf(p);
    var r := Run(p, es);
    if Undisturbed(p, es) && (r.state == DISC || r.state == ESTAB) {
      T.GivesUp(r, quiet);
    }
  }

  // ----- the exception -----

  /** A peer that awaits an answer with T401 stopped and nothing to send. */
  predicate Forgotten(p: Peer)
  {
    && PeerInv(p) && (p.state == ESTAB || p.state == DISC) && p.timer == 0 && p.txCtrl == p.ctrlList && !p.config
  }

  /** It does nothing until it hears a frame or is hung up again: no time helps, and it cannot call. */
  lemma {:induction false} StaysForgotten(p: Peer, es: seq<Event>)
    requires Forgotten(p) && forall i :: 0 <= i < |es| ==> es[i].Tick? || es[i].Draw? || es[i].Push? || es[i].Dial?
    ensures PeerInv(p) && Run(p, es) == p
    decreases es
  {
    hide PeerInv, TxInfo;
    assert PeerInv(p);
    if es != [] {
      assert Next(p, es[0]) == p;
      StaysForgotten(p, es[1..]);
    }
  }

  /** A peer as it is made: idle, with empty rings and an empty control queue. */
  predicate New(p: Peer)
  {
    && RingOk(p) && p.state == IDLE && p.timer == 0 && !p.config && Cleared(p) && p.txCtrl == p.ctrlList
  }

  /**
   A history of a new peer: it negotiates, is hung up, sends its XID command and its DISC, which is
   lost, and hears the answer to the first.  Then T401 is stopped and it waits for ever.
   */
  lemma HungUpWhileNegotiating(p: Peer, groups: Str) returns (es: seq<Event>)
    requires New(p)
    ensures PeerInv(p) && |es| == 5 && !(exists i :: 0 <= i < 4 && es[i].Hear?)
    ensures es[4] == Hear(U(p.cmdAddr, XID(X.FI_GENERAL, groups), false), 0, [])
    ensures Forgotten(Run(p, es)) && Run(p, es).state == DISC
  {
    hide X.Heed, X.Offer, X.UpdateComp;
    es := [Negotiate, Hangup, Draw([]), Draw([]), Hear(U(p.cmdAddr, XID(X.FI_GENERAL, groups), false), 0, [])];
    assert PeerInv(p);
    var p1 := Configure(p);
    assert p1.state == IDLE && p1.config && p1.ctrlList == NextC(p.ctrlList) && p1.txCtrl == p.txCtrl;
    var p2 := Disconnect(p1);
    assert p2.state == DISC && p2.config && p2.ctrlList == NextC(NextC(p.ctrlList)) && p2.txCtrl == p.txCtrl;
    var p3 := GetTxFrame(p2, []).0;
    var p4 := GetTxFrame(p3, []).0;
    assert p4 == p2.(txCtrl := NextC(NextC(p.txCtrl)));
    var p5 := Receive(p4, es[4].f, 0, []);
    assert Forgotten(p5);
    FiveSteps(p, es, p1, p2, p3, p4, p5);
  }

  lemma FiveSteps(p: Peer, es: seq<Event>, p1: Peer, p2: Peer, p3: Peer, p4: Peer, p5: Peer)
    requires PeerInv(p) && PeerInv(p1) && PeerInv(p2) && PeerInv(p3) && PeerInv(p4) && |es| == 5
    requires Next(p, es[0]) == p1 && Next(p1, es[1]) == p2 && Next(p2, es[2]) == p3 && Next(p3, es[3]) == p4
    requires Next(p4, es[4]) == p5
    ensures Run(p, es) == p5
  {
    hide PeerInv, Next;
    assert es[1..][1..] == es[2..] && es[2..][1..] == es[3..] && es[3..][1..] == es[4..] && es[4..][1..] == [];
    assert PeerInv(p5) && Run(p5, []) == p5;
    assert Run(p4, es[4..]) == p5;
    assert Run(p3, es[3..]) == p5;
    assert Run(p2, es[2..]) == p5;
    assert Run(p1, es[1..]) == p5;
  }

  // ----- hanging up a link -----

  /** An idle end with nothing queued and T401 stopped. */
  predicate AtRest(e: End)
  {
    && S.EndOk(e) && e.hdlc == Nothing && e.line == [] && e.p.state == IDLE && e.p.timer == 0 && e.p.rtx == 0
    && !e.p.config && Cleared(e.p) && e.p.txCtrl == e.p.ctrlList
  }

  /** Queued frames apart, a peer that keeps its addresses, what it has still to hand over, and its rings. */
  predicate SameUser(p: Peer, r: Peer)
  {
    r.cmdAddr == p.cmdAddr && r.rspAddr == p.rspAddr && r.rest == p.rest && r.config == p.config
  }

  /** A peer with nothing queued queues one frame, which goes out. */
  predicate OneQueued(p: Peer, head: nat, f: Frame)
  {
    PeerInv(p) && p.txCtrl == head && p.ctrlList == NextC(head) && p.ctrl[head] == f
  }

  lemma OneSent(e: End, head: nat, f: Frame)
    requires S.EndOk(e) && e.hdlc == Nothing && e.line == [] && OneQueued(e.p, head, f)
    ensures var r := SentBy(e, []);
            && r == e.(p := e.p.(txCtrl := NextC(head)), line := [f]) && S.EndOk(r) && r.p.txCtrl == r.p.ctrlList
            && Cleared(r.p) == Cleared(e.p)
  {
    CtrlSent(e, f);
    assert [] + [f] == [f];
  }

  lemma HangsUp(e: End)
    requires S.EndOk(e) && e.hdlc == Nothing && e.line == [] && e.p.state == DATA && e.p.txCtrl == e.p.ctrlList
    ensures var r := S.Local(e, S.Hangup);
            && OneQueued(r.p, e.p.txCtrl, U(e.p.cmdAddr, DISCONNECT, true)) && r.p.state == DISC && SameUser(e.p, r.p)
            && r == e.(p := r.p)
  {}

  lemma HearsDisc(e: End)
    requires S.EndOk(e) && e.p.state == DATA && e.p.txCtrl == e.p.ctrlList
    ensures var r := S.Arrived(e, U(e.p.rspAddr, DISCONNECT, true), 0, []);
            && OneQueued(r.p, e.p.txCtrl, U(e.p.rspAddr, UA, true)) && r.p.state == IDLE && r.p.timer == r.p.rtx == 0
            && Cleared(r.p) && SameUser(e.p, r.p) && r == e.(p := r.p)
  {}

  lemma HearsUa(e: End)
    requires S.EndOk(e) && e.p.state == DISC && e.p.txCtrl == e.p.ctrlList
    ensures var r := S.Arrived(e, U(e.p.cmdAddr, UA, true), 0, []);
            && r.p.state == IDLE && r.p.timer == r.p.rtx == 0 && r.p.txCtrl == r.p.ctrlList
            && Cleared(r.p) && SameUser(e.p, r.p) && r == e.(p := r.p)
  {}

  /**
   Two connected ends with nothing under way; the first is hung up.  Its DISC goes over the line, UA comes
   back, and both ends are idle with T401 stopped; nothing is taken from a source or handed over.
   */
  lemma Releases(s: S.Link) returns (es: seq<(bool, S.Event)>, r: S.Link)
    requires Silence(s) && !s.a.p.config && !s.b.p.config
    ensures S.EndOk(s.a) && S.EndOk(s.b) && S.Run(s, es) == r && AtRest(r.a) && AtRest(r.b)
    ensures SameUser(s.a.p, r.a.p) && SameUser(s.b.p, r.b.p)
    ensures r.a.taken == s.a.taken && r.b.taken == s.b.taken && r.a.accepted == s.a.accepted
            && r.b.accepted == s.b.accepted
  {
    hide S.EndOk, S.Run, S.Local, S.Arrived, SentBy, OneQueued, Cleared;
    RunNone(s);
    es, r := ThenDoes(s, [], s, true, S.Hangup);
    HangsUp(s.a);
    OneSent(r.a, s.a.p.txCtrl, U(s.a.p.cmdAddr, DISCONNECT, true));
    es, r := ThenSends(s, es, r, true, []);
    assert r.a.line == [U(s.a.p.cmdAddr, DISCONNECT, true)] + [];
    es, r := ThenHears(s, es, r, false, 0, U(s.a.p.cmdAddr, DISCONNECT, true), [], []);
    HearsDisc(s.b);
    OneSent(r.b, s.b.p.txCtrl, U(s.b.p.rspAddr, UA, true));
    es, r := ThenSends(s, es, r, false, []);
    assert r.b.line == [U(s.b.p.rspAddr, UA, true)] + [];
    HearsUa(r.a);
    es, r := ThenHears(s, es, r, true, 0, U(s.b.p.rspAddr, UA, true), [], []);
  }

  /** After any history of two ends that start afresh, once nothing is under way. */
  lemma ReleasesAlways(s0: S.Link, events: seq<(bool, S.Event)>) returns (es: seq<(bool, S.Event)>)
    requires S.Fresh(s0.a) && S.Fresh(s0.b) && Silence(S.Run(s0, events))
    ensures var r := S.Run(s0, events + es);
            AtRest(r.a) && AtRest(r.b) && r.b.accepted <= r.a.taken && r.a.accepted <= r.b.taken
  {
    hide S.EndOk, S.Run, S.Fresh, Silence, AtRest;
    var ga, gb := AfterHistory(s0, events);
    var s := S.Run(s0, events);
    NotNegotiating(s, ga, gb);
    var r;
    es, r := Releases(s);
    RunAppend(s0, events, es);
    S.PrefixSafety(s0, events + es);
  }

  lemma NotNegotiating(s: S.Link, ga: Ghost, gb: Ghost)
    requires S.Inv(s, ga, gb)
    ensures !s.a.p.config && !s.b.p.config
  {}

  // ----- calling again -----

  /** The first peer calls, SABME goes over the line, and UA comes back. */
  function Called(p: Peer): Peer
    requires PeerInv(p)
  {
    GetTxFrame(Connect(p), []).0
  }

  function Answers(q: Peer): Peer
    requires PeerInv(q)
  {
    GetTxFrame(Receive(q, U(q.rspAddr, SABME, true), 0, []), []).0
  }

  /**
   Peers at rest connect again: what is given out are SABME and UA, and then both are in the data state
   with all counts zero.  They start afresh if and only if nothing was left to hand over when they were
   released: such a rest is not discarded, and is still handed over in the new connection.
   */
  lemma ConnectsAgain(a: End, b: End)
    requires AtRest(a) && AtRest(b) && a.p.cmdAddr == b.p.rspAddr && b.p.cmdAddr == a.p.rspAddr
    requires a.taken == a.accepted == b.taken == b.accepted == []
    ensures PeerInv(a.p) && PeerInv(b.p)
    ensures var p, q := Called(a.p), Answers(b.p);
            && GetTxFrame(Connect(a.p), []).1 == Ctrl(a.p.txCtrl) && p.ctrl[a.p.txCtrl] == U(a.p.cmdAddr, SABME, true)
            && q.ctrl[b.p.txCtrl] == U(b.p.rspAddr, UA, true)
            && var r := Receive(p, U(b.p.rspAddr, UA, true), 0, []);
               && r.state == q.state == DATA && r.timer == q.timer == 0 && Cleared(r) && Cleared(q)
               && (S.Fresh(a.(p := r)) <==> a.p.rest == []) && (S.Fresh(b.(p := q)) <==> b.p.rest == [])
  {
    hide PeerInv, TxCtrl, GetTxFrame, Receive, Connect, S.Fresh, Reset;
    CallsAgain(a.p);
    AnswersAgain(b.p);
    LinkIsUp(a.p, Called(a.p), b.p.rspAddr);
    FreshIff(a, Receive(Called(a.p), U(b.p.rspAddr, UA, true), 0, []));
    FreshIff(b, Answers(b.p));
  }

  lemma LinkIsUp(p0: Peer, p: Peer, addr: nat)
    requires PeerInv(p) && p.state == ESTAB && p.txCtrl == p.ctrlList && !p.config && addr == p.cmdAddr
    requires p.rest == p0.rest
    ensures var r := Receive(p, U(addr, UA, true), 0, []);
            && r.state == DATA && r.timer == 0 && Cleared(r) && r.rest == p0.rest && !r.config && r.txCtrl == r.ctrlList
  {}

  lemma FreshIff(e: End, r: Peer)
    requires AtRest(e) && e.taken == e.accepted == []
    requires PeerInv(r) && r.state == DATA && Cleared(r) && r.rest == e.p.rest && !r.config && r.txCtrl == r.ctrlList
    ensures S.Fresh(e.(p := r)) <==> e.p.rest == []
  {}

  lemma CallsAgain(p: Peer)
    requires PeerInv(p) && p.state == IDLE && p.txCtrl == p.ctrlList && !p.config
    ensures var q := Connect(p);
            && q.state == ESTAB && q.txCtrl == p.txCtrl && q.ctrlList == NextC(p.txCtrl)
            && q.ctrl[p.txCtrl] == U(p.cmdAddr, SABME, true)
            && GetTxFrame(q, []) == (q.(txCtrl := NextC(p.txCtrl)), Ctrl(p.txCtrl))
            && q.timer == T401 && Cleared(q) && q.rest == p.rest && !q.config && q.cmdAddr == p.cmdAddr
  {}

  lemma AnswersAgain(p: Peer)
    requires PeerInv(p) && p.state == IDLE && p.txCtrl == p.ctrlList && !p.config
    ensures var q := Receive(p, U(p.rspAddr, SABME, true), 0, []);
            && q.state == DATA && q.txCtrl == p.txCtrl && q.ctrlList == NextC(p.txCtrl)
            && q.ctrl[p.txCtrl] == U(p.rspAddr, UA, true)
            && GetTxFrame(q, []) == (q.(txCtrl := NextC(p.txCtrl)), Ctrl(p.txCtrl))
            && q.timer == 0 && Cleared(q) && q.rest == p.rest && !q.config && q.cmdAddr == p.cmdAddr
  {}
}
