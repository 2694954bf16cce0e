/** T401 runs as long as a connected peer has frames that are not acknowledged. */
module LapmClock {
  import opened Words
  import opened Lapm
  import opened LapmRing
  import X = Xid
  import opened LapmLink
  import S = LapmSafety
  import F = LapmFrames

  /** In the data state, T401 is stopped only when nothing is outstanding. */
  predicate Timed(p: Peer)
  {
    p.state == DATA && p.timer == 0 ==> p.vs == p.va
  }

  /** The invariant of one peer outside of negotiation. */
  predicate Watched(p: Peer)
  {
    RingOk(p) && Timed(p) && !p.config
  }

  /** Nothing that the watch depends on changes. */
  lemma SameWatch(p: Peer, r: Peer)
    requires Timed(p) && r.state == p.state && r.timer == p.timer && r.vs == p.vs && r.va == p.va
    ensures Timed(r)
  {}

  lemma NothingOutstanding(p: Peer)
    requires PeerInv(p)
    ensures Outstanding(p) == 0 <==> p.vs == p.va
  {}

  lemma AckTimed(p: Peer, nr: nat)
    requires RingOk(p) && Timed(p)
    ensures PeerInv(p) && Timed(AckInfo(p, nr)) && AckInfo(p, nr).config == p.config
  {
    hide RingOk, PeerInv, Disconnect, Release, Outstanding, Calm;
    PeerOf(p);
    ReleaseOnly(p, nr);
    var n := ReleaseExact(p, nr);
    var r := Release(p, nr);
    CalmOk(p, r);
    NothingOutstanding(r);
    if p.timer == 0 && p.state == DATA {
      NothingOutstanding(p);
      NothingReleased(p, nr);
    }
  }

  lemma NothingReleased(p: Peer, nr: nat)
    requires PeerInv(p) && InRing(p) == 0
    ensures Release(p, nr) == p
  {}

  /** Going back takes V(S) back to V(A), so that T401 may stop. */
  lemma BackTimed(p: Peer)
    requires PeerInv(p)
    ensures PeerInv(Stop(p)) && Timed(RejectInfo(Stop(p))) && Timed(Stop(RejectInfo(p)))
    ensures Timed(Start(p)) && Timed(Start(Stop(RejectInfo(p))))
    ensures RejectInfo(p).config == p.config && RejectInfo(Stop(p)).config == p.config
  {}

  lemma ReplyTimed(p: Peer, f: Frame, chars: Str)
    requires PeerInv(p) && Timed(p) && f.S?
    ensures Timed(Reply(p, f, chars)) && Reply(p, f, chars).config == p.config
  {
    hide PeerInv, TxCtrl, TxInfo;
    TxInfoOnly(p, chars);
    var q := TxInfo(p, chars).0;
    TxCtrlOnly(p, S(f.addr, if p.busy then RNR else RR, p.vr, true));
    TxCtrlOnly(q, S(f.addr, if q.busy then RNR else RR, q.vr, false));
  }

  /** The part common to all supervisory frames. */
  lemma AckFrom(p: Peer, f: Frame)
    requires RingOk(p) && Timed(p) && f.S?
    ensures PeerInv(p.(peerBusy := f.super == RNR))
    ensures var r := AckInfo(p.(peerBusy := f.super == RNR), f.nr);
            RingOk(r) && PeerInv(r) && Timed(r) && r.config == p.config && r.state == p.state
  {
    hide RingOk, PeerInv, AckInfo, Calm;
    var p0 := p.(peerBusy := f.super == RNR);
    SmallVr(p);
    FlagsCalm(p, p.state, p.reject, p.busy, f.super == RNR, p.vr, p.rest);
    CalmOk(p, p0);
    SameWatch(p, p0);
    AckCalm(p0, f.nr);
    AckTimed(p0, f.nr);
    CalmOk(p0, AckInfo(p0, f.nr));
  }

  lemma SuperCmdTimed(p: Peer, f: Frame, chars: Str)
    requires RingOk(p) && Timed(p) && f.S? && p.state == DATA
    ensures PeerInv(p) && Timed(RxSuperCmd(p, f, chars)) && RxSuperCmd(p, f, chars).config == p.config
  {
    hide RingOk, Timed, PeerInv, AckInfo, Reply, TxCtrl, RejectInfo, Calm;
    PeerOf(p);
    AckFrom(p, f);
    var p1 := AckInfo(p.(peerBusy := f.super == RNR), f.nr);
    TxCtrlOnly(p1, S(p1.rspAddr, if p1.busy then RNR else RR, p1.vr, true));
    SameWatch(p1, TxStatus(p1, p1.rspAddr, true));
    BackTimed(p1);
    ReplyTimed(p1, f, chars);
    ReplyTimed(RejectInfo(Stop(p1)), f, chars);
  }

  lemma SuperRspTimed(p: Peer, f: Frame)
    requires RingOk(p) && Timed(p) && f.S?
    ensures PeerInv(p) && Timed(RxSuperRsp(p, f)) && RxSuperRsp(p, f).config == p.config
  {
    hide RingOk, Timed, PeerInv, AckInfo, RejectInfo, Calm;
    PeerOf(p);
    AckFrom(p, f);
    var p1 := AckInfo(p.(peerBusy := f.super == RNR), f.nr);
    BackTimed(p1);
  }

  lemma InfoTimed(p: Peer, f: Frame, k: nat, chars: Str)
    requires RingOk(p) && Timed(p) && f.I? && k <= |f.info|
    ensures PeerInv(p) && Timed(RxInfo(p, f, k, chars)) && RxInfo(p, f, k, chars).config == p.config
  {
    hide RingOk, PeerInv, AckInfo, TxCtrl, TxInfo, Calm;
    PeerOf(p);
    AckTimed(p, f.nr);
    AckCalm(p, f.nr);
    var q := AckInfo(p, f.nr);
    CalmOk(p, q);
    TxCtrlOnly(q, S(q.rspAddr, RNR, q.vr, true));
    TxCtrlOnly(q, S(q.rspAddr, REJ, q.vr, f.pf));
    TakenTimed(q, f, k, chars);
  }

  lemma TakenTimed(p: Peer, f: Frame, k: nat, chars: Str)
    requires PeerInv(p) && Timed(p) && f.I? && k <= |f.info|
    ensures var p1 := p.(reject := false, vr := (p.vr + 1) % 128);
            var q := TxInfo(p1, chars).0;
            && Timed(TxSuper(p1.(rest := f.info[k..], busy := true), f.addr, RNR, f.pf))
            && Timed(TxSuper(p1, f.addr, RR, f.pf)) && Timed(q) && Timed(TxSuper(q, f.addr, RR, f.pf))
            && TxSuper(p1.(rest := f.info[k..], busy := true), f.addr, RNR, f.pf).config == p.config
            && TxSuper(p1, f.addr, RR, f.pf).config == q.config == TxSuper(q, f.addr, RR, f.pf).config == p.config
  {
    hide TxCtrl, TxInfo;
    var p1 := p.(reject := false, vr := (p.vr + 1) % 128);
    var q := TxInfo(p1, chars).0;
    TxInfoOnly(p1, chars);
    TxCtrlOnly(p1.(rest := f.info[k..], busy := true), S(f.addr, RNR, p1.vr, f.pf));
    TxCtrlOnly(p1, S(f.addr, RR, p1.vr, f.pf));
    TxCtrlOnly(q, S(f.addr, RR, q.vr, f.pf));
  }

  lemma UnnumTimed(p: Peer, f: Frame)
    requires PeerInv(p) && Timed(p) && f.U? && !p.config
    ensures Timed(RxUnnumCmd(p, f)) && Timed(RxUnnumRsp(p, f))
    ensures !RxUnnumCmd(p, f).config && !RxUnnumRsp(p, f).config
  {
    hide TxCtrl, HeedXid, X.Offer;
    if f.unnum.XID? {
      HeedOnly(p, f.unnum.fi, f.unnum.groups);
      var q := HeedXid(p, f.unnum.fi, f.unnum.groups);
      TxCtrlOnly(q, U(q.rspAddr, XID(X.FI_GENERAL, X.Offer(SizesOf(q), q.terms.comp)), false));
    } else {
      TxCtrlOnly(Reset(p).(state := DATA), U(p.rspAddr, UA, f.pf));
      TxCtrlOnly(p, U(p.rspAddr, DM, false));
      TxCtrlOnly(Reset(p.(state := IDLE)), U(p.rspAddr, UA, f.pf));
    }
  }

  lemma HearTimed(p: Peer, f: Frame, k: nat, chars: Str)
    requires Watched(p) && (f.I? ==> k <= |f.info|)
    ensures PeerInv(p) && Timed(Receive(p, f, k, chars)) && !Receive(p, f, k, chars).config
  {
    hide RingOk, PeerInv, RxInfo, RxSuperCmd, RxSuperRsp, RxUnnumCmd, RxUnnumRsp, Calm;
    PeerOf(p);
    if f.U? {
      UnnumTimed(p, f);
    } else {
      var p1 := ValidDataState(p);
      ValidCalm(p, f, k, chars);
      CalmOk(Anchor(p, Hear(f, k, chars)), p1);
      if p1.state == DATA {
        if f.I? {
          InfoTimed(p1, f, k, chars);
        } else {
          SuperCmdTimed(p1, f, chars);
          SuperRspTimed(p1, f);
        }
      }
    }
  }

  lemma DrawTimed(p: Peer, chars: Str)
    requires PeerInv(p) && Timed(p)
    ensures Timed(GetTxFrame(p, chars).0) && GetTxFrame(p, chars).0.config == p.config
  {
    hide PeerInv, TxInfo;
    TxInfoOnly(p, chars);
  }

  lemma TickTimed(p: Peer, n: nat)
    requires PeerInv(p) && Timed(p)
    ensures Timed(Elapse(p, n)) && Elapse(p, n).config == p.config
  {
    hide TxCtrl, X.Offer;
    var q := p.(timer := 0);
    var p0, p1 := q.(rtx := 0), q.(rtx := p.rtx + 1);
    TxCtrlOnly(p0.(state := DISC), U(p.cmdAddr, DISCONNECT, true));
    TxCtrlOnly(p1, U(p.cmdAddr, SABME, true));
    TxCtrlOnly(p1, U(p.cmdAddr, DISCONNECT, true));
    TxCtrlOnly(p1, U(p.cmdAddr, XID(X.FI_GENERAL, X.Offer(SizesOf(p), p.terms.comp)), false));
    TxCtrlOnly(p1, S(p.cmdAddr, if p.busy then RNR else RR, p.vr, true));
  }

  lemma PushTimed(p: Peer, k: nat)
    requires PeerInv(p) && Timed(p) && k <= |p.rest|
    ensures Timed(PushRest(p, k)) && PushRest(p, k).config == p.config
  {
    hide TxCtrl;
    TxCtrlOnly(p.(rest := p.rest[k..], busy := false), S(p.cmdAddr, RR, p.vr, false));
  }

  lemma LeaveTimed(p: Peer)
    requires PeerInv(p) && Timed(p)
    ensures Timed(Disconnect(p)) && Timed(Connect(p)) && Disconnect(p).config == Connect(p).config == p.config
  {
    hide TxCtrl;
    TxCtrlOnly(p.(state := DISC), U(p.cmdAddr, DISCONNECT, true));
    TxCtrlOnly(Reset(p).(state := ESTAB), U(p.cmdAddr, SABME, true));
  }

  /** Every event keeps the watch, but for the local user's negotiation. */
  lemma NextWatched(p: Peer, e: Event)
    requires Watched(p) && !e.Negotiate?
    ensures PeerInv(p) && Watched(Next(p, e))
  {
    hide RingOk, Timed, PeerInv, GetTxFrame, Receive, Elapse, PushRest, Connect, Disconnect, Configure;
    PeerOf(p);
    F.NextRing(p, e);
    match e
    case Draw(chars) => DrawTimed(p, chars);
    case Hear(f, k, chars) =>
      if !f.I? || k <= |f.info| {
        HearTimed(p, f, k, chars);
      }
    case Tick(n) => TickTimed(p, n);
    case Push(k) =>
      if k <= |p.rest| {
        PushTimed(p, k);
      }
    case Dial => LeaveTimed(p);
    case Hangup => LeaveTimed(p);
  }

  // ----- at both ends of a link -----

  lemma LocalWatched(e: End, v: S.Event)
    requires S.EndOk(e) && Watched(e.p)
    ensures Watched(S.Local(e, v).p)
  {
    hide Watched, PeerInv, GetTxFrame, Elapse, PushRest, Disconnect;
    match v
    case Grant(chars) => NextWatched(e.p, Draw(chars));
    case Bits(n) => NextWatched(e.p, Tick(n));
    case Push(k) => NextWatched(e.p, Push(k));
    case Hangup => NextWatched(e.p, Hangup);
    case Complete =>
    case Lose(_) =>
    case Arrive(_, _) =>
  }

  lemma ArrivedWatched(e: End, f: Frame, k: nat, chars: Str)
    requires S.EndOk(e) && Watched(e.p) && (f.I? ==> k <= |f.info|)
    ensures Watched(S.Arrived(e, f, k, chars).p)
  {
    hide Watched, PeerInv, Receive;
    NextWatched(e.p, Hear(f, k, chars));
  }

  lemma StepFirstWatched(s: S.Link, v: S.Event)
    requires S.EndOk(s.a) && S.EndOk(s.b) && Watched(s.a.p) && Watched(s.b.p)
    ensures Watched(S.StepFirst(s, v).a.p) && Watched(S.StepFirst(s, v).b.p)
  {
    hide Watched, S.Local, S.Arrived, S.EndOk;
    if !v.Arrive? {
      LocalWatched(s.a, v);
    } else if s.b.line != [] && (s.b.line[0].I? ==> v.k <= |s.b.line[0].info|) {
      ArrivedWatched(s.a, s.b.line[0], v.k, v.chars);
    }
  }

  /**
   After any history of two ends that start afresh, both have T401 running unless nothing of
   theirs is outstanding.
   */
  lemma {:induction false} AlwaysWatched(s: S.Link, events: seq<(bool, S.Event)>)
    requires S.EndOk(s.a) && S.EndOk(s.b) && Watched(s.a.p) && Watched(s.b.p)
    ensures var r := S.Run(s, events); Watched(r.a.p) && Watched(r.b.p)
    decreases events
  {
    hide Watched, S.StepFirst, S.EndOk;
    if events != [] {
      StepFirstWatched(s, events[0].1);
      StepFirstWatched(S.Swap(s), events[0].1);
      AlwaysWatched(S.Step(s, events[0].0, events[0].1), events[1..]);
    }
  }

  lemma FreshWatched(e: End)
    requires S.Fresh(e)
    ensures S.EndOk(e) && Watched(e.p)
  {}

  lemma TimerRuns(s: S.Link, events: seq<(bool, S.Event)>)
    requires S.Fresh(s.a) && S.Fresh(s.b)
    ensures S.EndOk(s.a) && S.EndOk(s.b)
    ensures var r := S.Run(s, events);
            && (r.a.p.state == DATA && Outstanding(r.a.p) > 0 ==> r.a.p.timer > 0)
            && (r.b.p.state == DATA && Outstanding(r.b.p) > 0 ==> r.b.p.timer > 0)
  {
    hide S.Run, S.Fresh;
    FreshWatched(s.a);
    FreshWatched(s.b);
    AlwaysWatched(s, events);
  }
}
