/** What each event at one LAPM peer does to the unbounded sequence numbers. */
module LapmEvents {
  import opened Words
  import opened Lapm
  import opened LapmLink

  /**
   The numbers after an event: V(A) has moved at most to `limit`, at most one control frame has
   been queued, and `chars` has become a data frame exactly when a slot was filled.
   */
  ghost predicate Progress(p: Peer, g: Ghost, p1: Peer, g1: Ghost, chars: Str, limit: nat)
  {
    && g1.base == g.base && g1.ms == g.ms && g1.fly == g.fly && g1.marks == g.marks
    && g.va <= g1.va <= limit
    && g1.frames == (if p1.infoList != p.infoList then g.frames + [chars] else g.frames)
    && Queued(g.cq, g1.cq, g1.vr)
  }

  lemma TxStatusKeeps(p: Peer, h: Grant, g: Ghost, addr: nat, pf: bool) returns (g1: Ghost)
    requires PInv(p, h, g) && p.state == DATA
    ensures var r := TxStatus(p, addr, pf);
            PInv(r, h, g1) && g1 == g.(cq := g1.cq) && Queued(g.cq, g1.cq, g.vr)
            && r == p.(ctrl := r.ctrl, ctrlList := r.ctrlList)
  {
    hide RingInv, CtrlInv, FlyInv, TxCtrl;
    g1 := TxCtrlKeeps(p, h, g, S(addr, if p.busy then RNR else RR, p.vr, pf));
  }

  lemma ReplyKeeps(p: Peer, h: Grant, g: Ghost, f: Frame, chars: Str) returns (g1: Ghost)
    requires PInv(p, h, g) && p.state == DATA && f.S?
    ensures var r := Reply(p, f, chars);
            PInv(r, h, g1) && Progress(p, g, r, g1, chars, g.va) && g1.vr == g.vr
            && r.rest == p.rest && r.state == DATA
  {
    hide PInv, TxStatus, TxInfo, PeerInv;
    if f.pf {
      g1 := TxStatusKeeps(p, h, g, f.addr, true);
    } else {
      PInvPeer(p, h, g);
      var g2 := TxInfoKeeps(p, h, g, chars);
      var (p1, ready) := TxInfo(p, chars);
      if ready {
        g1 := g2;
      } else {
        g1 := TxStatusKeeps(p1, h, g2, f.addr, false);
      }
    }
  }

  lemma SuperCmdKeeps(p: Peer, h: Grant, g: Ghost, f: Frame, nr: nat, chars: Str) returns (g1: Ghost)
    requires PInv(p, h, g) && p.state == DATA && f.S? && f.nr == nr % 128 && g.va <= nr <= g.ms
    ensures var r := RxSuperCmd(p, f, chars);
            PInv(r, h, g1) && Progress(p, g, r, g1, chars, nr) && g1.vr == g.vr
            && r.rest == p.rest && r.state == DATA
  {
    hide PInv, TxStatus, Reply, AckInfo, PeerInv;
    PInvPeer(p, h, g);
    var p0 := p.(peerBusy := f.super == RNR);
    FlagsKeep(p, h, g, f.super == RNR, p.reject, p.rtx, p.timer);
    var g2 := AckKeeps(p0, h, g, nr);
    PInvPeer(p0, h, g);
    var p1 := AckInfo(p0, f.nr);
    match f.super
    case RR => g1 := ReplyKeeps(p1, h, g2, f, chars);
    case RNR =>
      if f.pf {
        g1 := TxStatusKeeps(p1, h, g2, p1.rspAddr, true);
      } else {
        g1 := g2;
      }
    case REJ =>
      if p1.rtx == 0 {
        FlagsKeep(p1, h, g2, p1.peerBusy, p1.reject, 0, 0);
        PInvPeer(Stop(p1), h, g2);
        RejectKeeps(Stop(p1), h, g2);
        g1 := ReplyKeeps(RejectInfo(Stop(p1)), h, g2.(vs := g2.va), f, chars);
      } else {
        g1 := ReplyKeeps(p1, h, g2, f, chars);
      }
    case SREJ => g1 := g;
  }

  lemma PInvPeer(p: Peer, h: Grant, g: Ghost)
    requires PInv(p, h, g)
    ensures PeerInv(p) && !p.config
  {}

  lemma BackKeeps(p: Peer, h: Grant, g: Ghost)
    requires PInv(p, h, g) && p.state == DATA
    ensures PInv(Stop(RejectInfo(p)), h, g.(vs := g.va))
    ensures PInv(Start(p), h, g) && PInv(Start(Stop(RejectInfo(p))), h, g.(vs := g.va))
  {
    hide RingInv, CtrlInv, FlyInv;
    RejectKeeps(p, h, g);
    var r := RejectInfo(p);
    FlagsKeep(r, h, g.(vs := g.va), r.peerBusy, r.reject, 0, 0);
    FlagsKeep(r, h, g.(vs := g.va), r.peerBusy, r.reject, 0, T401);
    FlagsKeep(p, h, g, p.peerBusy, p.reject, 0, T401);
  }

  lemma SuperRspKeeps(p: Peer, h: Grant, g: Ghost, f: Frame, nr: nat) returns (g1: Ghost)
    requires PInv(p, h, g) && p.state == DATA && f.S? && f.nr == nr % 128 && g.va <= nr <= g.ms
    ensures var r := RxSuperRsp(p, f);
            PInv(r, h, g1) && Progress(p, g, r, g1, [], nr) && g1.vr == g.vr && g1.frames == g.frames
            && r.rest == p.rest && r.state == DATA && r.infoList == p.infoList
  {
    hide PInv, AckInfo, PeerInv;
    PInvPeer(p, h, g);
    if (p.rtx == 0 && f.pf) || f.super == SREJ {
      g1 := g;
    } else {
      FlagsKeep(p, h, g, f.super == RNR, p.reject, p.rtx, p.timer);
      var p0 := p.(peerBusy := f.super == RNR);
      var g2 := AckKeeps(p0, h, g, nr);
      PInvPeer(p0, h, g);
      var p1 := AckInfo(p0, f.nr);
      BackKeeps(p1, h, g2);
      if (f.super == REJ && (p1.rtx == 0 || f.pf)) || (f.super != REJ && p1.rtx != 0 && f.pf) {
        g1 := g2.(vs := g2.va);
      } else {
        g1 := g2;
      }
    }
  }

  /** The frame in sequence is accepted: the receive count moves, and what is left over is kept. */
  lemma AcceptKeeps(p: Peer, h: Grant, g: Ghost, left: Str)
    requires PInv(p, h, g) && p.state == DATA && !p.busy
    ensures PInv(p.(reject := false, vr := (p.vr + 1) % 128, rest := left, busy := left != []), h, g.(vr := g.vr + 1))
  {
    hide ISlot, CSlot, OkInfo, OkCtrl;
    Mod128Next(g.vr);
  }

  lemma SuperOk(p: Peer, h: Grant, g: Ghost, addr: nat, super: Super, pf: bool)
    requires PInv(p, h, g) && p.state == DATA
    ensures OkCtrl(S(addr, super, p.vr, pf), g.vr)
  {}

  /** An information frame whose number in sequence is `nr`. */
  lemma InfoKeeps(p: Peer, h: Grant, g: Ghost, f: Frame, nr: nat, k: nat, chars: Str) returns (g1: Ghost)
    requires PInv(p, h, g) && p.state == DATA && f.I? && f.nr == nr % 128 && g.va <= nr <= g.ms && k <= |f.info|
    ensures var r := RxInfo(p, f, k, chars);
            && PInv(r, h, g1) && Progress(p, g, r, g1, chars, nr) && r.state == DATA
            && g1.vr == (if Accepts(p, f) then g.vr + 1 else g.vr)
            && r.rest == (if Accepts(p, f) then f.info[k..] else p.rest)
  {
    hide PInv, AckInfo, PeerInv, TxCtrl, TxInfo;
    PInvPeer(p, h, g);
    var g2 := AckKeeps(p, h, g, nr);
    var p1 := AckInfo(p, f.nr);
    if p1.busy {
      SuperOk(p1, h, g2, p1.rspAddr, RNR, true);
      if f.pf {
        g1 := TxCtrlKeeps(p1, h, g2, S(p1.rspAddr, RNR, p1.vr, true));
      } else {
        g1 := g2;
      }
    } else if f.ns != p1.vr {
      if p1.reject {
        g1 := g2;
      } else {
        SuperOk(p1, h, g2, p1.rspAddr, REJ, f.pf);
        g1 := TxCtrlKeeps(p1, h, g2, S(p1.rspAddr, REJ, p1.vr, f.pf));
        var r := TxCtrl(p1, S(p1.rspAddr, REJ, p1.vr, f.pf));
        FlagsKeep(r, h, g1, r.peerBusy, true, r.rtx, r.timer);
      }
    } else {
      AcceptKeeps(p1, h, g2, f.info[k..]);
      RestOf(p1, h, g2);
      g1 := AcceptedKeeps(p1, h, g2, f, k, chars);
    }
  }

  lemma RestOf(p: Peer, h: Grant, g: Ghost)
    requires PInv(p, h, g) && p.state == DATA
    ensures p.busy <==> p.rest != []
  {}

  /** The reply to an accepted frame. */
  lemma AcceptedKeeps(p: Peer, h: Grant, g: Ghost, f: Frame, k: nat, chars: Str) returns (g1: Ghost)
    requires PInv(p, h, g) && p.state == DATA && !p.busy && p.rest == [] && f.I? && k <= |f.info|
    requires PInv(p.(reject := false, vr := (p.vr + 1) % 128, rest := f.info[k..], busy := f.info[k..] != []), h,
             g.(vr := g.vr + 1))
    ensures var p1 := p.(reject := false, vr := (p.vr + 1) % 128);
            var r := if k != |f.info| then TxSuper(p1.(rest := f.info[k..], busy := true), f.addr, RNR, f.pf)
                     else if p1.peerBusy || f.pf then TxSuper(p1, f.addr, RR, f.pf)
                     else if TxInfo(p1, chars).1 then TxInfo(p1, chars).0
                     else TxSuper(TxInfo(p1, chars).0, f.addr, RR, f.pf);
            && PInv(r, h, g1) && Progress(p, g, r, g1, chars, g.va) && r.state == DATA
            && g1.vr == g.vr + 1 && r.rest == f.info[k..]
  {
    hide PInv, TxCtrl, TxInfo;
    var g2 := g.(vr := g.vr + 1);
    var p1 := p.(reject := false, vr := (p.vr + 1) % 128, rest := f.info[k..], busy := f.info[k..] != []);
    if k != |f.info| {
      SuperOk(p1, h, g2, f.addr, RNR, f.pf);
      g1 := TxCtrlKeeps(p1, h, g2, S(f.addr, RNR, p1.vr, f.pf));
    } else {
      assert p1 == p.(reject := false, vr := (p.vr + 1) % 128);
      if p1.peerBusy || f.pf {
        SuperOk(p1, h, g2, f.addr, RR, f.pf);
        g1 := TxCtrlKeeps(p1, h, g2, S(f.addr, RR, p1.vr, f.pf));
      } else {
        PInvPeer(p1, h, g2);
        var g3 := TxInfoKeeps(p1, h, g2, chars);
        var (p2, ready) := TxInfo(p1, chars);
        if ready {
          g1 := g3;
        } else {
          SuperOk(p2, h, g3, f.addr, RR, f.pf);
          g1 := TxCtrlKeeps(p2, h, g3, S(f.addr, RR, p2.vr, f.pf));
        }
      }
    }
  }

  // ----- leaving the data state -----

  lemma ResetKeeps(p: Peer, h: Grant, g: Ghost)
    requires PInv(p, h, g)
    ensures PInv(Reset(p.(state := IDLE)), h, g) && PInv(Stop(Reset(p.(state := IDLE))), h, g)
    ensures PInv(Reset(p).(state := IDLE), h, g)
    ensures PInv(p.(state := DISC), h, g) && PInv(p.(state := IDLE), h, g)
  {
    hide ISlot, CSlot, OkInfo, OkCtrl, RingInv;
  }

  lemma DisconnectKeeps(p: Peer, h: Grant, g: Ghost) returns (g1: Ghost)
    requires PInv(p, h, g)
    ensures var r := Disconnect(p);
            PInv(r, h, g1) && g1 == g.(cq := g1.cq) && Queued(g.cq, g1.cq, g.vr)
            && r.rest == p.rest && r.state == DISC && r.infoList == p.infoList
  {
    hide PInv, TxCtrl, PeerInv;
    PInvPeer(p, h, g);
    ResetKeeps(p, h, g);
    PInvPeer(p.(state := DISC), h, g);
    var f := U(p.cmdAddr, DISCONNECT, true);
    g1 := TxCtrlKeeps(p.(state := DISC), h, g, f);
    var r := TxCtrl(p.(state := DISC), f);
    FlagsKeep(r, h, g1, r.peerBusy, r.reject, 0, T401);
  }

  /** Unnumbered frames other than SABME can only end the link. */
  lemma UnnumKeeps(p: Peer, h: Grant, g: Ghost, f: Frame) returns (g1: Ghost)
    requires PInv(p, h, g) && f.U? && f.unnum != SABME && !f.unnum.XID?
    ensures var r := if f.addr == p.rspAddr then RxUnnumCmd(p, f) else RxUnnumRsp(p, f);
            PInv(r, h, g1) && g1 == g.(cq := g1.cq) && Queued(g.cq, g1.cq, g.vr)
            && r.rest == p.rest && r.infoList == p.infoList && (r.state == DATA ==> p.state == DATA)
  {
    hide PInv, TxCtrl, PeerInv;
    PInvPeer(p, h, g);
    NotEstablishing(p, h, g);
    ResetKeeps(p, h, g);
    g1 := g;
    if f.addr == p.rspAddr && f.unnum == DISCONNECT {
      if p.state == IDLE {
        g1 := TxCtrlKeeps(p, h, g, U(p.rspAddr, DM, false));
      } else {
        PInvPeer(p.(state := IDLE), h, g);
        var p1 := Reset(p.(state := IDLE));
        PInvPeer(p1, h, g);
        var u := U(p.rspAddr, UA, f.pf);
        g1 := TxCtrlKeeps(p1, h, g, u);
        var r := TxCtrl(p1, u);
        FlagsKeep(r, h, g1, r.peerBusy, r.reject, 0, 0);
      }
    }
  }

  lemma NotEstablishing(p: Peer, h: Grant, g: Ghost)
    requires PInv(p, h, g)
    ensures p.state != ESTAB
  {}

  // ----- any frame from the line -----

  /** What the receiver may rely on about a frame marked `k`. */
  ghost predicate Marked(f: Frame, k: Mark, frames: seq<Str>)
  {
    if f.I? then OkInfo(f, k, frames) else OkCtrl(f, k.r)
  }

  lemma ReceiveKeeps(p: Peer, h: Grant, g: Ghost, f: Frame, m: Mark, frames: seq<Str>, k: nat, chars: Str)
      returns (g1: Ghost)
    requires PInv(p, h, g) && Marked(f, m, frames) && (f.I? ==> k <= |f.info|)
    requires g.va <= m.r <= g.ms
    ensures var r := Receive(p, f, k, chars);
            && PInv(r, h, g1) && Progress(p, g, r, g1, chars, m.r)
            && g1.vr == (if Accepts(p, f) then g.vr + 1 else g.vr)
            && r.rest == (if Accepts(p, f) then f.info[k..] else p.rest)
            && (r.state == DATA ==> p.state == DATA)
  {
    hide PInv, PeerInv, RxInfo, RxSuperCmd, RxSuperRsp, RxUnnumCmd, RxUnnumRsp;
    PInvPeer(p, h, g);
    NotEstablishing(p, h, g);
    if f.U? {
      g1 := UnnumKeeps(p, h, g, f);
    } else if p.state != DATA {
      ResetKeeps(p, h, g);
      g1 := g;
    } else if f.I? {
      g1 := InfoKeeps(p, h, g, f, m.r, k, chars);
    } else if f.addr == p.rspAddr {
      g1 := SuperCmdKeeps(p, h, g, f, m.r, chars);
    } else {
      g1 := SuperRspKeeps(p, h, g, f, m.r);
    }
  }

  // ----- transmission -----

  /** The mark of the frame that transmission begins with. */
  function Flying(g: Ghost, gr: Grant): Mark
    requires gr.Ctrl? ==> g.cq != []
  {
    match gr
    case Nothing => g.fly
    case Ctrl(_) => Mark(0, g.ms, g.cq[0])
    case Info(_) => Mark(g.vs, if g.ms < g.vs + 1 then g.vs + 1 else g.ms, g.vr)
  }

  lemma SendCtrlQueue(p: Peer, g: Ghost)
    requires PeerInv(p) && CtrlInv(p, g) && p.txCtrl != p.ctrlList
    ensures g.cq != [] && OkCtrl(p.ctrl[p.txCtrl], g.cq[0]) && p.txCtrl == CSlot(NextC(p.txCtrl), 7)
    ensures CtrlInv(p.(txCtrl := NextC(p.txCtrl)), g.(cq := g.cq[1..]))
  {
    hide OkCtrl;
    assert g.cq != [];
    var head := NextC(p.txCtrl);
    assert CSlot(p.txCtrl, 0) == p.txCtrl;
    forall j | 0 <= j < 7
      ensures CSlot(head, j) == CSlot(p.txCtrl, j + 1)
    {
    }
  }

  lemma SendCtrlKeeps(p: Peer, g: Ghost)
    requires PInv(p, Nothing, g) && p.txCtrl != p.ctrlList
    ensures g.cq != []
    ensures PInv(p.(txCtrl := NextC(p.txCtrl)), Ctrl(p.txCtrl), g.(cq := g.cq[1..], fly := Flying(g, Ctrl(p.txCtrl))))
  {
    hide ISlot, CSlot, OkCtrl, OkInfo;
    SendCtrlQueue(p, g);
  }

  /** Sending the next data frame. */
  lemma SendInfoKeeps(p: Peer, g: Ghost)
    requires PInv(p, Nothing, g) && p.state == DATA && g.vs < |g.frames|
    ensures var f := p.info[p.txInfo].(addr := p.cmdAddr, ns := p.vs, nr := p.vr, pf := false);
            var p1 := p.(info := p.info[p.txInfo := f], txInfo := NextI(p.txInfo), vs := (p.vs + 1) % 128);
            var m := Flying(g, Info(p.txInfo));
            PInv(p1, Info(p.txInfo), g.(vs := g.vs + 1, ms := m.m, fly := m))
  {
    hide ISlot, CSlot, OkCtrl, NextI;
    SlotNext(g.base, g.vs);
    Mod128Next(g.vs);
    forall i | g.va <= i < |g.frames| && i != g.vs
      ensures ISlot(g.base, i) != ISlot(g.base, g.vs)
    {
      if i < g.vs { SlotsDistinct(g.base, i, g.vs); } else { SlotsDistinct(g.base, g.vs, i); }
    }
  }

  lemma GrantKeeps(p: Peer, g: Ghost, chars: Str) returns (g1: Ghost)
    requires PInv(p, Nothing, g)
    ensures var (r, gr) := GetTxFrame(p, chars);
            && PInv(r, gr, g1) && (gr.Ctrl? ==> g.cq != []) && g1.fly == Flying(g, gr)
            && g1.base == g.base && g1.va == g.va && g1.vr == g.vr && g1.marks == g.marks
            && g1.ms == (if gr.Info? then g1.fly.m else g.ms)
            && g1.cq == (if gr.Ctrl? then g.cq[1..] else g.cq) && (gr.Info? ==> g.cq == [])
            && g1.frames == (if r.infoList != p.infoList then g.frames + [chars] else g.frames)
            && r.rest == p.rest && r.state == p.state
  {
    hide PInv, PeerInv, TxInfo;
    PInvPeer(p, Nothing, g);
    if p.txCtrl != p.ctrlList {
      SendCtrlKeeps(p, g);
      g1 := g.(cq := g.cq[1..], fly := Flying(g, Ctrl(p.txCtrl)));
    } else if p.peerBusy || p.state != DATA {
      g1 := g;
    } else {
      NothingQueued(p, g);
      var g2 := g;
      var (p1, ready) := if p.txInfo == p.infoList then TxInfo(p, chars) else (p, true);
      if p.txInfo == p.infoList {
        g2 := TxInfoKeeps(p, Nothing, g, chars);
      } else {
        SomethingToSend(p, g);
      }
      if ready {
        PInvPeer(p1, Nothing, g2);
        SendInfoKeeps(p1, g2);
        var m := Flying(g2, Info(p1.txInfo));
        g1 := g2.(vs := g2.vs + 1, ms := m.m, fly := m);
        StartKeeps(p1, g1);
      } else {
        g1 := g2;
      }
    }
  }

  lemma StartKeeps(p1: Peer, g1: Ghost)
    requires PeerInv(p1)
    requires var f := p1.info[p1.txInfo].(addr := p1.cmdAddr, ns := p1.vs, nr := p1.vr, pf := false);
             PInv(p1.(info := p1.info[p1.txInfo := f], txInfo := NextI(p1.txInfo), vs := (p1.vs + 1) % 128),
               Info(p1.txInfo), g1)
    ensures var f := p1.info[p1.txInfo].(addr := p1.cmdAddr, ns := p1.vs, nr := p1.vr, pf := false);
            PInv(Start(p1.(info := p1.info[p1.txInfo := f], txInfo := NextI(p1.txInfo), vs := (p1.vs + 1) % 128)),
              Info(p1.txInfo), g1)
  {
    hide PInv;
    var f := p1.info[p1.txInfo].(addr := p1.cmdAddr, ns := p1.vs, nr := p1.vr, pf := false);
    var p2 := p1.(info := p1.info[p1.txInfo := f], txInfo := NextI(p1.txInfo), vs := (p1.vs + 1) % 128);
    FlagsKeep(p2, Info(p1.txInfo), g1, p2.peerBusy, p2.reject, 0, T401);
  }

  lemma NothingQueued(p: Peer, g: Ghost)
    requires PInv(p, Nothing, g) && p.txCtrl == p.ctrlList
    ensures g.cq == []
  {}

  lemma SomethingToSend(p: Peer, g: Ghost)
    requires PInv(p, Nothing, g) && p.state == DATA && p.txInfo != p.infoList
    ensures g.vs < |g.frames|
  {}

  // ----- time and busy recovery -----

  lemma TimeoutKeeps(p: Peer, h: Grant, g: Ghost) returns (g1: Ghost)
    requires PInv(p, h, g)
    ensures var r := Timeout(p);
            PInv(r, h, g1) && g1 == g.(cq := g1.cq) && Queued(g.cq, g1.cq, g.vr)
            && r.rest == p.rest && r.infoList == p.infoList
  {
    hide PInv, PeerInv, TxCtrl, Disconnect, TxStatus;
    PInvPeer(p, h, g);
    NotEstablishing(p, h, g);
    if p.rtx > MAX_RTX {
      var p1 := p.(rtx := 0);
      FlagsKeep(p, h, g, p.peerBusy, p.reject, 0, p.timer);
      PInvPeer(p1, h, g);
      if p.state == DATA {
        g1 := DisconnectKeeps(p1, h, g);
      } else {
        ResetKeeps(p1, h, g);
        g1 := g;
      }
    } else {
      var p1 := p.(rtx := p.rtx + 1);
      FlagsKeep(p, h, g, p.peerBusy, p.reject, p.rtx + 1, p.timer);
      PInvPeer(p1, h, g);
      g1 := g;
      var p2 := p1;
      if p.state == DISC {
        g1 := TxCtrlKeeps(p1, h, g, U(p.cmdAddr, DISCONNECT, true));
        p2 := TxCtrl(p1, U(p.cmdAddr, DISCONNECT, true));
      } else if p.state == DATA {
        g1 := TxStatusKeeps(p1, h, g, p.cmdAddr, true);
        p2 := TxStatus(p1, p.cmdAddr, true);
      }
      FlagsKeep(p2, h, g1, p2.peerBusy, p2.reject, p2.rtx, T401);
    }
  }

  lemma ElapseKeeps(p: Peer, h: Grant, g: Ghost, n: nat) returns (g1: Ghost)
    requires PInv(p, h, g)
    ensures var r := Elapse(p, n);
            PInv(r, h, g1) && g1 == g.(cq := g1.cq) && Queued(g.cq, g1.cq, g.vr)
            && r.rest == p.rest && r.infoList == p.infoList
  {
    hide PInv, PeerInv, Timeout;
    PInvPeer(p, h, g);
    g1 := g;
    if p.timer != 0 {
      FlagsKeep(p, h, g, p.peerBusy, p.reject, p.rtx, 0);
      if p.timer <= n {
        PInvPeer(p.(timer := 0), h, g);
        g1 := TimeoutKeeps(p.(timer := 0), h, g);
      } else {
        FlagsKeep(p, h, g, p.peerBusy, p.reject, p.rtx, p.timer - n);
      }
    }
  }

  lemma RestKeeps(p: Peer, h: Grant, g: Ghost, left: Str)
    requires PInv(p, h, g)
    ensures PInv(p.(rest := left, busy := left != []), h, g)
  {
    hide ISlot, CSlot, OkInfo, OkCtrl;
  }

  lemma PushKeeps(p: Peer, h: Grant, g: Ghost, k: nat) returns (g1: Ghost)
    requires PInv(p, h, g) && k <= |p.rest|
    ensures var r := PushRest(p, k);
            PInv(r, h, g1) && g1 == g.(cq := g1.cq) && Queued(g.cq, g1.cq, g.vr)
            && r.rest == (if p.state == DATA then p.rest[k..] else p.rest) && r.infoList == p.infoList
            && r.state == p.state
  {
    hide PInv, PeerInv, TxCtrl;
    PInvPeer(p, h, g);
    g1 := g;
    if p.state == DATA && k > 0 {
      RestOf(p, h, g);
      RestKeeps(p, h, g, p.rest[k..]);
      var p1 := p.(rest := p.rest[k..], busy := p.rest[k..] != []);
      PInvPeer(p1, h, g);
      if p1.rest == [] {
        SuperOk(p1, h, g, p.cmdAddr, RR, false);
        g1 := TxCtrlKeeps(p1, h, g, S(p.cmdAddr, RR, p1.vr, false));
      }
    }
  }
}
