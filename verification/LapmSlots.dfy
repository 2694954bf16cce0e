/** Whatever happens, every slot of a peer's rings holds a frame that has octets, and few enough of them. */
module LapmSlots {
  import opened Words
  import opened Lapm
  import opened LapmRing
  import opened LapmWire
  import X = Xid

  /** The most characters that a slot has room for. */
  const MOST := 128

  predicate Wired(f: Frame)
  {
    Sendable(f) && |Octets(f)| <= MOST + 3
  }

  predicate SlotsFit(p: Peer)
  {
    && PeerInv(p) && p.cmdAddr < 256 && p.rspAddr < 256
    && (forall i :: 0 <= i < |p.info| ==> Wired(p.info[i])) && (forall i :: 0 <= i < |p.ctrl| ==> Wired(p.ctrl[i]))
  }

  /** The source gives no more than there is room for, and frames that arrive have one octet of address. */
  predicate Modest(e: Event)
  {
    match e
    case Draw(chars) => |chars| <= MOST
    case Hear(f, _, chars) => f.addr < 256 && |chars| <= MOST
    case Tick(_) => true
    case Push(_) => true
    case Negotiate => true
    case Dial => true
    case Hangup => true
  }

  // ----- one step at a time -----

  lemma Same(p: Peer, r: Peer)
    requires SlotsFit(p) && PeerInv(r) && r.cmdAddr == p.cmdAddr && r.rspAddr == p.rspAddr
    requires r.info == p.info && r.ctrl == p.ctrl
    ensures SlotsFit(r)
  {
    hide Wired;
  }

  lemma PeerOf(p: Peer)
    requires SlotsFit(p)
    ensures PeerInv(p) && p.cmdAddr < 256 && p.rspAddr < 256
  {}

  lemma QueueSlots(p: Peer, f: Frame)
    requires SlotsFit(p) && Wired(f)
    ensures PeerInv(p) && SlotsFit(TxCtrl(p, f))
  {
    hide Wired;
  }

  lemma SuperSlots(p: Peer, addr: nat, super: Super, pf: bool)
    requires SlotsFit(p) && addr < 256
    ensures PeerInv(p) && SlotsFit(TxSuper(p, addr, super, pf))
  {
    hide SlotsFit;
    PeerOf(p);
    QueueSlots(p, S(addr, super, p.vr, pf));
  }

  lemma UnnumSlots(p: Peer, addr: nat, unnum: Unnum, pf: bool)
    requires SlotsFit(p) && addr < 256 && !unnum.XID?
    ensures PeerInv(p) && SlotsFit(TxCtrl(p, U(addr, unnum, pf)))
  {
    hide SlotsFit;
    QueueSlots(p, U(addr, unnum, pf));
  }

  lemma XidSlots(p: Peer, addr: nat)
    requires SlotsFit(p) && addr < 256
    ensures PeerInv(p) && SlotsFit(TxXid(p, addr))
  {
    hide SlotsFit, PeerInv, X.Offer;
    PeerOf(p);
    QueueSlots(p, U(addr, XID(X.FI_GENERAL, X.Offer(SizesOf(p), p.terms.comp)), false));
  }

  lemma FillSlots(p: Peer, chars: Str)
    requires SlotsFit(p) && |chars| <= MOST
    ensures PeerInv(p) && SlotsFit(TxInfo(p, chars).0)
  {
    var f := p.info[p.infoList].(info := chars);
    assert Wired(f);
    hide Wired;
  }

  lemma LeaveSlots(p: Peer)
    requires SlotsFit(p)
    ensures PeerInv(p) && SlotsFit(Disconnect(p)) && SlotsFit(Connect(p)) && SlotsFit(Reset(p))
  {
    hide SlotsFit, TxCtrl;
    PeerOf(p);
    var d, c := p.(state := DISC), Reset(p).(state := ESTAB);
    Same(p, d);
    Same(p, c);
    Same(p, Reset(p));
    UnnumSlots(d, p.cmdAddr, DISCONNECT, true);
    UnnumSlots(c, p.cmdAddr, SABME, true);
    var d1, c1 := TxCtrl(d, U(p.cmdAddr, DISCONNECT, true)), TxCtrl(c, U(p.cmdAddr, SABME, true));
    Same(d1, Start(d1));
    Same(c1, Start(c1));
  }

  lemma AckSlots(p: Peer, nr: nat)
    requires SlotsFit(p)
    ensures PeerInv(p) && SlotsFit(AckInfo(p, nr))
  {
    hide SlotsFit, Release, Disconnect;
    PeerOf(p);
    LeaveSlots(p);
    ReleaseOnly(p, nr);
    var r := Release(p, nr);
    Same(p, r);
    Same(p, Start(r));
    Same(p, Stop(r));
  }

  lemma BackSlots(p: Peer)
    requires SlotsFit(p)
    ensures PeerInv(p) && PeerInv(Stop(p)) && SlotsFit(Stop(RejectInfo(p))) && SlotsFit(Start(Stop(RejectInfo(p))))
    ensures SlotsFit(RejectInfo(Stop(p))) && SlotsFit(Start(p)) && SlotsFit(Stop(p))
  {
    hide Wired;
  }

  lemma ReplySlots(p: Peer, f: Frame, chars: Str)
    requires SlotsFit(p) && f.S? && f.addr < 256 && |chars| <= MOST
    ensures PeerInv(p) && SlotsFit(Reply(p, f, chars))
  {
    hide SlotsFit, TxSuper, TxInfo, PeerInv;
    PeerOf(p);
    FillSlots(p, chars);
    var q := TxInfo(p, chars).0;
    SuperSlots(p, f.addr, if p.busy then RNR else RR, true);
    SuperSlots(q, f.addr, if q.busy then RNR else RR, false);
  }

  lemma SuperCmdSlots(p: Peer, f: Frame, chars: Str)
    requires SlotsFit(p) && f.S? && f.addr < 256 && |chars| <= MOST
    ensures PeerInv(p) && SlotsFit(RxSuperCmd(p, f, chars))
  {
    hide SlotsFit, PeerInv, AckInfo, Reply, TxSuper, RejectInfo;
    PeerOf(p);
    assert PeerInv(p.(peerBusy := f.super == RNR)) by { FlagPeer(p, f.super == RNR); }
    var p0 := p.(peerBusy := f.super == RNR);
    Same(p, p0);
    AckSlots(p0, f.nr);
    var p1 := AckInfo(p0, f.nr);
    PeerOf(p1);
    SuperSlots(p1, p1.rspAddr, if p1.busy then RNR else RR, true);
    BackSlots(p1);
    ReplySlots(p1, f, chars);
    ReplySlots(RejectInfo(Stop(p1)), f, chars);
  }

  lemma FlagPeer(p: Peer, peerBusy: bool)
    requires PeerInv(p)
    ensures PeerInv(p.(peerBusy := peerBusy))
  {}

  lemma SuperRspSlots(p: Peer, f: Frame)
    requires SlotsFit(p) && f.S?
    ensures PeerInv(p) && SlotsFit(RxSuperRsp(p, f))
  {
    hide SlotsFit, PeerInv, AckInfo, RejectInfo;
    PeerOf(p);
    assert PeerInv(p.(peerBusy := f.super == RNR)) by { FlagPeer(p, f.super == RNR); }
    var p0 := p.(peerBusy := f.super == RNR);
    Same(p, p0);
    AckSlots(p0, f.nr);
    BackSlots(AckInfo(p0, f.nr));
  }

  lemma InfoSlots(p: Peer, f: Frame, k: nat, chars: Str)
    requires SlotsFit(p) && f.I? && k <= |f.info| && f.addr < 256 && |chars| <= MOST
    ensures PeerInv(p) && SlotsFit(RxInfo(p, f, k, chars))
  {
    hide SlotsFit, PeerInv, AckInfo, TxCtrl, TxInfo;
    PeerOf(p);
    AckSlots(p, f.nr);
    var q := AckInfo(p, f.nr);
    PeerOf(q);
    SuperSlots(q, q.rspAddr, RNR, true);
    SuperSlots(q, q.rspAddr, REJ, f.pf);
    var q1 := TxSuper(q, q.rspAddr, REJ, f.pf);
    TakenPeer(q1, []);
    Same(q1, q1.(reject := true));
    TakenPeer(q, f.info[k..]);
    var p1 := q.(reject := false, vr := (q.vr + 1) % 128);
    var p2 := p1.(rest := f.info[k..], busy := true);
    Same(q, p1);
    Same(q, p2);
    FillSlots(p1, chars);
    SuperSlots(p1, f.addr, RR, f.pf);
    SuperSlots(p2, f.addr, RNR, f.pf);
    SuperSlots(TxInfo(p1, chars).0, f.addr, RR, f.pf);
  }

  lemma TakenPeer(p: Peer, rest: Str)
    requires PeerInv(p)
    ensures var p1 := p.(reject := false, vr := (p.vr + 1) % 128);
            PeerInv(p1) && PeerInv(p1.(rest := rest, busy := true)) && PeerInv(p.(reject := true))
  {}

  lemma HeedSlots(p: Peer, fi: byte, groups: Str)
    requires SlotsFit(p)
    ensures PeerInv(p) && SlotsFit(HeedXid(p, fi, groups)) && PeerInv(HeedXid(p, fi, groups).(config := false))
    ensures SlotsFit(Configured(p, fi, groups))
  {
    hide SlotsFit, HeedXid, TxCtrl, Connect;
    PeerOf(p);
    HeedOnly(p, fi, groups);
    var h := HeedXid(p, fi, groups);
    Same(p, h);
    var q := Stop(h.(config := false));
    Same(p, q);
    LeaveSlots(q);
    var b := q.(busy := false);
    Same(p, b);
    SuperSlots(b, b.cmdAddr, RR, false);
  }

  lemma UnnumCmdSlots(p: Peer, f: Frame)
    requires SlotsFit(p) && f.U? && f.addr < 256
    ensures PeerInv(p) && SlotsFit(RxUnnumCmd(p, f))
  {
    hide SlotsFit, HeedXid, TxCtrl;
    PeerOf(p);
    var d, i := Reset(p).(state := DATA), Reset(p.(state := IDLE));
    Same(p, d);
    Same(p, i);
    UnnumSlots(d, p.rspAddr, UA, f.pf);
    UnnumSlots(i, p.rspAddr, UA, f.pf);
    UnnumSlots(p, p.rspAddr, DM, false);
    BackSlots(TxCtrl(d, U(p.rspAddr, UA, f.pf)));
    BackSlots(TxCtrl(i, U(p.rspAddr, UA, f.pf)));
    if f.unnum.XID? {
      HeedSlots(p, f.unnum.fi, f.unnum.groups);
      XidSlots(HeedXid(p, f.unnum.fi, f.unnum.groups), p.rspAddr);
    }
  }

  lemma UnnumRspSlots(p: Peer, f: Frame)
    requires SlotsFit(p) && f.U?
    ensures PeerInv(p) && SlotsFit(RxUnnumRsp(p, f))
  {
    hide SlotsFit, Configured;
    PeerOf(p);
    if f.unnum.XID? {
      HeedSlots(p, f.unnum.fi, f.unnum.groups);
    } else {
      Same(p, RxUnnumRsp(p, f));
    }
  }

  lemma ReceiveSlots(p: Peer, f: Frame, k: nat, chars: Str)
    requires SlotsFit(p) && f.addr < 256 && |chars| <= MOST && (f.I? ==> k <= |f.info|)
    ensures PeerInv(p) && SlotsFit(Receive(p, f, k, chars))
  {
    hide SlotsFit, PeerInv, RxInfo, RxSuperCmd, RxSuperRsp, RxUnnumCmd, RxUnnumRsp;
    PeerOf(p);
    if f.U? {
      UnnumCmdSlots(p, f);
      UnnumRspSlots(p, f);
    } else {
      var p1 := ValidDataState(p);
      Same(p, p1);
      if f.I? {
        InfoSlots(p1, f, k, chars);
      } else {
        SuperCmdSlots(p1, f, chars);
        SuperRspSlots(p1, f);
      }
    }
  }

  /** The slot given out holds the frame with its numbers. */
  lemma DrawSlots(p: Peer, chars: Str)
    requires SlotsFit(p) && |chars| <= MOST
    ensures PeerInv(p) && SlotsFit(GetTxFrame(p, chars).0)
  {
    hide SlotsFit, PeerInv, TxInfo;
    PeerOf(p);
    FillSlots(p, chars);
    NextPeer(p);
    Same(p, p.(txCtrl := NextC(p.txCtrl)));
    var p1 := if p.txInfo == p.infoList then TxInfo(p, chars).0 else p;
    TxInfoOnly(p, chars);
    NumberedSlots(p1);
  }

  lemma NextPeer(p: Peer)
    requires PeerInv(p)
    ensures PeerInv(p.(txCtrl := NextC(p.txCtrl)))
  {}

  lemma NumberedSlots(p: Peer)
    requires SlotsFit(p)
    ensures p.txInfo < |p.info| && p.info[p.txInfo].I?
    ensures var f := p.info[p.txInfo].(addr := p.cmdAddr, ns := p.vs, nr := p.vr, pf := false);
            var q := p.(info := p.info[p.txInfo := f], txInfo := NextI(p.txInfo), vs := (p.vs + 1) % 128);
            SlotsFit(q) && SlotsFit(Start(q))
  {
    var f := p.info[p.txInfo].(addr := p.cmdAddr, ns := p.vs, nr := p.vr, pf := false);
    assert Wired(f);
    hide Wired;
  }

  lemma TimeoutSlots(p: Peer)
    requires SlotsFit(p)
    ensures PeerInv(p) && SlotsFit(Timeout(p))
  {
    hide SlotsFit, TxCtrl, Disconnect, X.Offer;
    PeerOf(p);
    var p0, p1 := p.(rtx := 0), p.(rtx := p.rtx + 1);
    Same(p, p0);
    Same(p, p1);
    Same(p, p0.(state := IDLE));
    LeaveSlots(p0);
    XidSlots(p1, p.cmdAddr);
    UnnumSlots(p1, p.cmdAddr, SABME, true);
    UnnumSlots(p1, p.cmdAddr, DISCONNECT, true);
    SuperSlots(p1, p.cmdAddr, if p.busy then RNR else RR, true);
    if p.rtx <= MAX_RTX {
      var q := if p.config then TxXid(p1, p.cmdAddr) else match p.state
        case ESTAB => TxCtrl(p1, U(p.cmdAddr, SABME, true))
        case DISC => TxCtrl(p1, U(p.cmdAddr, DISCONNECT, true))
        case DATA => TxStatus(p1, p.cmdAddr, true)
        case IDLE => p1;
      Same(q, q.(timer := T401));
    }
  }

  lemma TickSlots(p: Peer, n: nat)
    requires SlotsFit(p)
    ensures PeerInv(p) && SlotsFit(Elapse(p, n))
  {
    hide SlotsFit, Timeout;
    PeerOf(p);
    Same(p, p.(timer := 0));
    TimeoutSlots(p.(timer := 0));
    if p.timer > n {
      Same(p, p.(timer := p.timer - n));
    }
  }

  lemma PushSlots(p: Peer, k: nat)
    requires SlotsFit(p) && k <= |p.rest|
    ensures PeerInv(p) && SlotsFit(PushRest(p, k))
  {
    hide SlotsFit, TxCtrl;
    PeerOf(p);
    var p1 := p.(rest := p.rest[k..]);
    Same(p, p1);
    var p2 := p1.(busy := false);
    Same(p, p2);
    SuperSlots(p2, p.cmdAddr, RR, false);
  }

  lemma ConfigureSlots(p: Peer)
    requires SlotsFit(p)
    ensures PeerInv(p) && SlotsFit(Configure(p))
  {
    hide SlotsFit, TxCtrl, X.Offer;
    PeerOf(p);
    var q := p.(config := true);
    Same(p, q);
    var b := q.(busy := true);
    Same(p, b);
    SuperSlots(b, p.cmdAddr, RNR, true);
    var c := TxSuper(b, p.cmdAddr, RNR, true);
    XidSlots(q, p.cmdAddr);
    XidSlots(c, p.cmdAddr);
    BackSlots(TxXid(q, p.cmdAddr));
    BackSlots(TxXid(c, p.cmdAddr));
  }

  /** Every event keeps it, XID and connecting included. */
  lemma NextSlots(p: Peer, e: Event)
    requires SlotsFit(p) && Modest(e)
    ensures PeerInv(p) && SlotsFit(Next(p, e))
  {
    hide SlotsFit, PeerInv, GetTxFrame, Receive, Elapse, PushRest, Connect, Disconnect, Configure;
    PeerOf(p);
    match e
    case Draw(chars) => DrawSlots(p, chars);
    case Hear(f, k, chars) =>
      if !f.I? || k <= |f.info| {
        ReceiveSlots(p, f, k, chars);
      }
    case Tick(n) => TickSlots(p, n);
    case Push(k) =>
      if k <= |p.rest| {
        PushSlots(p, k);
      }
    case Negotiate => ConfigureSlots(p);
    case Dial => LeaveSlots(p);
    case Hangup => LeaveSlots(p);
  }
}
