/**
 When a peer asks its source for characters: the handlers do so at most once, and whether they do
 depends on nothing that the source says.
 */
module LapmSource {
  import opened Words
  import opened Lapm
  import opened LapmLink
  import S = LapmSafety
  import X = Xid

  const ONE: Str := [0]

  lemma TxInfoAsks(p: Peer, x: Str, y: Str)
    requires PeerInv(p) && x != [] && y != []
    ensures TxInfo(p, x).1 == TxInfo(p, y).1 && TxInfo(p, x).0.infoList == TxInfo(p, y).0.infoList
    ensures !TxInfo(p, x).1 ==> TxInfo(p, x).0 == TxInfo(p, y).0 == p
    ensures TxInfo(p, []).0 == p
  {}

  lemma GrantAsks(p: Peer, x: Str, y: Str)
    requires PeerInv(p) && x != [] && y != []
    ensures GetTxFrame(p, x).0.infoList == GetTxFrame(p, y).0.infoList
    ensures GetTxFrame(p, []).0.infoList == p.infoList
  {
    hide PeerInv, TxInfo;
    TxInfoAsks(p, x, y);
  }

  lemma ReplyAsks(p: Peer, f: Frame, x: Str, y: Str)
    requires PeerInv(p) && f.S? && x != [] && y != []
    ensures Reply(p, f, x).infoList == Reply(p, f, y).infoList && Reply(p, f, []).infoList == p.infoList
  {
    hide PeerInv, TxInfo, TxCtrl;
    TxInfoAsks(p, x, y);
    TxCtrlOnly(p, S(f.addr, if p.busy then RNR else RR, p.vr, false));
    TxCtrlOnly(p, S(f.addr, if p.busy then RNR else RR, p.vr, true));
  }

  lemma AckLeavesRing(p: Peer, nr: nat)
    requires PeerInv(p)
    ensures AckInfo(p, nr).infoList == p.infoList
  {
    hide TxCtrl, Release;
    ReleaseOnly(p, nr);
    TxCtrlOnly(p.(state := DISC), U(p.cmdAddr, DISCONNECT, true));
  }

  lemma SuperAsks(p: Peer, f: Frame, x: Str, y: Str)
    requires PeerInv(p) && f.S? && x != [] && y != []
    ensures RxSuperCmd(p, f, x).infoList == RxSuperCmd(p, f, y).infoList
    ensures RxSuperCmd(p, f, []).infoList == p.infoList
  {
    hide TxCtrl, AckInfo, Reply;
    var p0 := p.(peerBusy := f.super == RNR);
    AckLeavesRing(p0, f.nr);
    var p1 := AckInfo(p0, f.nr);
    var p2 := if p1.rtx == 0 then RejectInfo(Stop(p1)) else p1;
    ReplyAsks(p1, f, x, y);
    ReplyAsks(p2, f, x, y);
    TxCtrlOnly(p1, S(p1.rspAddr, if p1.busy then RNR else RR, p1.vr, true));
  }

  lemma InfoAsks(p: Peer, f: Frame, k: nat, x: Str, y: Str)
    requires PeerInv(p) && f.I? && k <= |f.info| && x != [] && y != []
    ensures RxInfo(p, f, k, x).infoList == RxInfo(p, f, k, y).infoList
    ensures RxInfo(p, f, k, []).infoList == p.infoList
  {
    hide TxCtrl, AckInfo, TxInfo;
    AckLeavesRing(p, f.nr);
    var q := AckInfo(p, f.nr);
    var q1 := q.(reject := false, vr := (q.vr + 1) % 128);
    TxInfoAsks(q1, x, y);
    TxCtrlOnly(q, S(q.rspAddr, RNR, q.vr, true));
    TxCtrlOnly(q, S(q.rspAddr, REJ, q.vr, f.pf));
    TxCtrlOnly(q1.(rest := f.info[k..], busy := true), S(f.addr, RNR, q1.vr, f.pf));
    TxCtrlOnly(q1, S(f.addr, RR, q1.vr, f.pf));
  }

  lemma ReceiveAsks(p: Peer, f: Frame, k: nat, x: Str, y: Str)
    requires PeerInv(p) && (f.I? ==> k <= |f.info|) && x != [] && y != []
    ensures Receive(p, f, k, x).infoList == Receive(p, f, k, y).infoList
    ensures Receive(p, f, k, []).infoList == p.infoList
  {
    hide PeerInv, RxInfo, RxSuperCmd, RxSuperRsp, RxUnnumCmd, RxUnnumRsp;
    var q := ValidDataState(p);
    if f.U? {
      UnnumLeavesRing(p, f);
    } else if f.I? {
      InfoAsks(q, f, k, x, y);
    } else {
      SuperAsks(q, f, x, y);
      RspLeavesRing(q, f);
    }
  }

  lemma RspLeavesRing(p: Peer, f: Frame)
    requires PeerInv(p) && f.S?
    ensures RxSuperRsp(p, f).infoList == p.infoList
  {
    hide AckInfo;
    AckLeavesRing(p.(peerBusy := f.super == RNR), f.nr);
  }

  lemma ConfiguredLeavesRing(p: Peer, fi: byte, groups: Str)
    requires PeerInv(p)
    ensures Configured(p, fi, groups).infoList == p.infoList
  {
    hide HeedXid, X.Offer;
    HeedOnly(p, fi, groups);
  }

  lemma UnnumLeavesRing(p: Peer, f: Frame)
    requires PeerInv(p) && f.U?
    ensures RxUnnumCmd(p, f).infoList == p.infoList && RxUnnumRsp(p, f).infoList == p.infoList
  {
    hide HeedXid, Configured, X.Offer, PeerInv;
    if f.unnum.XID? {
      HeedOnly(p, f.unnum.fi, f.unnum.groups);
      ConfiguredLeavesRing(p, f.unnum.fi, f.unnum.groups);
    }
  }

  // ----- at one end of the link -----

  /** The event with `chars` as what the source gives. */
  function Offered(v: S.Event, chars: Str): S.Event
  {
    match v
    case Grant(_) => S.Grant(chars)
    case Arrive(k, _) => S.Arrive(k, chars)
    case Complete => v
    case Lose(_) => v
    case Bits(_) => v
    case Push(_) => v
    case Hangup => v
  }

  /** The event makes the first end ask its source: one character, if there were one, would be taken. */
  predicate Asks(s: S.Link, v: S.Event)
    requires S.EndOk(s.a) && S.EndOk(s.b)
  {
    S.StepFirst(s, Offered(v, ONE)).a.p.infoList != s.a.p.infoList
  }

  /** What an end takes is what its source gives when it is asked. */
  lemma TakesWhatIsGiven(s: S.Link, v: S.Event, chars: Str)
    requires S.EndOk(s.a) && S.EndOk(s.b) && (chars != [] ==> Asks(s, v))
    ensures S.StepFirst(s, Offered(v, chars)).a.taken == s.a.taken + chars
  {
    hide PeerInv, GetTxFrame, Receive, Elapse, PushRest, Disconnect;
    assert s.a.taken + [] == s.a.taken;
    var p := s.a.p;
    assert PeerInv(p) by { OfEnd(s.a); }
    match v
    case Grant(_) =>
      if chars != [] {
        GrantAsks(p, ONE, chars);
      }
    case Arrive(k, _) =>
      if s.b.line != [] && (s.b.line[0].I? ==> k <= |s.b.line[0].info|) && chars != [] {
        ReceiveAsks(p, s.b.line[0], k, ONE, chars);
      }
    case Complete =>
    case Lose(_) =>
    case Bits(n) => NeverAsks(s, v);
    case Push(k) => NeverAsks(s, v);
    case Hangup => NeverAsks(s, v);
  }

  lemma OfEnd(e: End)
    requires S.EndOk(e)
    ensures PeerInv(e.p)
  {}

  lemma NeverAsks(s: S.Link, v: S.Event)
    requires S.EndOk(s.a) && S.EndOk(s.b) && (v.Bits? || v.Push? || v.Hangup?)
    ensures !Asks(s, v)
  {
    hide X.Offer;
    match v
    case Bits(n) => TimeoutLeavesRing(s.a.p.(timer := 0));
    case Push(k) =>
    case Hangup =>
  }

  lemma TimeoutLeavesRing(p: Peer)
    requires PeerInv(p)
    ensures Timeout(p).infoList == p.infoList
  {
    hide X.Offer;
  }
}
