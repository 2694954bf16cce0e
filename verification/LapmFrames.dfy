/**
 A frame handed to the HDLC transmitter is read bit by bit until it is complete.  This module
 says exactly when its slot stays untouched for that long, under any frames that arrive.
 */
module LapmFrames {
  import opened Words
  import opened Lapm
  import opened LapmRing
  import X = Xid

  // ----- control frames -----

  /** Slot `s`, just before the next to send, is the reserved one: nothing is written there. */
  predicate CtrlKept(p: Peer, r: Peer, s: nat)
  {
    r.txCtrl == p.txCtrl && |r.ctrl| == |p.ctrl| && (s < |p.ctrl| && NextC(s) == p.txCtrl ==> r.ctrl[s] == p.ctrl[s])
  }

  lemma TxCtrlKept(p: Peer, f: Frame, s: nat)
    requires PeerInv(p)
    ensures CtrlKept(p, TxCtrl(p, f), s)
  {}

  lemma DisconnectKept(p: Peer, s: nat)
    requires PeerInv(p)
    ensures CtrlKept(p, Disconnect(p), s)
  {
    hide TxCtrl;
    TxCtrlKept(p.(state := DISC), U(p.cmdAddr, DISCONNECT, true), s);
  }

  lemma AckKept(p: Peer, nr: nat, s: nat)
    requires PeerInv(p)
    ensures CtrlKept(p, AckInfo(p, nr), s)
  {
    hide PeerInv, Disconnect, Release;
    ReleaseOnly(p, nr);
    DisconnectKept(p, s);
  }

  lemma StatusKept(p: Peer, addr: nat, pf: bool, s: nat)
    requires PeerInv(p)
    ensures CtrlKept(p, TxStatus(p, addr, pf), s)
  {
    hide TxCtrl, PeerInv;
    TxCtrlKept(p, S(addr, if p.busy then RNR else RR, p.vr, pf), s);
  }

  lemma SuperKept(p: Peer, addr: nat, super: Super, pf: bool, s: nat)
    requires PeerInv(p)
    ensures CtrlKept(p, TxSuper(p, addr, super, pf), s)
  {
    hide TxCtrl, PeerInv;
    TxCtrlKept(p, S(addr, super, p.vr, pf), s);
  }

  lemma ReplyKept(p: Peer, f: Frame, chars: Str, s: nat)
    requires PeerInv(p) && f.S?
    ensures CtrlKept(p, Reply(p, f, chars), s)
  {
    hide TxStatus, TxInfo, PeerInv;
    StatusKept(p, f.addr, true, s);
    TxInfoOnly(p, chars);
    StatusKept(TxInfo(p, chars).0, f.addr, false, s);
  }

  lemma SuperCmdKept(p: Peer, f: Frame, chars: Str, s: nat)
    requires PeerInv(p) && f.S?
    ensures CtrlKept(p, RxSuperCmd(p, f, chars), s)
  {
    hide TxStatus, AckInfo, Reply;
    var p0 := p.(peerBusy := f.super == RNR);
    AckKept(p0, f.nr, s);
    var p1 := AckInfo(p0, f.nr);
    StatusKept(p1, p1.rspAddr, true, s);
    ReplyKept(p1, f, chars, s);
    ReplyKept(RejectInfo(Stop(p1)), f, chars, s);
  }

  lemma SuperRspKept(p: Peer, f: Frame, s: nat)
    requires PeerInv(p) && f.S?
    ensures CtrlKept(p, RxSuperRsp(p, f), s)
  {
    hide AckInfo;
    AckKept(p.(peerBusy := f.super == RNR), f.nr, s);
  }

  lemma TakeKept(p: Peer, f: Frame, k: nat, chars: Str, s: nat)
    requires PeerInv(p) && f.I? && k <= |f.info|
    ensures var p1 := p.(reject := false, vr := (p.vr + 1) % 128);
            && CtrlKept(p, TxSuper(p1.(rest := f.info[k..], busy := true), f.addr, RNR, f.pf), s)
            && CtrlKept(p, TxSuper(p1, f.addr, RR, f.pf), s)
            && CtrlKept(p, TxInfo(p1, chars).0, s)
            && CtrlKept(p, TxSuper(TxInfo(p1, chars).0, f.addr, RR, f.pf), s)
  {
    hide TxSuper, TxInfo;
    var p1 := p.(reject := false, vr := (p.vr + 1) % 128);
    SuperKept(p1.(rest := f.info[k..], busy := true), f.addr, RNR, f.pf, s);
    SuperKept(p1, f.addr, RR, f.pf, s);
    TxInfoOnly(p1, chars);
    SuperKept(TxInfo(p1, chars).0, f.addr, RR, f.pf, s);
  }

  lemma RxInfoKept(p: Peer, f: Frame, k: nat, chars: Str, s: nat)
    requires PeerInv(p) && f.I? && k <= |f.info|
    ensures CtrlKept(p, RxInfo(p, f, k, chars), s)
  {
    hide TxSuper, TxInfo, AckInfo, PeerInv;
    AckKept(p, f.nr, s);
    var p1 := AckInfo(p, f.nr);
    SuperKept(p1, p1.rspAddr, RNR, true, s);
    SuperKept(p1, p1.rspAddr, REJ, f.pf, s);
    TakeKept(p1, f, k, chars, s);
  }

  lemma XidKept(p: Peer, addr: nat, s: nat)
    requires PeerInv(p)
    ensures CtrlKept(p, TxXid(p, addr), s)
  {
    hide TxCtrl, PeerInv, X.Offer;
    TxCtrlKept(p, U(addr, XID(X.FI_GENERAL, X.Offer(SizesOf(p), p.terms.comp)), false), s);
  }

  lemma ConfiguredKept(p: Peer, fi: byte, groups: Str, s: nat)
    requires PeerInv(p)
    ensures CtrlKept(p, Configured(p, fi, groups), s)
  {
    hide TxSuper, Connect, HeedXid;
    HeedOnly(p, fi, groups);
    var q := Stop(HeedXid(p, fi, groups).(config := false));
    DialKept(q, s);
    SuperKept(q.(busy := false), q.cmdAddr, RR, false, s);
  }

  lemma NegotiateKept(p: Peer, s: nat)
    requires PeerInv(p)
    ensures CtrlKept(p, Configure(p), s)
  {
    hide TxSuper, TxXid;
    var q := p.(config := true);
    SuperKept(q.(busy := true), p.cmdAddr, RNR, true, s);
    XidKept(if p.state == DATA then TxSuper(q.(busy := true), p.cmdAddr, RNR, true) else q, p.cmdAddr, s);
  }

  lemma UnnumKept(p: Peer, f: Frame, s: nat)
    requires PeerInv(p) && f.U?
    ensures CtrlKept(p, RxUnnumCmd(p, f), s) && CtrlKept(p, RxUnnumRsp(p, f), s)
  {
    hide TxCtrl, HeedXid, TxXid, Configured;
    if f.unnum.XID? {
      HeedOnly(p, f.unnum.fi, f.unnum.groups);
      XidKept(HeedXid(p, f.unnum.fi, f.unnum.groups), p.rspAddr, s);
      ConfiguredKept(p, f.unnum.fi, f.unnum.groups, s);
    } else {
      TxCtrlKept(Reset(p).(state := DATA), U(p.rspAddr, UA, f.pf), s);
      TxCtrlKept(p, U(p.rspAddr, DM, false), s);
      TxCtrlKept(Reset(p.(state := IDLE)), U(p.rspAddr, UA, f.pf), s);
    }
  }

  lemma HearKept(p: Peer, f: Frame, k: nat, chars: Str, s: nat)
    requires PeerInv(p) && (f.I? ==> k <= |f.info|)
    ensures CtrlKept(p, Receive(p, f, k, chars), s)
  {
    hide RxInfo, RxSuperCmd, RxSuperRsp, RxUnnumCmd, RxUnnumRsp, PeerInv;
    if f.U? {
      UnnumKept(p, f, s);
    } else {
      var p1 := ValidDataState(p);
      if f.I? {
        RxInfoKept(p1, f, k, chars, s);
      } else {
        SuperCmdKept(p1, f, chars, s);
        SuperRspKept(p1, f, s);
      }
    }
  }

  lemma TimeoutKept(p: Peer, s: nat)
    requires PeerInv(p)
    ensures CtrlKept(p, Timeout(p), s)
  {
    hide TxCtrl, TxStatus, Disconnect, TxXid;
    var p1 := p.(rtx := p.rtx + 1);
    XidKept(p1, p.cmdAddr, s);
    TxCtrlKept(p1, U(p.cmdAddr, SABME, true), s);
    TxCtrlKept(p1, U(p.cmdAddr, DISCONNECT, true), s);
    StatusKept(p1, p.cmdAddr, true, s);
    DisconnectKept(p.(rtx := 0), s);
  }

  lemma PushKept(p: Peer, k: nat, s: nat)
    requires PeerInv(p) && k <= |p.rest|
    ensures CtrlKept(p, PushRest(p, k), s)
  {
    hide TxSuper;
    SuperKept(p.(rest := p.rest[k..], busy := false), p.cmdAddr, RR, false, s);
  }

  lemma DialKept(p: Peer, s: nat)
    requires PeerInv(p)
    ensures CtrlKept(p, Connect(p), s)
  {
    hide TxCtrl;
    TxCtrlKept(Reset(p).(state := ESTAB), U(p.cmdAddr, SABME, true), s);
  }

  lemma NextKept(p: Peer, e: Event, s: nat)
    requires PeerInv(p) && !e.Draw?
    ensures CtrlKept(p, Next(p, e), s)
  {
    hide Receive, Timeout, PushRest, Connect, Disconnect, Configure;
    match e
    case Hear(f, k, chars) =>
      if !f.I? || k <= |f.info| {
        HearKept(p, f, k, chars, s);
      }
    case Tick(n) => TimeoutKept(p.(timer := 0), s);
    case Push(k) =>
      if k <= |p.rest| {
        PushKept(p, k, s);
      }
    case Negotiate => NegotiateKept(p, s);
    case Dial => DialKept(p, s);
    case Hangup => DisconnectKept(p, s);
  }

  predicate NoDraw(es: seq<Event>)
  {
    forall i :: 0 <= i < |es| ==> !es[i].Draw?
  }

  /** A control frame handed to the transmitter is never rewritten before the next one is asked for. */
  lemma {:induction false} CtrlStable(p: Peer, es: seq<Event>, s: nat)
    requires PeerInv(p) && NoDraw(es) && s < CTRL_SLOTS && NextC(s) == p.txCtrl
    ensures PeerInv(Run(p, es)) && Run(p, es).txCtrl == p.txCtrl && Run(p, es).ctrl[s] == p.ctrl[s]
    decreases es
  {
    hide Next;
    if es != [] {
      NextKept(p, es[0], s);
      CtrlStable(Next(p, es[0]), es[1..], s);
    }
  }

  // ----- granting a frame -----

  /** Giving out a frame keeps the ring, and the slot given out lies just behind the next one to send. */
  lemma GrantRing(p: Peer, chars: Str)
    requires RingOk(p)
    ensures PeerInv(p) && RingOk(GetTxFrame(p, chars).0)
    ensures var (r, g) := GetTxFrame(p, chars);
            && (g.Ctrl? ==> g.slot < CTRL_SLOTS && NextC(g.slot) == r.txCtrl)
            && (g.Info? ==> r.state == DATA && g.slot < INFO_SLOTS && NextI(g.slot) == r.txInfo && r.infoList != g.slot)
  {
    hide RingOk, PeerInv, TxInfo, Calm, Fill;
    PeerOf(p);
    Slots(p);
    if p.txCtrl != p.ctrlList {
      SameRing(p, p.(txCtrl := NextC(p.txCtrl)));
      CalmOk(p, p.(txCtrl := NextC(p.txCtrl)));
    } else {
      InfoQuiet(p, chars);
      var (p1, ready) := if p.txInfo == p.infoList then TxInfo(p, chars) else (p, true);
      QuietOk(p, TxInfo(p, chars).0, chars);
      TxInfoOnly(p, chars);
      if !p.peerBusy && p.state == DATA && ready {
        if p.txInfo == p.infoList {
          ReadyToSend(p, chars);
        }
        SendRing(p1);
      }
    }
  }

  lemma Slots(p: Peer)
    requires PeerInv(p)
    ensures p.txCtrl < CTRL_SLOTS && p.txInfo < INFO_SLOTS && p.infoList < INFO_SLOTS && p.vs < 128
    ensures PeerInv(p.(txCtrl := NextC(p.txCtrl)))
  {}

  lemma ReadyToSend(p: Peer, chars: Str)
    requires PeerInv(p) && TxInfo(p, chars).1
    ensures TxInfo(p, chars).0.txInfo != TxInfo(p, chars).0.infoList
  {}

  lemma SendRing(p: Peer)
    requires RingOk(p) && PeerInv(p) && p.txInfo != p.infoList
    ensures var f := p.info[p.txInfo].(addr := p.cmdAddr, ns := p.vs, nr := p.vr, pf := false);
            var r := p.(info := p.info[p.txInfo := f], txInfo := NextI(p.txInfo), vs := (p.vs + 1) % 128);
            RingOk(r) && RingOk(Start(r))
  {
    hide Filled, InRing, Outstanding;
    SentOne(p);
    var f := p.info[p.txInfo].(addr := p.cmdAddr, ns := p.vs, nr := p.vr, pf := false);
    var q := p.(txInfo := NextI(p.txInfo), vs := (p.vs + 1) % 128);
    HeaderIrrelevant(q, p.txInfo, f);
    TimerCalm(q.(info := q.info[p.txInfo := f]), 0, T401);
  }

  lemma HeaderIrrelevant(p: Peer, slot: nat, f: Frame)
    requires RingOk(p) && slot < |p.info| && f.I?
    ensures RingOk(p.(info := p.info[slot := f]))
  {}

  /** Whatever arrives, the ring stays in order. */
  lemma NextRing(p: Peer, e: Event)
    requires RingOk(p)
    ensures PeerInv(p) && RingOk(Next(p, e))
  {
    hide RingOk, Quiet, PeerInv, GetTxFrame, Receive, Elapse, PushRest, Connect, Disconnect;
    PeerOf(p);
    if e.Draw? {
      GrantRing(p, e.chars);
    } else {
      NextQuiet(p, e);
      QuietOk(Anchor(p, e), Next(p, e), Chars(e));
    }
  }

  lemma {:induction false} RingAlways(p: Peer, es: seq<Event>)
    requires RingOk(p)
    ensures PeerInv(p) && RingOk(Run(p, es))
    decreases es
  {
    hide RingOk, Next, PeerInv;
    PeerOf(p);
    if es != [] {
      NextRing(p, es[0]);
      RingAlways(Next(p, es[0]), es[1..]);
    }
  }

  // ----- information frames -----

  predicate Fills(p: Peer, e: Event)
    requires PeerInv(p)
  {
    Next(p, e).infoList != p.infoList
  }

  function FillCount(p: Peer, es: seq<Event>): nat
    requires PeerInv(p)
    decreases es
  {
    if es == [] then 0 else (if Fills(p, es[0]) then 1 else 0) + FillCount(Next(p, es[0]), es[1..])
  }

  function ResetCount(p: Peer, es: seq<Event>): nat
    requires PeerInv(p)
    decreases es
  {
    if es == [] then 0 else (if Resets(p, es[0]) then 1 else 0) + ResetCount(Next(p, es[0]), es[1..])
  }

  /** Some event fills slot `s`. */
  predicate Rewrites(p: Peer, es: seq<Event>, s: nat)
    requires PeerInv(p)
    decreases es
  {
    es != [] && ((Fills(p, es[0]) && p.infoList == s) || Rewrites(Next(p, es[0]), es[1..], s))
  }

  /** Slots that are filled before slot `s` is. */
  function Ahead(p: Peer, s: nat): nat
  {
    (s - p.infoList) % INFO_SLOTS
  }

  function Drained(p: Peer): nat
  {
    if p.txInfo == p.infoList then 1 else 0
  }

  lemma NextFills(p: Peer, e: Event, s: nat)
    requires RingOk(p) && !e.Draw? && s < INFO_SLOTS
    ensures PeerInv(p) && RingOk(Next(p, e))
    ensures var r := Next(p, e);
            && (!Fills(p, e) ==> r.info[s] == p.info[s] && Ahead(r, s) == Ahead(p, s))
            && (Fills(p, e) && Ahead(p, s) > 0 ==> r.info[s] == p.info[s] && Ahead(r, s) == Ahead(p, s) - 1)
            && (Fills(p, e) ==> r.info[p.infoList] == p.info[p.infoList].(info := Chars(e)))
            && (Ahead(p, s) == 0 <==> p.infoList == s)
            && (if Fills(p, e) then 1 else 0) + Drained(r) <= (if Resets(p, e) then 1 else 0) + Drained(p)
  {
    hide RingOk, Next, Resets;
    PeerOf(p);
    NextQuiet(p, e);
    ResetRing(p);
    QuietOk(Anchor(p, e), Next(p, e), Chars(e));
    if s != p.infoList {
      Nearer(p.infoList, s);
    }
    Different(p.infoList);
  }

  lemma Different(i: nat)
    requires i < INFO_SLOTS
    ensures NextI(i) != i
  {}

  /**
   Slots are filled one after the other: slot `s` is filled exactly when more slots are filled
   than lie before it, and until then it is unchanged.  Each fill but one needs a reset of its own.
   */
  lemma {:induction false} SlotFate(p: Peer, es: seq<Event>, s: nat)
    requires RingOk(p) && NoDraw(es) && s < INFO_SLOTS
    ensures PeerInv(p) && (Rewrites(p, es, s) <==> FillCount(p, es) > Ahead(p, s))
    ensures !Rewrites(p, es, s) ==> PeerInv(Run(p, es)) && Run(p, es).info[s] == p.info[s]
    ensures FillCount(p, es) <= ResetCount(p, es) + Drained(p)
    decreases es
  {
    hide RingOk, Next, Fills, Ahead, Drained, Resets, PeerInv;
    PeerOf(p);
    if es != [] {
      NextFills(p, es[0], s);
      SlotFate(Next(p, es[0]), es[1..], s);
      InfoSlots(Next(p, es[0]));
      InfoSlots(Run(p, es));
    }
  }

  lemma InfoSlots(p: Peer)
    requires PeerInv(p)
    ensures |p.info| == INFO_SLOTS
  {}

  // ----- the bound is exact -----

  const SOME: Str := [0]

  /** The other end connects anew, and then polls nothing but finds a frame to be filled. */
  function Storm(addr: nat, n: nat): seq<Event>
  {
    if n == 0 then []
    else [Hear(U(addr, SABME, false), 0, []), Hear(S(addr, RR, 0, false), 0, SOME)] + Storm(addr, n - 1)
  }

  lemma SabmeResets(p: Peer)
    requires PeerInv(p)
    ensures var e := Hear(U(p.rspAddr, SABME, false), 0, []);
            var r := Next(p, e);
            && Resets(p, e) && !Fills(p, e) && r.rspAddr == p.rspAddr && r.txWin == p.txWin
            && r.state == DATA && r.vs == r.va == 0 && r.sentInfo == r.txInfo == r.infoList && !r.peerBusy
  {
    hide PeerInv;
  }

  /** A drained ring in the data state is filled when the other end acknowledges everything. */
  lemma RRFills(p: Peer)
    requires RingOk(p) && p.state == DATA && p.txInfo == p.infoList && p.txWin >= 1
    ensures PeerInv(p)
    ensures var e := Hear(S(p.rspAddr, RR, p.vs, false), 0, SOME);
            var r := Next(p, e);
            !Resets(p, e) && Fills(p, e) && r.rspAddr == p.rspAddr && r.txWin == p.txWin
  {
    hide RingOk, PeerInv, AckInfo, Reply;
    PeerOf(p);
    var p0 := p.(peerBusy := false);
    SmallVr(p);
    FlagsCalm(p, p.state, p.reject, p.busy, false, p.vr, p.rest);
    CalmOk(p, p0);
    AckAll(p0);
    var p1 := AckInfo(p0, p.vs);
    ReplyFills(p1, S(p.rspAddr, RR, p.vs, false));
  }

  lemma AckAll(p: Peer)
    requires RingOk(p)
    ensures PeerInv(p)
    ensures var r := AckInfo(p, p.vs);
            && RingOk(r) && r.sentInfo == r.txInfo == p.txInfo && r.infoList == p.infoList && r.rspAddr == p.rspAddr
            && r.txWin == p.txWin && r.peerBusy == p.peerBusy
  {
    hide RingOk, PeerInv, Release, Calm, Disconnect, InRing;
    PeerOf(p);
    AckCalm(p, p.vs);
    CalmOk(p, AckInfo(p, p.vs));
    var n := ReleaseExact(p, p.vs);
    var r := Release(p, p.vs);
    CalmOk(p, r);
    PeerOf(r);
  }

  lemma ReplyFills(p: Peer, f: Frame)
    requires RingOk(p) && PeerInv(p) && f.S? && !f.pf && !p.peerBusy && p.sentInfo == p.txInfo == p.infoList
             && p.txWin >= 1
    ensures var r := Reply(p, f, SOME);
            r.infoList != p.infoList && r.rspAddr == p.rspAddr && r.txWin == p.txWin
  {
    hide PeerInv, TxStatus;
    Slots(p);
    Different(p.infoList);
  }

  lemma StormStep(p: Peer, n: nat)
    requires RingOk(p) && p.txWin >= 1 && n >= 1 && PeerInv(p)
    ensures var a := Storm(p.rspAddr, n)[0];
            var b := Storm(p.rspAddr, n)[1];
            var q := Next(p, a);
            var r := Next(q, b);
            && RingOk(r) && r.rspAddr == p.rspAddr && r.txWin == p.txWin
            && Resets(p, a) && !Fills(p, a) && !Resets(q, b) && Fills(q, b)
  {
    hide RingOk, PeerInv, Next, Resets;
    var a := Storm(p.rspAddr, n)[0];
    var b := Storm(p.rspAddr, n)[1];
    SabmeResets(p);
    NextRing(p, a);
    var q := Next(p, a);
    RRFills(q);
    NextRing(q, b);
  }

  lemma {:induction false} StormFills(p: Peer, n: nat)
    requires RingOk(p) && p.txWin >= 1 && PeerInv(p)
    ensures NoDraw(Storm(p.rspAddr, n))
    ensures FillCount(p, Storm(p.rspAddr, n)) == n == ResetCount(p, Storm(p.rspAddr, n))
    decreases n
  {
    hide RingOk, PeerInv, Next, Resets, Fills;
    if n > 0 {
      var es := Storm(p.rspAddr, n);
      StormStep(p, n);
      var q := Next(p, es[0]);
      var r := Next(q, es[1]);
      PeerOf(r);
      StormFills(r, n - 1);
      assert es[1..][1..] == Storm(r.rspAddr, n - 1);
      assert es[1..][0] == es[1];
    }
  }

  /** A history with `budget` resets that fills as many slots as any can. */
  function Worst(p: Peer, budget: nat): seq<Event>
  {
    (if Drained(p) == 1 then [Hear(S(p.rspAddr, RR, p.vs, false), 0, SOME)] else []) + Storm(p.rspAddr, budget)
  }

  lemma WorstFills(p: Peer, budget: nat)
    requires RingOk(p) && p.txWin >= 1 && PeerInv(p) && p.state == DATA
    ensures NoDraw(Worst(p, budget)) && ResetCount(p, Worst(p, budget)) == budget
    ensures FillCount(p, Worst(p, budget)) == budget + Drained(p)
  {
    hide RingOk, PeerInv, Next, Resets, Fills, Storm;
    var es := Worst(p, budget);
    if Drained(p) == 1 {
      RRFills(p);
      NextRing(p, es[0]);
      var q := Next(p, es[0]);
      PeerOf(q);
      StormFills(q, budget);
      assert es[1..] == Storm(q.rspAddr, budget);
    } else {
      StormFills(p, budget);
      assert es == Storm(p.rspAddr, budget);
    }
  }

  /**
   Slot `s` survives every history with at most `budget` resets if and only if that many resets,
   and one more fill if the ring is drained, do not reach it.
   */
  lemma SlotSafe(p: Peer, s: nat, budget: nat)
    requires RingOk(p) && PeerInv(p) && p.state == DATA && p.txWin >= 1 && s < INFO_SLOTS
    ensures (forall es :: NoDraw(es) && ResetCount(p, es) <= budget ==> !Rewrites(p, es, s))
            <==> budget + Drained(p) <= Ahead(p, s)
  {
    hide RingOk, PeerInv, Worst, NoDraw, Ahead, Drained, Rewrites, FillCount, ResetCount;
    if budget + Drained(p) <= Ahead(p, s) {
      forall es | NoDraw(es) && ResetCount(p, es) <= budget
        ensures !Rewrites(p, es, s)
      {
        SlotFate(p, es, s);
      }
    } else {
      var es := Worst(p, budget);
      WorstFills(p, budget);
      SlotFate(p, es, s);
    }
  }

  /** The frame just granted survives any history with a single reset. */
  lemma InfoStable(p: Peer, chars: Str, es: seq<Event>)
    requires RingOk(p) && PeerInv(p) && GetTxFrame(p, chars).1.Info? && NoDraw(es)
    requires ResetCount(GetTxFrame(p, chars).0, es) <= 1
    ensures var (r, g) := GetTxFrame(p, chars);
            g.slot < INFO_SLOTS && Run(r, es).info[g.slot] == r.info[g.slot]
  {
    hide RingOk, PeerInv, GetTxFrame, Run, ResetCount, FillCount, Rewrites, Ahead, Drained, NoDraw;
    var (r, g) := GetTxFrame(p, chars);
    GrantRing(p, chars);
    PeerOf(r);
    Slots(r);
    SlotFate(r, es, g.slot);
    GrantedRoom(r, g.slot);
    InfoSlots(Run(r, es));
    InfoSlots(r);
  }

  /** One reset, and one more fill of a drained ring, do not reach the slot just given out. */
  lemma GrantedRoom(p: Peer, s: nat)
    requires p.infoList < INFO_SLOTS && s < INFO_SLOTS && p.infoList != s && p.txInfo == NextI(s)
    ensures 1 + Drained(p) <= Ahead(p, s)
  {
    hide NextI;
    JustBehind(p.infoList, s);
  }

  lemma JustBehind(list: nat, s: nat)
    requires list < INFO_SLOTS && s < INFO_SLOTS && list != s
    ensures 1 <= (s - list) % INFO_SLOTS && (list == NextI(s) ==> (s - list) % INFO_SLOTS == 15)
  {}

  // ----- two resets do reach it -----

  /** `n` frames sent, none acknowledged, and slot 0 the first. */
  predicate Sent(p: Peer, n: nat)
  {
    && PeerInv(p) && p.state == DATA && !p.config && !p.peerBusy && !p.busy && p.rtx == 0 && p.txWin == 15
    && p.txCtrl == p.ctrlList && p.sentInfo == p.va == 0 && p.txInfo == p.infoList == p.vs == n
  }

  function Draws(n: nat): (es: seq<Event>)
    ensures |es| == n
  {
    seq(n, _ => Draw([1]))
  }

  lemma DrawOne(p: Peer, n: nat)
    requires Sent(p, n) && n < 15
    ensures Sent(Next(p, Draw([1])), n + 1)
    ensures Next(p, Draw([1])).info[0].info == if n == 0 then [1] else p.info[0].info
  {}

  lemma {:induction false} WindowFills(p: Peer, n: nat, m: nat)
    requires Sent(p, n) && n + m == 15 && (n > 0 ==> p.info[0].info == [1])
    ensures Sent(Run(p, Draws(m)), 15) && Run(p, Draws(m)).info[0].info == [1]
    decreases m
  {
    if m > 0 {
      DrawOne(p, n);
      var p1 := Next(p, Draw([1]));
      WindowFills(p1, n + 1, m - 1);
      assert Draws(m)[1..] == Draws(m - 1);
    }
  }

  /** The other end rejects frame 0; the answer goes out, and then frame 0 again. */
  lemma Rejected(p: Peer) returns (p1: Peer, p2: Peer)
    requires Sent(p, 15) && p.info[0].info == [1]
    ensures p1 == Next(p, Hear(S(p.rspAddr, REJ, 0, true), 0, [])) && PeerInv(p1)
    ensures p2 == Next(p1, Draw([])) && PeerInv(p2)
    ensures p2.state == DATA && !p2.config && !p2.peerBusy && p2.txWin == 15 && p2.txCtrl == p2.ctrlList
    ensures p2.sentInfo == p2.txInfo == p2.va == p2.vs == 0 && p2.infoList == 15 && p2.info[0].info == [1]
  {
    var f := S(p.rspAddr, REJ, 0, true);
    p1 := RxSuperCmd(p, f, []);
    assert AckInfo(p.(peerBusy := false), 0) == p;
    p2 := GetTxFrame(p1, []).0;
  }

  /**
   A frame of a full window is sent again; while it is on its way, the other end connects anew
   twice, asking for data each time.  The second fill overwrites the characters being sent.
   */
  lemma TwoResetsRewrite(p: Peer) returns (es: seq<Event>)
    requires Sent(p, 0)
    ensures var q := Run(p, es);
            var (r, g) := GetTxFrame(q, []);
            && g == Info(0) && r.info[0].info == [1]
            && ResetCount(r, Storm(r.rspAddr, 2)) == 2 && Run(r, Storm(r.rspAddr, 2)).info[0].info == SOME
  {
    hide Storm, Run, PeerInv, Sent, Next, GetTxFrame;
    SentPeer(p, 0);
    WindowFills(p, 0, 15);
    var q0 := Run(p, Draws(15));
    var q1, q := Rejected(q0);
    var more := [Hear(S(q0.rspAddr, REJ, 0, true), 0, []), Draw([])];
    es := Draws(15) + more;
    RunAppend(p, Draws(15), more);
    RunTwo(q0, more);
    GrantAgain(q);
    var r := GetTxFrame(q, []).0;
    StormTwice(r);
  }

  lemma SentPeer(p: Peer, n: nat)
    requires Sent(p, n)
    ensures PeerInv(p)
  {}

  lemma {:induction false} RunAppend(p: Peer, a: seq<Event>, b: seq<Event>)
    requires PeerInv(p)
    ensures Run(p, a + b) == Run(Run(p, a), b)
    decreases a
  {
    hide Next, PeerInv;
    if a == [] {
      assert a + b == b;
    } else {
      assert (a + b)[1..] == a[1..] + b;
      RunAppend(Next(p, a[0]), a[1..], b);
    }
  }

  lemma RunTwo(p: Peer, es: seq<Event>)
    requires PeerInv(p) && |es| == 2
    ensures Run(p, es) == Next(Next(p, es[0]), es[1])
  {
    hide Next, PeerInv;
    assert es[1..][0] == es[1] && es[1..][1..] == [];
    assert Run(Next(p, es[0]), es[1..]) == Run(Next(Next(p, es[0]), es[1]), []);
  }

  lemma GrantAgain(p: Peer)
    requires PeerInv(p) && p.state == DATA && !p.config && !p.peerBusy && p.txWin == 15 && p.txCtrl == p.ctrlList
    requires p.sentInfo == p.txInfo == p.va == p.vs == 0 && p.infoList == 15
    ensures var (r, g) := GetTxFrame(p, []);
            g == Info(0) && RingOk(r) && r.infoList == 15 && r.txWin == 15 && r.info[0].info == p.info[0].info
  {}

  lemma StormTwice(p: Peer)
    requires RingOk(p) && PeerInv(p) && p.infoList == 15 && p.txWin == 15
    ensures ResetCount(p, Storm(p.rspAddr, 2)) == 2
    ensures PeerInv(Run(p, Storm(p.rspAddr, 2))) && Run(p, Storm(p.rspAddr, 2)).info[0].info == SOME
  {
    hide RingOk, PeerInv, Next, Resets, Fills, Storm, Run;
    StormFills(p, 2);
    var r := StormOne(p, 2);
    PeerOf(r);
    var t := StormOne(r, 1);
    RunNothing(t);
    InfoSlots(Run(p, Storm(p.rspAddr, 2)));
  }

  /** One round of the storm fills the next slot. */
  lemma StormOne(p: Peer, n: nat) returns (r: Peer)
    requires RingOk(p) && PeerInv(p) && p.txWin >= 1 && n >= 1
    ensures RingOk(r) && PeerInv(r) && r.rspAddr == p.rspAddr && r.txWin == p.txWin && p.infoList < |r.info|
    ensures Run(p, Storm(p.rspAddr, n)) == Run(r, Storm(p.rspAddr, n - 1))
    ensures r.infoList == NextI(p.infoList) && r.info[p.infoList].info == SOME
  {
    hide RingOk, PeerInv, Next, Resets;
    var es := Storm(p.rspAddr, n);
    StormStep(p, n);
    var q := Next(p, es[0]);
    NextRing(p, es[0]);
    r := Next(q, es[1]);
    PeerOf(r);
    assert es[1..][0] == es[1] && es[1..][1..] == Storm(p.rspAddr, n - 1);
    Slots(q);
    InfoSlots(q);
    InfoSlots(r);
    NextFills(q, es[1], q.infoList);
    FillsNext(q, es[1]);
  }

  lemma FillsNext(p: Peer, e: Event)
    requires RingOk(p) && PeerInv(p) && !e.Draw? && Fills(p, e)
    ensures Next(p, e).infoList == NextI(p.infoList)
  {
    hide RingOk, Next, Resets, PeerInv;
    NextQuiet(p, e);
    ResetRing(p);
  }

  lemma RunNothing(p: Peer)
    requires PeerInv(p)
    ensures Run(p, Storm(p.rspAddr, 0)) == p
  {}
}
