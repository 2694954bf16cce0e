/**
 Recovery: what the peers do after a loss.  A timeout polls, the poll is answered, and the
 answer or a rejection makes the sender resume with the frame that the other end waits for.
 */
module LapmRecovery {
  import opened Words
  import opened Lapm
  import opened LapmLink
  import opened LapmEvents

  /** The frame queued last. */
  predicate Queues(p: Peer, r: Peer, f: Frame)
    requires PeerInv(p)
  {
    r.ctrl == p.ctrl[p.ctrlList := f] && r.ctrlList == NextC(p.ctrlList) && r.txCtrl == p.txCtrl
  }

  predicate Room(p: Peer)
  {
    NextC(p.ctrlList) != p.txCtrl
  }

  function Condition(p: Peer): Super
  {
    if p.busy then RNR else RR
  }

  /** An expiry of T401 in the data state polls the other end. */
  lemma TimeoutPolls(p: Peer)
    requires PeerInv(p) && p.state == DATA && !p.config && p.rtx <= MAX_RTX && Room(p)
    ensures var r := Timeout(p);
            Queues(p, r, S(p.cmdAddr, Condition(p), p.vr, true)) && r.rtx == p.rtx + 1 && r.timer == T401
              && r.state == DATA
  {
    hide PeerInv;
  }

  /** A poll is answered with the receive count and the condition of the receiver. */
  lemma PollAnswered(p: Peer, h: Grant, g: Ghost, f: Frame, nr: nat, chars: Str)
    requires PInv(p, h, g) && p.state == DATA && Room(p) && f.S? && f.super != SREJ && f.pf && f.addr == p.rspAddr
    requires f.nr == nr % 128 && g.va <= nr <= g.ms
    ensures Queues(p, RxSuperCmd(p, f, chars), S(p.rspAddr, Condition(p), p.vr, true))
  {
    hide PInv, PeerInv, AckInfo;
    PInvPeer(p, h, g);
    var p0 := p.(peerBusy := f.super == RNR);
    FlagsKeep(p, h, g, f.super == RNR, p.reject, p.rtx, p.timer);
    PInvPeer(p0, h, g);
    var g1 := AckKeeps(p0, h, g, nr);
    PInvPeer(AckInfo(p0, f.nr), h, g1);
  }

  /** The sender stands before frame `nr`. */
  ghost predicate Resumes(p: Peer, h: Grant, g: Ghost, nr: nat)
  {
    PInv(p, h, g) && p.state == DATA && g.va == nr == g.vs
  }

  /**
   Where sending resumes after N(R) = `nr`.  The other end may have taken frames beyond V(S), which
   went out before V(S) was taken back; these are not released, and sending resumes at V(S).
   */
  function ResumePoint(g: Ghost, nr: nat): nat
  {
    if nr <= g.vs then nr else g.vs
  }

  /**
   The answer to a poll: everything before `nr` that has been sent since V(S) was last taken back
   is released.  Sending resumes with frame `nr` if and only if `nr` is not beyond V(S).
   */
  lemma FinalResumes(p: Peer, h: Grant, g: Ghost, f: Frame, nr: nat)
    requires PInv(p, h, g) && p.state == DATA && p.rtx != 0 && f.S? && f.super in {RR, REJ} && f.pf
    requires f.nr == nr % 128 && g.va <= nr <= g.ms
    ensures var r := RxSuperRsp(p, f);
            var at := ResumePoint(g, nr);
            Resumes(r, h, g.(va := at, vs := at), at) && !r.peerBusy && r.timer == 0 && r.rtx == 0
            && r.txCtrl == p.txCtrl && r.ctrlList == p.ctrlList
  {
    hide PInv, AckInfo, PeerInv;
    PInvPeer(p, h, g);
    FlagsKeep(p, h, g, false, p.reject, p.rtx, p.timer);
    var p0 := p.(peerBusy := false);
    PInvPeer(p0, h, g);
    SentBound(p, h, g);
    var g1 := AckKeeps(p0, h, g, nr);
    var p1 := AckInfo(p0, f.nr);
    RetransmissionStays(p0, f.nr);
    SentBound(p1, h, g1);
    BackKeeps(p1, h, g1);
  }

  lemma SentBound(p: Peer, h: Grant, g: Ghost)
    requires PInv(p, h, g) && p.state == DATA
    ensures g.vs <= g.ms && Outstanding(p) == g.vs - g.va <= p.txWin
  {
    hide CtrlInv, FlyInv, ISlot;
    Mod128Difference(g.va, g.vs);
  }

  lemma RetransmissionStays(p: Peer, nr: nat)
    requires PeerInv(p) && p.rtx != 0 && Outstanding(p) <= p.txWin
    ensures AckInfo(p, nr).rtx == p.rtx
  {
    hide PeerInv;
    ReleaseOnly(p, nr);
  }

  /** A rejection by the other end outside of polling has the same effect. */
  lemma RejectResumes(p: Peer, h: Grant, g: Ghost, f: Frame, nr: nat)
    requires PInv(p, h, g) && p.state == DATA && p.rtx == 0 && f.S? && f.super == REJ && !f.pf
    requires f.nr == nr % 128 && g.va <= nr <= g.ms
    ensures var at := ResumePoint(g, nr);
            Resumes(RxSuperRsp(p, f), h, g.(va := at, vs := at), at) && RxSuperRsp(p, f).timer == 0
  {
    hide PInv, AckInfo, PeerInv;
    PInvPeer(p, h, g);
    FlagsKeep(p, h, g, false, p.reject, p.rtx, p.timer);
    var p0 := p.(peerBusy := false);
    PInvPeer(p0, h, g);
    SentBound(p, h, g);
    var g1 := AckKeeps(p0, h, g, nr);
    var p1 := AckInfo(p0, f.nr);
    NotPolling(p0, f.nr);
    SentBound(p1, h, g1);
    BackKeeps(p1, h, g1);
  }

  lemma NotPolling(p: Peer, nr: nat)
    requires PeerInv(p) && p.rtx == 0
    ensures AckInfo(p, nr).rtx == 0
  {
    hide PeerInv;
    ReleaseOnly(p, nr);
  }

  /** The next information frame carries the characters and the number of the frame resumed with. */
  lemma ResumedFrame(p: Peer, g: Ghost, chars: Str)
    requires PInv(p, Nothing, g) && p.state == DATA && !p.peerBusy && p.txCtrl == p.ctrlList && g.vs < |g.frames|
    ensures PeerInv(p)
    ensures var (r, gr) := GetTxFrame(p, chars);
            && gr == Info(ISlot(g.base, g.vs)) && r.vs == (g.vs + 1) % 128 && r.timer > 0
            && r.info[gr.slot] == I(p.cmdAddr, g.vs % 128, p.vr, false, g.frames[g.vs])
  {
    hide CtrlInv, FlyInv, ISlot;
    SlotsDistinct(g.base, g.vs, |g.frames|);
    Mod128Next(g.vs);
  }

  /** The frame that the receiver waits for is taken, and the receive count moves on. */
  lemma AwaitedFrameTaken(p: Peer, h: Grant, g: Ghost, f: Frame, nr: nat, k: nat, chars: Str)
    requires PInv(p, h, g) && p.state == DATA && !p.busy && f.I? && f.ns == g.vr % 128 && k <= |f.info|
    requires f.nr == nr % 128 && g.va <= nr <= g.ms
    ensures PeerInv(p) && Accepts(p, f)
    ensures var r := RxInfo(p, f, k, chars);
            r.vr == (g.vr + 1) % 128 && !r.reject && r.rest == f.info[k..] && (r.busy <==> k < |f.info|)
  {
    hide AckInfo, PeerInv, TxInfo, CtrlInv, FlyInv, RingInv;
    PInvPeer(p, h, g);
    var g1 := AckKeeps(p, h, g, nr);
    var p1 := AckInfo(p, f.nr);
    PInvPeer(p1, h, g1);
    Mod128Next(g.vr);
    var p2 := p1.(reject := false, vr := (p1.vr + 1) % 128);
    AcceptKeeps(p1, h, g1, []);
    TxInfoOnly(p2, chars);
  }

  /** Any other frame is refused, and the first time it is, a rejection asks for the awaited one. */
  lemma OtherFrameRejected(p: Peer, h: Grant, g: Ghost, f: Frame, nr: nat, k: nat, chars: Str)
    requires PInv(p, h, g) && p.state == DATA && !p.busy && f.I? && f.ns != p.vr && k <= |f.info| && Room(p)
    requires f.nr == nr % 128 && g.va <= nr <= g.ms
    ensures PeerInv(p) && !Accepts(p, f)
    ensures var r := RxInfo(p, f, k, chars);
            r.vr == p.vr && r.reject && r.rest == p.rest && (!p.reject ==> Queues(p, r, S(p.rspAddr, REJ, p.vr, f.pf)))
  {
    hide AckInfo, PeerInv, TxInfo, CtrlInv, FlyInv, RingInv;
    PInvPeer(p, h, g);
    var g1 := AckKeeps(p, h, g, nr);
    PInvPeer(AckInfo(p, f.nr), h, g1);
  }

  /**
   Every supervisory frame says whether the other end is busy, and is believed, but for a final
   response that was not asked for.  A response that says so starts T401, so that the peer polls.
   */
  lemma ConditionHeard(p: Peer, h: Grant, g: Ghost, f: Frame, nr: nat, chars: Str)
    requires PInv(p, h, g) && p.state == DATA && f.S? && f.super != SREJ && f.nr == nr % 128 && g.va <= nr <= g.ms
    ensures var r := RxSuperCmd(p, f, chars); r.peerBusy == (f.super == RNR) && r.state == DATA
    ensures var r := RxSuperRsp(p, f);
            r.state == DATA && (if p.rtx == 0 && f.pf then r == p else r.peerBusy == (f.super == RNR))
    ensures f.super == RNR && (p.rtx == 0 <==> !f.pf) ==> RxSuperRsp(p, f).timer == T401 && RxSuperRsp(p, f).rtx == 0
  {
    hide PInv, AckInfo, PeerInv, TxCtrl, TxInfo;
    PInvPeer(p, h, g);
    FlagsKeep(p, h, g, f.super == RNR, p.reject, p.rtx, p.timer);
    var p0 := p.(peerBusy := f.super == RNR);
    PInvPeer(p0, h, g);
    var g1 := AckKeeps(p0, h, g, nr);
    var p1 := AckInfo(p0, f.nr);
    PInvPeer(p1, h, g1);
    ReplyCondition(p1, f, chars);
    BackKeeps(p1, h, g1);
    SentBound(p, h, g);
    if p.rtx == 0 {
      NotPolling(p0, f.nr);
    } else {
      RetransmissionStays(p0, f.nr);
    }
    if p1.rtx == 0 {
      StopPeer(p1);
      ReplyCondition(RejectInfo(Stop(p1)), f, chars);
    }
    TxCtrlOnly(p1, S(p1.rspAddr, if p1.busy then RNR else RR, p1.vr, true));
  }

  lemma StopPeer(p: Peer)
    requires PeerInv(p)
    ensures PeerInv(Stop(p))
  {}

  lemma ReplyCondition(p: Peer, f: Frame, chars: Str)
    requires PeerInv(p) && f.S?
    ensures Reply(p, f, chars).peerBusy == p.peerBusy && Reply(p, f, chars).state == p.state
  {
    hide PeerInv, TxCtrl, TxInfo;
    TxInfoOnly(p, chars);
    var q := TxInfo(p, chars).0;
    TxCtrlOnly(p, S(f.addr, if p.busy then RNR else RR, p.vr, true));
    TxCtrlOnly(q, S(f.addr, if q.busy then RNR else RR, q.vr, false));
  }

  /** Every numbered frame acknowledges: V(A) moves to its N(R), or to V(S) if that is lower. */
  lemma CountHeard(p: Peer, h: Grant, g: Ghost, f: Frame, nr: nat, k: nat, chars: Str)
    requires PInv(p, h, g) && p.state == DATA && !f.U? && f.nr == nr % 128 && g.va <= nr <= g.ms
    requires f.I? ==> k <= |f.info|
    ensures PeerInv(p)
    ensures var at := ResumePoint(g, nr) % 128;
            && (f.I? ==> RxInfo(p, f, k, chars).va == at)
            && (f.S? && f.super != SREJ ==> RxSuperCmd(p, f, chars).va == at)
            && (f.S? && f.super != SREJ && !(p.rtx == 0 && f.pf) ==> RxSuperRsp(p, f).va == at)
  {
    hide PInv, AckInfo, PeerInv, TxCtrl, TxInfo;
    PInvPeer(p, h, g);
    if f.I? {
      AckCount(p, h, g, nr);
      var p1 := AckInfo(p, f.nr);
      InfoCount(p1, f, k, chars);
    } else {
      FlagsKeep(p, h, g, f.super == RNR, p.reject, p.rtx, p.timer);
      var p0 := p.(peerBusy := f.super == RNR);
      AckCount(p0, h, g, nr);
      var p1 := AckInfo(p0, f.nr);
      TxCtrlOnly(p1, S(p1.rspAddr, if p1.busy then RNR else RR, p1.vr, true));
      ReplyCount(p1, f, chars);
      BackCount(p1);
      ReplyCount(RejectInfo(Stop(p1)), f, chars);
    }
  }

  lemma AckCount(p: Peer, h: Grant, g: Ghost, nr: nat)
    requires PInv(p, h, g) && p.state == DATA && g.va <= nr <= g.ms
    ensures PeerInv(p) && PeerInv(AckInfo(p, nr % 128)) && AckInfo(p, nr % 128).va == ResumePoint(g, nr) % 128
  {
    hide AckInfo, PInv, PeerInv;
    PInvPeer(p, h, g);
    SentBound(p, h, g);
    var g1 := AckKeeps(p, h, g, nr);
    var r := AckInfo(p, nr % 128);
    PInvPeer(r, h, g1);
    AckState(p, nr % 128);
    VaIs(r, h, g1);
  }

  lemma AckState(p: Peer, nr: nat)
    requires PeerInv(p) && Outstanding(p) <= p.txWin
    ensures AckInfo(p, nr).state == p.state
  {
    hide PeerInv;
    ReleaseOnly(p, nr);
  }

  lemma VaIs(p: Peer, h: Grant, g: Ghost)
    requires PInv(p, h, g) && p.state == DATA
    ensures p.va == g.va % 128 && g.va <= g.vs
  {
    hide CtrlInv, FlyInv, ISlot;
  }

  lemma ReplyCount(p: Peer, f: Frame, chars: Str)
    requires PeerInv(p) && f.S?
    ensures Reply(p, f, chars).va == p.va
  {
    hide PeerInv, TxCtrl, TxInfo;
    TxInfoOnly(p, chars);
    var q := TxInfo(p, chars).0;
    TxCtrlOnly(p, S(f.addr, if p.busy then RNR else RR, p.vr, true));
    TxCtrlOnly(q, S(f.addr, if q.busy then RNR else RR, q.vr, false));
  }

  lemma BackCount(p: Peer)
    requires PeerInv(p)
    ensures PeerInv(Stop(p)) && PeerInv(RejectInfo(Stop(p)))
    ensures RejectInfo(Stop(p)).va == p.va && Stop(RejectInfo(p)).va == p.va && Start(Stop(RejectInfo(p))).va == p.va
  {}

  /** What follows the acknowledgement of an information frame leaves V(A). */
  lemma InfoCount(p: Peer, f: Frame, k: nat, chars: Str)
    requires PeerInv(p) && f.I? && k <= |f.info|
    ensures var p1 := p.(reject := false, vr := (p.vr + 1) % 128);
            var q := TxInfo(p1, chars).0;
            && TxSuper(p, p.rspAddr, RNR, true).va == TxSuper(p, p.rspAddr, REJ, f.pf).va == p.va
            && TxSuper(p1.(rest := f.info[k..], busy := true), f.addr, RNR, f.pf).va == p.va
            && TxSuper(p1, f.addr, RR, f.pf).va == q.va == TxSuper(q, f.addr, RR, f.pf).va == p.va
  {
    hide TxCtrl, TxInfo;
    var p1 := p.(reject := false, vr := (p.vr + 1) % 128);
    var q := TxInfo(p1, chars).0;
    TxInfoOnly(p1, chars);
    TxCtrlOnly(p, S(p.rspAddr, RNR, p.vr, true));
    TxCtrlOnly(p, S(p.rspAddr, REJ, p.vr, f.pf));
    TxCtrlOnly(p1.(rest := f.info[k..], busy := true), S(f.addr, RNR, p1.vr, f.pf));
    TxCtrlOnly(p1, S(f.addr, RR, p1.vr, f.pf));
    TxCtrlOnly(q, S(f.addr, RR, q.vr, f.pf));
  }

  /**
   The answer to an information frame: when busy, RNR to a poll only; when taken in part, RNR; when taken
   in full, RR, unless the frame is not a poll and the peer has a frame of its own to send, which carries
   the count instead.
   */
  lemma InfoAnswered(p: Peer, h: Grant, g: Ghost, f: Frame, nr: nat, k: nat, chars: Str)
    requires PInv(p, h, g) && p.state == DATA && Room(p) && f.I? && k <= |f.info|
    requires f.nr == nr % 128 && g.va <= nr <= g.ms
    ensures PeerInv(p)
    ensures var r := RxInfo(p, f, k, chars);
            && (p.busy && f.pf ==> Queues(p, r, S(p.rspAddr, RNR, p.vr, true)))
            && (p.busy && !f.pf ==> r.ctrl == p.ctrl && r.ctrlList == p.ctrlList)
            && (!p.busy && f.ns == p.vr && k < |f.info| ==>
                  Queues(p, r, S(f.addr, RNR, (p.vr + 1) % 128, f.pf)) && r.rest == f.info[k..])
            && (!p.busy && f.ns == p.vr && k == |f.info| && f.pf ==>
                  Queues(p, r, S(f.addr, RR, (p.vr + 1) % 128, true)))
            && (!p.busy && f.ns == p.vr && k == |f.info| && !f.pf ==>
                  || Queues(p, r, S(f.addr, RR, (p.vr + 1) % 128, false))
                  || (!p.peerBusy && r.ctrlList == p.ctrlList && r.txInfo != r.infoList))
  {
    hide PInv, AckInfo, PeerInv, TxInfo;
    PInvPeer(p, h, g);
    var g1 := AckKeeps(p, h, g, nr);
    var p1 := AckInfo(p, f.nr);
    PInvPeer(p1, h, g1);
    var p2 := p1.(reject := false, vr := (p1.vr + 1) % 128);
    NextPeer(p1, f.info[k..]);
    TxInfoOnly(p2, chars);
    ReadyMeans(p2, chars);
  }

  lemma NextPeer(p: Peer, rest: Str)
    requires PeerInv(p)
    ensures var q := p.(reject := false, vr := (p.vr + 1) % 128); PeerInv(q) && PeerInv(q.(rest := rest, busy := true))
  {}

  lemma ReadyMeans(p: Peer, chars: Str)
    requires PeerInv(p)
    ensures TxInfo(p, chars).1 ==> TxInfo(p, chars).0.txInfo != TxInfo(p, chars).0.infoList
  {}

  /** A rejection may also be a command; while the peer polls, neither makes it go back. */
  lemma RejectedByCommand(p: Peer, h: Grant, g: Ghost, f: Frame, nr: nat, chars: Str)
    requires PInv(p, h, g) && p.state == DATA && f.S? && f.super == REJ
    requires f.nr == nr % 128 && g.va <= nr <= g.ms
    ensures PeerInv(p)
    ensures var r, at := RxSuperCmd(p, f, chars), ResumePoint(g, nr) % 128;
            && r.va == at
            && (p.rtx == 0 ==> r.vs == at && r.txInfo == r.sentInfo && r.timer == 0 && r.rtx == 0)
            && (p.rtx != 0 ==> r.vs == p.vs && r.txInfo == p.txInfo && r.timer == p.timer && r.rtx == p.rtx)
  {
    hide PInv, AckInfo, PeerInv, TxCtrl, TxInfo;
    PInvPeer(p, h, g);
    FlagsKeep(p, h, g, false, p.reject, p.rtx, p.timer);
    var p0 := p.(peerBusy := false);
    AckCount(p0, h, g, nr);
    SentBound(p0, h, g);
    var p1 := AckInfo(p0, f.nr);
    AckKeepsSending(p0, f.nr);
    ReplyKeepsSending(p1, f, chars);
    BackCount(p1);
    ReplyKeepsSending(RejectInfo(Stop(p1)), f, chars);
  }

  lemma AckKeepsSending(p: Peer, nr: nat)
    requires PeerInv(p) && Outstanding(p) <= p.txWin
    ensures var r := AckInfo(p, nr);
            r.vs == p.vs && r.txInfo == p.txInfo && r.state == p.state && r.rtx == p.rtx
              && (p.rtx != 0 ==> r.timer == p.timer)
  {
    hide PeerInv;
    ReleaseOnly(p, nr);
  }

  lemma ReplyKeepsSending(p: Peer, f: Frame, chars: Str)
    requires PeerInv(p) && f.S?
    ensures var r := Reply(p, f, chars);
            && r.vs == p.vs && r.va == p.va && r.txInfo == p.txInfo && r.sentInfo == p.sentInfo
            && r.timer == p.timer && r.rtx == p.rtx
  {
    hide PeerInv, TxCtrl, TxInfo;
    TxInfoOnly(p, chars);
    var q := TxInfo(p, chars).0;
    TxCtrlOnly(p, S(f.addr, if p.busy then RNR else RR, p.vr, true));
    TxCtrlOnly(q, S(f.addr, if q.busy then RNR else RR, q.vr, false));
  }

  /** A command that is no poll is answered with the peer's condition, unless it has a frame to send instead. */
  lemma CommandAnswered(p: Peer, h: Grant, g: Ghost, f: Frame, nr: nat, chars: Str)
    requires PInv(p, h, g) && p.state == DATA && Room(p) && f.S? && (f.super == RR || f.super == REJ) && !f.pf
    requires f.nr == nr % 128 && g.va <= nr <= g.ms
    ensures PeerInv(p)
    ensures var r := RxSuperCmd(p, f, chars);
            || Queues(p, r, S(f.addr, Condition(p), p.vr, false))
            || (r.ctrlList == p.ctrlList && r.ctrl == p.ctrl && r.txInfo != r.infoList)
  {
    hide PInv, AckInfo, PeerInv, TxInfo;
    PInvPeer(p, h, g);
    FlagsKeep(p, h, g, false, p.reject, p.rtx, p.timer);
    var p0 := p.(peerBusy := false);
    PInvPeer(p0, h, g);
    var g1 := AckKeeps(p0, h, g, nr);
    var p1 := AckInfo(p0, f.nr);
    PInvPeer(p1, h, g1);
    BackCount(p1);
    var p2 := RejectInfo(Stop(p1));
    TxInfoOnly(p1, chars);
    ReadyMeans(p1, chars);
    TxInfoOnly(p2, chars);
    ReadyMeans(p2, chars);
  }
}
