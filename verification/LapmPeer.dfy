/**
 The LAPM peer object: the fields of the link state, the two frame rings, and the methods that
 the framer calls.  Each method does to the fields what the function of the same name in
 Lapm.dfy does to the values they stand for.
 */
module LapmPeer {
  import opened Words
  import L = Lapm
  import X = Xid
  import opened Lapm

  class LapmPeer {
    var state: State
    var reject: bool
    var busy: bool
    var peerBusy: bool
    var config: bool
    const cmdAddr: nat
    const rspAddr: nat
    var vs: nat
    var va: nat
    var vr: nat
    var rtx: nat
    var timer: nat
    var txWin: nat
    var terms: Terms
    var sentInfo: nat
    var txInfo: nat
    var infoList: nat
    const info: array<Frame>
    var txCtrl: nat
    var ctrlList: nat
    const ctrl: array<Frame>
    var rest: Str

    ghost function Value(): Peer
      reads this, info, ctrl
    {
      Peer(state, reject, busy, peerBusy, config, cmdAddr, rspAddr, vs, va, vr, rtx, timer,
           txWin, terms, sentInfo, txInfo, infoList, info[..], txCtrl, ctrlList, ctrl[..], rest)
    }

    ghost predicate Inv()
      reads this, info, ctrl
    {
      info != ctrl && PeerInv(Value())
    }

    /** An idle peer with empty rings. */
    constructor (caller: bool, sizes: X.Sizes, offer: X.Comp)
      ensures Inv() && fresh(info) && fresh(ctrl) && state == IDLE && timer == 0 && !config
      ensures SizesOf(Value()) == sizes && terms.comp == offer
      ensures (cmdAddr, rspAddr) == if caller then (3, 1) else (1, 3)
      ensures vs == va == vr == 0 && sentInfo == txInfo == infoList && txCtrl == ctrlList && rest == [] && !busy
              && !peerBusy && !reject && infoList == 0 && ctrlList == 0
      ensures forall i :: 0 <= i < info.Length ==> info[i] == I(0, 0, 0, false, [])
      ensures forall i :: 0 <= i < ctrl.Length ==> ctrl[i] == U(0, OTHER, false)
    {
      state, reject, busy, peerBusy, config := IDLE, false, false, false, false;
      cmdAddr := if caller then 3 else 1;
      rspAddr := if caller then 1 else 3;
      vs, va, vr, rtx, timer := 0, 0, 0, 0, 0;
      txWin, terms := sizes.txWin, Terms(sizes.rxWin, sizes.txInfo, sizes.rxInfo, offer);
      sentInfo, txInfo, infoList, txCtrl, ctrlList, rest := 0, 0, 0, 0, 0, [];
      info := new Frame[INFO_SLOTS](i => I(0, 0, 0, false, []));
      ctrl := new Frame[CTRL_SLOTS](i => U(0, OTHER, false));
    }

    /** The values of the fields at this moment. */
    method Snapshot() returns (p: Peer)
      requires Inv()
      ensures p == Value()
    {
      p := Peer(state, reject, busy, peerBusy, config, cmdAddr, rspAddr, vs, va, vr, rtx, timer,
                txWin, terms, sentInfo, txInfo, infoList, info[..], txCtrl, ctrlList, ctrl[..], rest);
    }

    function Sizes(): X.Sizes
      reads this
    {
      X.Sizes(terms.txSize, terms.rxSize, txWin, terms.rxWin)
    }

    // ----- state and timer -----

    method Enter(s: State)
      requires Inv()
      modifies `state
      ensures Inv() && Value() == old(Value()).(state := s)
    {
      state := s;
    }

    method StartTimer()
      requires Inv()
      modifies `rtx, `timer
      ensures Inv() && Value() == Start(old(Value()))
    {
      rtx, timer := 0, T401;
    }

    method StopTimer()
      requires Inv()
      modifies `rtx, `timer
      ensures Inv() && Value() == Stop(old(Value()))
    {
      rtx, timer := 0, 0;
    }

    method SetCount(n: nat)
      requires Inv()
      modifies `rtx
      ensures Inv() && Value() == old(Value()).(rtx := n)
    {
      rtx := n;
    }

    method SetTimer(n: nat)
      requires Inv()
      modifies `timer
      ensures Inv() && Value() == old(Value()).(timer := n)
    {
      timer := n;
    }

    method SetBusy(b: bool)
      requires Inv()
      modifies `busy
      ensures Inv() && Value() == old(Value()).(busy := b)
    {
      busy := b;
    }

    method SetConfig(b: bool)
      requires Inv()
      modifies `config
      ensures Inv() && Value() == old(Value()).(config := b)
    {
      config := b;
    }

    // ----- control frames -----

    method TxCtrl(f: Frame)
      requires Inv()
      modifies `ctrlList, ctrl
      ensures Inv() && Value() == L.TxCtrl(old(Value()), f)
    {
      if (ctrlList + 1) % CTRL_SLOTS != txCtrl {
        ctrl[ctrlList] := f;
        ctrlList := (ctrlList + 1) % CTRL_SLOTS;
      }
    }

    method TxSuper(addr: nat, super: Super, pf: bool)
      requires Inv()
      modifies `ctrlList, ctrl
      ensures Inv() && Value() == L.TxSuper(old(Value()), addr, super, pf)
    {
      hide PeerInv, L.TxCtrl;
      TxCtrl(S(addr, super, vr, pf));
    }

    method TxStatus(addr: nat, pf: bool)
      requires Inv()
      modifies `ctrlList, ctrl
      ensures Inv() && Value() == L.TxStatus(old(Value()), addr, pf)
    {
      hide PeerInv, L.TxCtrl;
      if busy {
        TxSuper(addr, RNR, pf);
      } else {
        TxSuper(addr, RR, pf);
      }
    }

    method Disconnect()
      requires Inv()
      modifies this, ctrl
      ensures Inv() && Value() == L.Disconnect(old(Value()))
    {
      hide PeerInv, L.TxCtrl;
      Enter(DISC);
      TxCtrl(U(cmdAddr, DISCONNECT, true));
      StartTimer();
    }

    method Reset()
      requires Inv()
      modifies this
      ensures Inv() && Value() == L.Reset(old(Value()))
    {
      hide PeerInv;
      ghost var p := Value();
      ForgetFrames();
      busy, peerBusy := false, false;
      vr := 0;
      assert Value() == L.Reset(p);
    }

    method ForgetFrames()
      requires Inv()
      modifies `vs, `va, `sentInfo, `txInfo
      ensures Inv() && Value() == old(Value()).(vs := 0, va := 0, sentInfo := old(infoList), txInfo := old(infoList))
    {
      vs, va := 0, 0;
      sentInfo, txInfo := infoList, infoList;
    }

    /** Ask the other end to connect; nothing unless the link is idle. */
    method Connect()
      requires Inv()
      modifies this, ctrl
      ensures Inv() && Value() == L.Connect(old(Value()))
    {
      hide PeerInv, L.TxCtrl;
      if state != IDLE {
        return;
      }
      Reset();
      Enter(ESTAB);
      TxCtrl(U(cmdAddr, SABME, true));
      StartTimer();
    }

    // ----- negotiation -----

    /** Take over what a received XID frame proposes. */
    method HeedXid(fi: byte, groups: Str)
      requires Inv()
      modifies this
      ensures Inv() && Value() == L.HeedXid(old(Value()), fi, groups)
    {
      hide X.Groups, X.UpdateComp;
      ghost var sizes := SizesOf(Value());
      // the address is not looked at
      var r := X.RxXid(Sizes(), [0, X.FRAME_U_XID, fi] + groups, 0);
      XidFrame(sizes, fi, groups);
      match r {
        case Refused =>
        case Parsed(s, c) =>
          txWin, terms := s.txWin, Terms(s.rxWin, s.txInfo, s.rxInfo, X.UpdateComp(terms.comp, c));
      }
    }

    method TxXid(addr: nat)
      requires Inv()
      modifies `ctrlList, ctrl
      ensures Inv() && Value() == L.TxXid(old(Value()), addr)
    {
      hide PeerInv, L.TxCtrl;
      TxCtrl(U(addr, XID(X.FI_GENERAL, X.Offer(Sizes(), terms.comp)), false));
    }

    /** Negotiate; a connected peer holds the other end meanwhile. */
    method Configure()
      requires Inv()
      modifies this, ctrl
      ensures Inv() && Value() == L.Configure(old(Value()))
    {
      hide PeerInv, L.TxXid, L.TxSuper;
      SetConfig(true);
      if state == DATA {
        SetBusy(true);
        TxSuper(cmdAddr, RNR, true);
      }
      TxXid(cmdAddr);
      StartTimer();
    }

    /** The answer to an XID command. */
    method Configured(fi: byte, groups: Str)
      requires Inv()
      modifies this, ctrl
      ensures Inv() && Value() == L.Configured(old(Value()), fi, groups)
    {
      hide PeerInv, L.HeedXid, L.TxSuper, L.Connect;
      HeedXid(fi, groups);
      SetConfig(false);
      StopTimer();
      if state == IDLE {
        Connect();
      } else if state == DATA {
        SetBusy(false);
        TxSuper(cmdAddr, RR, false);
      }
    }

    // ----- information frames -----

    /** Make sure that a frame is ready to send, filling a slot with `chars` if need be. */
    method TxInfo(chars: Str) returns (ready: bool)
      requires Inv()
      modifies `infoList, info
      ensures Inv() && (Value(), ready) == L.TxInfo(old(Value()), chars)
    {
      if peerBusy || (vs - va) % 128 >= txWin {
        return false;
      }
      if txInfo == infoList {
        var next := (infoList + 1) % INFO_SLOTS;
        if next == txInfo || next == sentInfo || chars == [] {
          return false;
        }
        info[infoList] := info[infoList].(info := chars);
        infoList := next;
      }
      return true;
    }

    method RejectInfo()
      requires Inv()
      modifies `vs, `txInfo
      ensures Inv() && Value() == L.RejectInfo(old(Value()))
    {
      if state == DATA {
        vs := va;
        txInfo := sentInfo;
      }
    }

    method ReleaseOne()
      requires Inv()
      modifies `sentInfo, `va
      ensures Inv() && Value() == old(Value()).(sentInfo := NextI(old(sentInfo)), va := (old(va) + 1) % 128)
    {
      sentInfo := (sentInfo + 1) % INFO_SLOTS;
      va := (va + 1) % 128;
    }

    /** Release acknowledged frames; an acknowledgement never reaches beyond what was sent. */
    method ReleaseFrames(nr: nat) returns (n: nat)
      requires Inv()
      modifies `sentInfo, `va
      ensures Inv() && Value() == Release(old(Value()), nr) && (n > 0 <==> va != old(va))
    {
      hide InRing, PeerInv, Release, NextI;
      ghost var p := Value();
      n := 0;
      CountBound(p);
      while va != nr && sentInfo != txInfo
        invariant Inv() && Release(p, nr) == Release(Value(), nr)
        invariant n + InRing(Value()) == InRing(p) && va == (p.va + n) % 128
        decreases InRing(Value())
      {
        ReleaseStep(Value(), nr);
        CountStep(p, n);
        ReleaseOne();
        n := n + 1;
      }
      Moved(p, n);
      ReleaseDone(Value(), nr);
    }

    method AckInfo(nr: nat)
      requires Inv()
      modifies this, ctrl
      ensures Inv() && Value() == L.AckInfo(old(Value()), nr)
    {
      hide PeerInv, L.Disconnect, Release;
      if (vs - va) % 128 > txWin {
        Disconnect();
        return;
      }
      var n := ReleaseFrames(nr);
      if n > 0 && rtx == 0 {
        StopTimer();
        if (vs - va) % 128 != 0 {
          StartTimer();
        }
      }
    }

    // ----- reception -----

    /** Keep what the consumer did not take, and turn busy. */
    method KeepRest(left: Str)
      requires Inv()
      modifies `rest, `busy
      ensures Inv() && Value() == old(Value()).(rest := left, busy := true)
    {
      rest := left;
      busy := true;
    }

    /** The frame in sequence; `k` of its characters have been taken. */
    method AcceptInfo(f: Frame, k: nat, chars: Str)
      requires Inv() && f.I? && k <= |f.info| && !busy && f.ns == vr
      modifies this, info, ctrl
      ensures Inv()
      ensures Value() ==
              var p1 := old(Value()).(reject := false, vr := (old(vr) + 1) % 128);
              if k != |f.info| then L.TxSuper(p1.(rest := f.info[k..], busy := true), f.addr, RNR, f.pf)
              else if p1.peerBusy || f.pf then L.TxSuper(p1, f.addr, RR, f.pf)
              else if L.TxInfo(p1, chars).1 then L.TxInfo(p1, chars).0
              else L.TxSuper(L.TxInfo(p1, chars).0, f.addr, RR, f.pf)
    {
      hide L.TxSuper, L.TxInfo;
      reject := false;
      if k != |f.info| {
        KeepRest(f.info[k..]);
      }
      vr := (vr + 1) % 128;
      if busy {
        TxSuper(f.addr, RNR, f.pf);
      } else if peerBusy || f.pf {
        TxSuper(f.addr, RR, f.pf);
      } else {
        var ready := TxInfo(chars);
        if !ready {
          TxSuper(f.addr, RR, f.pf);
        }
      }
    }

    method RxInfo(f: Frame, k: nat, chars: Str)
      requires Inv() && f.I? && k <= |f.info|
      modifies this, info, ctrl
      ensures Inv() && Value() == L.RxInfo(old(Value()), f, k, chars)
    {
      hide L.TxSuper, L.TxInfo, L.AckInfo;
      AckInfo(f.nr);
      if busy {
        if f.pf {
          TxSuper(rspAddr, RNR, true);
        }
      } else if f.ns != vr {
        if !reject {
          TxSuper(rspAddr, REJ, f.pf);
          reject := true;
        }
      } else {
        AcceptInfo(f, k, chars);
      }
    }

    method Reply(f: Frame, chars: Str)
      requires Inv() && f.S?
      modifies this, info, ctrl
      ensures Inv() && Value() == L.Reply(old(Value()), f, chars)
    {
      hide PeerInv, L.TxStatus, L.TxInfo;
      if f.pf {
        TxStatus(f.addr, true);
      } else {
        var ready := TxInfo(chars);
        if !ready {
          TxStatus(f.addr, false);
        }
      }
    }

    method RxSuperCmd(f: Frame, chars: Str)
      requires Inv() && f.S?
      modifies this, info, ctrl
      ensures Inv() && Value() == L.RxSuperCmd(old(Value()), f, chars)
    {
      hide PeerInv, L.TxStatus, L.Reply, L.AckInfo;
      match f.super {
        case RR =>
          Hear(false, f.nr);
          Reply(f, chars);
        case RNR =>
          Hear(true, f.nr);
          if f.pf {
            TxStatus(rspAddr, true);
          }
        case REJ =>
          Hear(false, f.nr);
          if rtx == 0 {
            StopTimer();
            RejectInfo();
          }
          Reply(f, chars);
        case SREJ =>
      }
    }

    /** Note the peer's condition and what it acknowledges. */
    method Hear(isBusy: bool, nr: nat)
      requires Inv()
      modifies this, ctrl
      ensures Inv() && Value() == L.AckInfo(old(Value()).(peerBusy := isBusy), nr)
    {
      hide L.AckInfo;
      peerBusy := isBusy;
      AckInfo(nr);
    }

    /** Send again from the oldest unacknowledged frame, with the timer stopped. */
    method GoBack()
      requires Inv()
      modifies this
      ensures Inv() && Value() == Stop(L.RejectInfo(old(Value())))
    {
      RejectInfo();
      StopTimer();
    }

    method RxSuperRsp(f: Frame)
      requires Inv() && f.S?
      modifies this, ctrl
      ensures Inv() && Value() == L.RxSuperRsp(old(Value()), f)
    {
      hide PeerInv, L.AckInfo, L.RejectInfo;
      if rtx == 0 && f.pf {
        return;
      }
      match f.super {
        case RR =>
          Hear(false, f.nr);
          if rtx != 0 && f.pf {
            GoBack();
          }
        case RNR =>
          Hear(true, f.nr);
          if rtx != 0 && f.pf {
            GoBack();
          }
          if rtx == 0 {
            StartTimer();
          }
        case REJ =>
          Hear(false, f.nr);
          if rtx == 0 || f.pf {
            GoBack();
          }
        case SREJ =>
      }
    }

    method RxUnnumCmd(f: Frame)
      requires Inv() && f.U?
      modifies this, ctrl
      ensures Inv() && Value() == L.RxUnnumCmd(old(Value()), f)
    {
      hide PeerInv, L.TxCtrl, L.HeedXid, L.TxXid;
      match f.unnum {
        case XID(fi, groups) =>
          HeedXid(fi, groups);
          TxXid(rspAddr);
        case SABME =>
          Reset();
          Enter(DATA);
          TxCtrl(U(rspAddr, UA, f.pf));
          StopTimer();
        case DISCONNECT =>
          if state == IDLE {
            TxCtrl(U(rspAddr, DM, false));
          } else {
            Enter(IDLE);
            Reset();
            TxCtrl(U(rspAddr, UA, f.pf));
            StopTimer();
          }
        case UA =>
        case DM =>
        case OTHER =>
      }
    }

    method RxUnnumRsp(f: Frame)
      requires Inv() && f.U?
      modifies this, ctrl
      ensures Inv() && Value() == L.RxUnnumRsp(old(Value()), f)
    {
      hide PeerInv, L.Configured;
      match f.unnum {
        case XID(fi, groups) =>
          if config {
            Configured(fi, groups);
          }
        case DM =>
          if (state == ESTAB || state == DISC) && f.pf {
            Enter(IDLE);
            Reset();
            StopTimer();
          } else if state == DATA && (rtx != 0 || !f.pf) {
            Enter(IDLE);
            Reset();
          }
        case UA =>
          if state == ESTAB {
            Enter(DATA);
            Reset();
            StopTimer();
          } else if state == DISC {
            Enter(IDLE);
            Reset();
            StopTimer();
          }
        case SABME =>
        case DISCONNECT =>
        case OTHER =>
      }
    }

    /** A frame from the line. */
    method Receive(f: Frame, k: nat, chars: Str)
      requires Inv() && (f.I? ==> k <= |f.info|)
      modifies this, info, ctrl
      ensures Inv() && Value() == L.Receive(old(Value()), f, k, chars)
    {
      hide PeerInv, L.RxInfo, L.RxSuperCmd, L.RxSuperRsp, L.RxUnnumCmd, L.RxUnnumRsp;
      if f.U? {
        if f.addr == rspAddr {
          RxUnnumCmd(f);
        } else {
          RxUnnumRsp(f);
        }
        return;
      }
      if state == ESTAB {
        Reset();
        Enter(DATA);
      } else if state == DISC {
        Reset();
        Enter(IDLE);
      }
      if state == DATA {
        if f.I? {
          RxInfo(f, k, chars);
        } else if f.addr == rspAddr {
          RxSuperCmd(f, chars);
        } else {
          RxSuperRsp(f);
        }
      }
    }

    // ----- transmission, time, busy recovery -----

    /** Write the header of the next frame and move on. */
    method SendInfo() returns (slot: nat)
      requires Inv()
      modifies this, info
      ensures Inv() && slot == old(txInfo)
      ensures Value() ==
              var p := old(Value());
              var f := p.info[p.txInfo].(addr := p.cmdAddr, ns := p.vs, nr := p.vr, pf := false);
              var p2 := p.(info := p.info[p.txInfo := f], txInfo := NextI(p.txInfo), vs := (p.vs + 1) % 128);
              if p2.timer == 0 then Start(p2) else p2
    {
      slot := txInfo;
      info[slot] := info[slot].(addr := cmdAddr, ns := vs, nr := vr, pf := false);
      txInfo := (txInfo + 1) % INFO_SLOTS;
      vs := (vs + 1) % 128;
      if timer == 0 {
        StartTimer();
      }
    }

    /** The slot of the next frame to transmit, control frames first. */
    method GetTxFrame(chars: Str) returns (g: Grant)
      requires Inv()
      modifies this, info
      ensures Inv() && (Value(), g) == L.GetTxFrame(old(Value()), chars)
    {
      hide L.TxInfo;
      if txCtrl != ctrlList {
        g := Ctrl(txCtrl);
        txCtrl := (txCtrl + 1) % CTRL_SLOTS;
        return;
      }
      if peerBusy || config || state != DATA {
        return Nothing;
      }
      if txInfo == infoList {
        var ready := TxInfo(chars);
        if !ready {
          return Nothing;
        }
      }
      var slot := SendInfo();
      return Info(slot);
    }

    /** T401 has expired. */
    method Timeout()
      requires Inv()
      modifies this, ctrl
      ensures Inv() && Value() == L.Timeout(old(Value()))
    {
      hide PeerInv, L.TxCtrl, L.TxStatus, L.Disconnect, L.TxXid;
      if rtx > MAX_RTX {
        SetCount(0);
        match state {
          case ESTAB => Enter(IDLE);
          case DISC => Enter(IDLE);
          case DATA => Disconnect();
          case IDLE =>
        }
        return;
      }
      SetCount(rtx + 1);
      if config {
        TxXid(cmdAddr);
      } else {
        match state {
          case ESTAB => TxCtrl(U(cmdAddr, SABME, true));
          case DISC => TxCtrl(U(cmdAddr, DISCONNECT, true));
          case DATA => TxStatus(cmdAddr, true);
          case IDLE =>
        }
      }
      SetTimer(T401);
    }

    /** `n` bits have gone by. */
    method Elapse(n: nat)
      requires Inv()
      modifies this, ctrl
      ensures Inv() && Value() == L.Elapse(old(Value()), n)
    {
      hide L.Timeout;
      if timer != 0 {
        if timer <= n {
          timer := 0;
          Timeout();
        } else {
          timer := timer - n;
        }
      }
    }

    /** Hand over more of the rest; the consumer takes `k` characters. */
    method PushRest(k: nat)
      requires Inv() && k <= |rest|
      modifies this, ctrl
      ensures Inv() && Value() == L.PushRest(old(Value()), k)
    {
      hide L.TxSuper;
      if state == DATA && k > 0 {
        rest := rest[k..];
        if rest == [] {
          busy := false;
          TxSuper(cmdAddr, RR, false);
        }
      }
    }
  }

  lemma XidFrame(sizes: X.Sizes, fi: byte, groups: Str)
    ensures X.Receive(sizes, [0, X.FRAME_U_XID, fi] + groups, 0) == X.Heed(sizes, fi, groups)
  {
    hide X.Heed;
    assert ([0, X.FRAME_U_XID, fi] + groups)[3..] == groups;
  }

  lemma CountBound(p: Peer)
    requires PeerInv(p)
    ensures (p.va + 0) % 128 == p.va
  {}

  lemma CountStep(p: Peer, n: nat)
    ensures (p.va + n + 1) % 128 == ((p.va + n) % 128 + 1) % 128
  {}

  lemma ReleaseStep(p: Peer, nr: nat)
    requires PeerInv(p) && p.va != nr && p.sentInfo != p.txInfo
    ensures var p1 := p.(sentInfo := NextI(p.sentInfo), va := (p.va + 1) % 128);
            PeerInv(p1) && Release(p, nr) == Release(p1, nr) && InRing(p1) == InRing(p) - 1
  {
    hide NextI;
    Nearer(p.sentInfo, p.txInfo);
  }

  lemma ReleaseDone(p: Peer, nr: nat)
    requires PeerInv(p) && (p.va == nr || p.sentInfo == p.txInfo)
    ensures Release(p, nr) == p
  {}

  lemma Moved(p: Peer, n: nat)
    requires PeerInv(p) && n <= InRing(p)
    ensures (p.va + n) % 128 != p.va <==> n > 0
  {}
}
