/**
 The rings of one LAPM peer under any frames at all: what every event keeps, and how long a slot
 that the HDLC transmitter is reading stays as it was.
 */
module LapmRing {
  import opened Words
  import opened Lapm
  import X = Xid

  datatype Event =
    | Draw(chars: Str)                      // the HDLC transmitter asks for a frame
    | Hear(f: Frame, k: nat, chars: Str)    // a frame arrives, of whatever sender
    | Tick(n: nat)                          // `n` bits go by
    | Push(k: nat)                          // the busy receiver hands over characters
    | Negotiate                             // the local user sends an XID command
    | Dial                                  // the local user connects
    | Hangup                                // the local user disconnects

  function Next(p: Peer, e: Event): (r: Peer)
    requires PeerInv(p)
    ensures PeerInv(r)
  {
    match e
    case Draw(chars) => GetTxFrame(p, chars).0
    case Hear(f, k, chars) => if f.I? && k > |f.info| then p else Receive(p, f, k, chars)
    case Tick(n) => Elapse(p, n)
    case Push(k) => if k <= |p.rest| then PushRest(p, k) else p
    case Negotiate => Configure(p)
    case Dial => Connect(p)
    case Hangup => Disconnect(p)
  }

  function Run(p: Peer, es: seq<Event>): (r: Peer)
    requires PeerInv(p)
    ensures PeerInv(r)
    decreases es
  {
    if es == [] then p else Run(Next(p, es[0]), es[1..])
  }

  /** Slots between the oldest unacknowledged frame and the next one to fill. */
  function Filled(p: Peer): nat
  {
    (p.infoList - p.sentInfo) % INFO_SLOTS
  }

  /** The frames sent are as many as the sequence numbers say, and none was sent before it was filled. */
  predicate RingOk(p: Peer)
  {
    PeerInv(p) && Outstanding(p) == InRing(p) && InRing(p) <= Filled(p) <= p.txWin
  }

  // ----- what an event does to the information ring -----

  /** No slot is written, and the ring does not become drained. */
  predicate Calm(p: Peer, r: Peer)
  {
    && RingOk(r) && r.info == p.info && r.infoList == p.infoList
    && (r.txInfo == r.infoList ==> p.txInfo == p.infoList)
  }

  /** The next slot, and no other, is filled, out of a drained ring that is then no longer drained. */
  predicate Fill(p: Peer, r: Peer, chars: Str)
  {
    && RingOk(r) && p.txInfo == p.infoList && PeerInv(p)
    && r.info == p.info[p.infoList := p.info[p.infoList].(info := chars)]
    && r.infoList == NextI(p.infoList) && r.txInfo != r.infoList
  }

  predicate Quiet(p: Peer, r: Peer, chars: Str)
  {
    Calm(p, r) || Fill(p, r, chars)
  }

  lemma CalmQuiet(p: Peer, q: Peer, r: Peer, chars: Str)
    requires PeerInv(p) && Calm(p, q) && Quiet(q, r, chars)
    ensures Quiet(p, r, chars)
  {}

  lemma QuietCalm(p: Peer, q: Peer, r: Peer, chars: Str)
    requires Quiet(p, q, chars) && Calm(q, r)
    ensures Quiet(p, r, chars)
  {}

  lemma CalmCalm(p: Peer, q: Peer, r: Peer)
    requires Calm(p, q) && Calm(q, r)
    ensures Calm(p, r)
  {}

  /** Everything but the ring may change, and the window unless it gets too small. */
  lemma SameRing(p: Peer, r: Peer)
    requires RingOk(p) && PeerInv(r)
    requires (r.txWin >= p.txWin || r.txWin >= X.DFLT_WIN) && r.info == p.info && r.infoList == p.infoList
    requires r.txInfo == p.txInfo && r.sentInfo == p.sentInfo && r.vs == p.vs && r.va == p.va
    ensures Calm(p, r)
  {}

  lemma CtrlCalm(p: Peer, f: Frame)
    requires RingOk(p)
    ensures Calm(p, TxCtrl(p, f))
  {
    SameRing(p, TxCtrl(p, f));
  }

  lemma StatusCalm(p: Peer, addr: nat, pf: bool)
    requires RingOk(p)
    ensures Calm(p, TxStatus(p, addr, pf))
  {
    CtrlCalm(p, S(addr, if p.busy then RNR else RR, p.vr, pf));
  }

  lemma ResetRing(p: Peer)
    requires PeerInv(p)
    ensures RingOk(Reset(p)) && Reset(p).txInfo == Reset(p).infoList
    ensures Reset(p).info == p.info && Reset(p).infoList == p.infoList && Reset(p).txWin == p.txWin
  {}

  lemma Farther(a: nat, b: nat)
    requires a < INFO_SLOTS && b < INFO_SLOTS && NextI(b) != a
    ensures (NextI(b) - a) % INFO_SLOTS == (b - a) % INFO_SLOTS + 1
  {}

  lemma InfoFill(p: Peer, chars: Str)
    requires RingOk(p) && TxInfo(p, chars).0 != p
    ensures Fill(p, TxInfo(p, chars).0, chars)
  {
    hide NextI;
    var r := TxInfo(p, chars).0;
    Farther(p.sentInfo, p.infoList);
    assert Filled(r) == Filled(p) + 1;
  }

  lemma InfoQuiet(p: Peer, chars: Str)
    requires RingOk(p)
    ensures Quiet(p, TxInfo(p, chars).0, chars)
  {
    hide TxInfo, Fill;
    var r := TxInfo(p, chars).0;
    if r == p {
      SameRing(p, r);
    } else {
      InfoFill(p, chars);
    }
  }

  lemma RejectCalm(p: Peer)
    requires RingOk(p)
    ensures Calm(p, RejectInfo(p))
  {}

  lemma ReleaseOneCalm(p: Peer)
    requires RingOk(p) && p.sentInfo != p.txInfo
    ensures var r := p.(sentInfo := NextI(p.sentInfo), va := (p.va + 1) % 128);
            Calm(p, r) && InRing(r) == InRing(p) - 1
  {
    var r := p.(sentInfo := NextI(p.sentInfo), va := (p.va + 1) % 128);
    OneReleased(p, r);
    hide Filled, InRing, Outstanding, NextI;
  }

  lemma OneReleased(p: Peer, r: Peer)
    requires RingOk(p) && p.sentInfo != p.txInfo
    requires r == p.(sentInfo := NextI(p.sentInfo), va := (p.va + 1) % 128)
    ensures InRing(r) == InRing(p) - 1 && Outstanding(r) == Outstanding(p) - 1 && Filled(r) == Filled(p) - 1
    ensures r.sentInfo < INFO_SLOTS && r.va < 128
  {
    hide NextI;
    Nearer(p.sentInfo, p.txInfo);
    OneLess(p.va, p.vs);
    NotEmpty(p.sentInfo, p.txInfo, p.infoList);
    Nearer(p.sentInfo, p.infoList);
  }

  lemma NotEmpty(a: nat, b: nat, c: nat)
    requires a < INFO_SLOTS && b < INFO_SLOTS && a != b && (b - a) % INFO_SLOTS <= (c - a) % INFO_SLOTS
    ensures a != c
  {}

  lemma OneLess(va: nat, vs: nat)
    requires va < 128 && vs < 128 && (vs - va) % 128 > 0
    ensures (vs - (va + 1) % 128) % 128 == (vs - va) % 128 - 1
  {}

  /** Whatever NR says, V(A) moves by the number of frames released, and no unsent frame is released. */
  lemma {:induction false} ReleaseExact(p: Peer, nr: nat) returns (n: nat)
    requires RingOk(p)
    ensures var r := Release(p, nr);
            && Calm(p, r) && n <= InRing(p) && InRing(r) == InRing(p) - n
            && r == p.(sentInfo := (p.sentInfo + n) % INFO_SLOTS, va := (p.va + n) % 128)
            && (n == InRing(p) || r.va == nr)
    decreases InRing(p)
  {
    hide RingOk, Calm, PeerInv, InRing, NextI;
    PeerOf(p);
    if p.va == nr || p.sentInfo == p.txInfo {
      SameRing(p, p);
      n := 0;
    } else {
      var p1 := p.(sentInfo := NextI(p.sentInfo), va := (p.va + 1) % 128);
      ReleaseOneCalm(p);
      CalmOk(p, p1);
      var n1 := ReleaseExact(p1, nr);
      n := n1 + 1;
      Steps(p.sentInfo, p.va, n1);
      CalmCalm(p, p1, Release(p1, nr));
    }
  }

  lemma Steps(slot: nat, va: nat, n: nat)
    ensures (NextI(slot) + n) % INFO_SLOTS == (slot + n + 1) % INFO_SLOTS
    ensures ((va + 1) % 128 + n) % 128 == (va + n + 1) % 128
  {}

  lemma PeerOf(p: Peer)
    requires RingOk(p)
    ensures p.sentInfo % INFO_SLOTS == p.sentInfo && p.va % 128 == p.va && (InRing(p) == 0 <==> p.sentInfo == p.txInfo)
    ensures PeerInv(p) && Outstanding(p) == InRing(p) && Outstanding(p) <= p.txWin
  {}

  lemma CalmOk(p: Peer, r: Peer)
    requires Calm(p, r)
    ensures RingOk(r) && PeerInv(r)
  {}

  /** No acknowledgement is ever answered by a disconnection. */
  lemma AckCalm(p: Peer, nr: nat)
    requires RingOk(p)
    ensures Calm(p, AckInfo(p, nr)) && AckInfo(p, nr).state == p.state
  {
    hide RingOk, Calm, Release, Disconnect, PeerInv;
    PeerOf(p);
    var n := ReleaseExact(p, nr);
    var r := Release(p, nr);
    CalmOk(p, r);
    TimerCalm(r, 0, T401);
    TimerCalm(r, 0, 0);
    CalmCalm(p, r, Start(r));
    CalmCalm(p, r, Stop(r));
  }

  lemma TimerCalm(p: Peer, rtx: nat, timer: nat)
    requires RingOk(p)
    ensures Calm(p, p.(rtx := rtx, timer := timer))
  {}

  lemma FlagsCalm(p: Peer, state: State, reject: bool, busy: bool, peerBusy: bool, vr: nat, rest: Str)
    requires RingOk(p) && vr < 128
    ensures Calm(p, p.(state := state, reject := reject, busy := busy, peerBusy := peerBusy, vr := vr, rest := rest))
  {}

  lemma BackCalm(p: Peer)
    requires RingOk(p)
    ensures Calm(p, Stop(RejectInfo(p))) && Calm(p, RejectInfo(Stop(p))) && Calm(p, Start(Stop(RejectInfo(p))))
  {
    hide RingOk, Calm, RejectInfo, PeerInv;
    PeerOf(p);
    RejectCalm(p);
    var r := RejectInfo(p);
    CalmOk(p, r);
    TimerCalm(r, 0, 0);
    TimerCalm(r, 0, T401);
    CalmCalm(p, r, Stop(r));
    CalmCalm(p, r, Start(r));
    TimerCalm(p, 0, 0);
    CalmOk(p, Stop(p));
    RejectCalm(Stop(p));
    CalmCalm(p, Stop(p), RejectInfo(Stop(p)));
  }

  lemma ReplyQuiet(p: Peer, f: Frame, chars: Str)
    requires RingOk(p) && f.S?
    ensures Quiet(p, Reply(p, f, chars), chars)
  {
    hide RingOk, Calm, Fill, TxStatus, TxInfo, PeerInv;
    PeerOf(p);
    if f.pf {
      StatusCalm(p, f.addr, true);
    } else {
      InfoQuiet(p, chars);
      var (p1, ready) := TxInfo(p, chars);
      QuietOk(p, p1, chars);
      StatusCalm(p1, f.addr, false);
      QuietCalm(p, p1, TxStatus(p1, f.addr, false), chars);
    }
  }

  lemma QuietOk(p: Peer, r: Peer, chars: Str)
    requires Quiet(p, r, chars)
    ensures RingOk(r)
  {}

  /** The part common to all supervisory frames. */
  lemma HeardCalm(p: Peer, isBusy: bool, nr: nat)
    requires RingOk(p)
    ensures PeerInv(p.(peerBusy := isBusy)) && Calm(p, AckInfo(p.(peerBusy := isBusy), nr))
  {
    hide RingOk, Calm, AckInfo, PeerInv;
    var p0 := p.(peerBusy := isBusy);
    SmallVr(p);
    FlagsCalm(p, p.state, p.reject, p.busy, isBusy, p.vr, p.rest);
    CalmOk(p, p0);
    AckCalm(p0, nr);
    CalmCalm(p, p0, AckInfo(p0, nr));
  }

  lemma SmallVr(p: Peer)
    requires RingOk(p)
    ensures p.vr < 128 && (p.vr + 1) % 128 < 128
  {}

  lemma SuperCmdQuiet(p: Peer, f: Frame, chars: Str)
    requires RingOk(p) && f.S?
    ensures PeerInv(p) && Quiet(p, RxSuperCmd(p, f, chars), chars)
  {
    hide RingOk, Calm, Fill, Quiet, AckInfo, PeerInv, TxStatus, Reply, RejectInfo;
    PeerOf(p);
    HeardCalm(p, f.super == RNR, f.nr);
    var p1 := AckInfo(p.(peerBusy := f.super == RNR), f.nr);
    CalmOk(p, p1);
    match f.super
    case RR =>
      ReplyQuiet(p1, f, chars);
      CalmQuiet(p, p1, Reply(p1, f, chars), chars);
    case RNR =>
      StatusCalm(p1, p1.rspAddr, true);
      CalmCalm(p, p1, TxStatus(p1, p1.rspAddr, true));
      IsQuiet(p, RxSuperCmd(p, f, chars), chars);
    case REJ =>
      BackCalm(p1);
      TimerCalm(p1, 0, 0);
      CalmOk(p1, Stop(p1));
      var p2 := if p1.rtx == 0 then RejectInfo(Stop(p1)) else p1;
      SameRing(p1, p1);
      CalmCalm(p, p1, p2);
      CalmOk(p, p2);
      ReplyQuiet(p2, f, chars);
      CalmQuiet(p, p2, Reply(p2, f, chars), chars);
    case SREJ =>
      SameRing(p, p);
      IsQuiet(p, p, chars);
  }

  lemma IsQuiet(p: Peer, r: Peer, chars: Str)
    requires Calm(p, r)
    ensures Quiet(p, r, chars)
  {}

  lemma SuperRspCalm(p: Peer, f: Frame)
    requires RingOk(p) && f.S?
    ensures PeerInv(p) && Calm(p, RxSuperRsp(p, f))
  {
    hide RingOk, Calm, AckInfo, PeerInv, RejectInfo;
    PeerOf(p);
    SameRing(p, p);
    HeardCalm(p, f.super == RNR, f.nr);
    var p1 := AckInfo(p.(peerBusy := f.super == RNR), f.nr);
    CalmOk(p, p1);
    BackCalm(p1);
    CalmCalm(p, p1, Stop(RejectInfo(p1)));
    CalmCalm(p, p1, Start(Stop(RejectInfo(p1))));
    TimerCalm(p1, 0, T401);
    CalmCalm(p, p1, Start(p1));
  }

  lemma SuperCalm(p: Peer, addr: nat, super: Super, pf: bool)
    requires RingOk(p)
    ensures Calm(p, TxSuper(p, addr, super, pf))
  {
    CtrlCalm(p, S(addr, super, p.vr, pf));
  }

  /** After the acknowledgement, an information frame that is not taken. */
  lemma RefuseCalm(p: Peer, f: Frame)
    requires RingOk(p) && f.I?
    ensures PeerInv(p) && Calm(p, TxSuper(p, p.rspAddr, RNR, true)) && Calm(p, p)
    ensures Calm(p, TxSuper(p, p.rspAddr, REJ, f.pf).(reject := true))
  {
    hide RingOk, Calm, PeerInv, TxSuper;
    PeerOf(p);
    SameRing(p, p);
    SuperCalm(p, p.rspAddr, RNR, true);
    SuperCalm(p, p.rspAddr, REJ, f.pf);
    var r := TxSuper(p, p.rspAddr, REJ, f.pf);
    CalmOk(p, r);
    SmallVr(r);
    FlagsCalm(r, r.state, true, r.busy, r.peerBusy, r.vr, r.rest);
    CalmCalm(p, r, r.(reject := true));
  }

  /** After the acknowledgement, an information frame in sequence. */
  lemma TakeQuiet(p: Peer, f: Frame, k: nat, chars: Str)
    requires RingOk(p) && f.I? && k <= |f.info| && PeerInv(p)
    ensures var p1 := p.(reject := false, vr := (p.vr + 1) % 128);
            var q := p1.(rest := f.info[k..], busy := true);
            PeerInv(p1) && PeerInv(q) && Calm(p, TxSuper(q, f.addr, RNR, f.pf))
              && Calm(p, TxSuper(p1, f.addr, RR, f.pf))
            && Quiet(p, TxInfo(p1, chars).0, chars) && Quiet(p, TxSuper(TxInfo(p1, chars).0, f.addr, RR, f.pf), chars)
  {
    hide RingOk, Calm, PeerInv, TxSuper, TxInfo, Quiet;
    SmallVr(p);
    var vr := (p.vr + 1) % 128;
    FlagsCalm(p, p.state, false, p.busy, p.peerBusy, vr, p.rest);
    FlagsCalm(p, p.state, false, true, p.peerBusy, vr, f.info[k..]);
    var p1 := p.(reject := false, vr := vr);
    var q := p1.(rest := f.info[k..], busy := true);
    CalmOk(p, p1);
    CalmOk(p, q);
    SuperCalm(q, f.addr, RNR, f.pf);
    CalmCalm(p, q, TxSuper(q, f.addr, RNR, f.pf));
    SuperCalm(p1, f.addr, RR, f.pf);
    CalmCalm(p, p1, TxSuper(p1, f.addr, RR, f.pf));
    InfoQuiet(p1, chars);
    var p2 := TxInfo(p1, chars).0;
    CalmQuiet(p, p1, p2, chars);
    QuietOk(p, p2, chars);
    SuperCalm(p2, f.addr, RR, f.pf);
    QuietCalm(p, p2, TxSuper(p2, f.addr, RR, f.pf), chars);
  }

  lemma RxInfoQuiet(p: Peer, f: Frame, k: nat, chars: Str)
    requires RingOk(p) && f.I? && k <= |f.info|
    ensures PeerInv(p) && Quiet(p, RxInfo(p, f, k, chars), chars)
  {
    hide RingOk, Calm, PeerInv, TxSuper, TxInfo, AckInfo, Fill;
    PeerOf(p);
    AckCalm(p, f.nr);
    var p1 := AckInfo(p, f.nr);
    CalmOk(p, p1);
    RefuseCalm(p1, f);
    var r := RxInfo(p, f, k, chars);
    if p1.busy || f.ns != p1.vr {
      CalmCalm(p, p1, r);
    } else {
      TakeQuiet(p1, f, k, chars);
      assert Quiet(p1, r, chars);
      CalmQuiet(p, p1, r, chars);
    }
  }

  // ----- events -----

  /** Whether the event makes the peer forget its frames. */
  predicate Resets(p: Peer, e: Event)
  {
    match e
    case Hear(f, k, _) =>
      if f.U? && f.addr == p.rspAddr then f.unnum == SABME || (f.unnum == DISCONNECT && p.state != IDLE)
      else if f.U? then
        || (f.unnum.XID? && p.config && p.state == IDLE)
        || (f.unnum == UA && p.state in {ESTAB, DISC})
        || (f.unnum == DM && p.state in {ESTAB, DISC} && f.pf)
        || (f.unnum == DM && p.state == DATA && (p.rtx != 0 || !f.pf))
      else p.state in {ESTAB, DISC} && (f.I? ==> k <= |f.info|)
    case Negotiate => false
    case Dial => p.state == IDLE
    case Draw(_) => false
    case Tick(_) => false
    case Push(_) => false
    case Hangup => false
  }

  function Chars(e: Event): Str
  {
    if e.Hear? then e.chars else []
  }

  /** Where the ring stands before the event fills anything. */
  function Anchor(p: Peer, e: Event): (r: Peer)
    requires PeerInv(p)
    ensures PeerInv(r)
  {
    if Resets(p, e) then Reset(p) else p
  }

  /** What a reset leaves, under any state, flags, timer and control queue. */
  lemma ResetCalm(p: Peer, r: Peer)
    requires PeerInv(p) && PeerInv(r)
    requires r.info == p.info && r.infoList == r.txInfo == r.sentInfo == p.infoList
    requires r.vs == r.va == 0
    ensures Calm(Reset(p), r)
  {}

  lemma StateIrrelevant(p: Peer, s: State)
    requires PeerInv(p)
    ensures PeerInv(p.(state := s))
  {}

  /** No XID frame makes the window smaller than what is in the ring. */
  lemma HeedCalm(p: Peer, fi: byte, groups: Str)
    requires RingOk(p)
    ensures PeerInv(p) && Calm(p, HeedXid(p, fi, groups)) && HeedXid(p, fi, groups).state == p.state
    ensures var q := HeedXid(p, fi, groups).(config := false);
            PeerInv(q) && Calm(p, q) && Calm(p, Stop(q)) && q.vr == p.vr
  {
    hide RingOk, Calm, PeerInv, X.Heed, X.UpdateComp;
    PeerOf(p);
    X.HeedKeepsWindow(SizesOf(p), fi, groups);
    var r := HeedXid(p, fi, groups);
    SameRing(p, r);
    ConfigIrrelevant(r);
    SameRing(p, r.(config := false));
    CalmOk(p, r.(config := false));
    TimerCalm(r.(config := false), 0, 0);
    CalmCalm(p, r.(config := false), Stop(r.(config := false)));
  }

  lemma ConfigIrrelevant(p: Peer)
    requires PeerInv(p)
    ensures PeerInv(p.(config := false)) && PeerInv(p.(config := true)) && PeerInv(p.(config := true, busy := true))
  {}

  lemma XidCmdCalm(p: Peer, f: Frame)
    requires RingOk(p) && f.U? && f.unnum.XID?
    ensures PeerInv(p) && Calm(p, RxUnnumCmd(p, f))
  {
    hide RingOk, Calm, PeerInv, TxCtrl, HeedXid, X.Offer;
    PeerOf(p);
    HeedCalm(p, f.unnum.fi, f.unnum.groups);
    var q := HeedXid(p, f.unnum.fi, f.unnum.groups);
    CalmOk(p, q);
    var answer := U(p.rspAddr, XID(X.FI_GENERAL, X.Offer(SizesOf(q), q.terms.comp)), false);
    CtrlCalm(q, answer);
    CalmCalm(p, q, TxCtrl(q, answer));
  }

  lemma ConfiguredCalm(p: Peer, f: Frame, k: nat, chars: Str)
    requires RingOk(p) && f.U? && f.unnum.XID? && p.config && f.addr != p.rspAddr
    ensures Calm(Anchor(p, Hear(f, k, chars)), Configured(p, f.unnum.fi, f.unnum.groups))
  {
    hide RingOk, Calm, PeerInv, TxSuper, HeedXid, Connect;
    PeerOf(p);
    HeedCalm(p, f.unnum.fi, f.unnum.groups);
    var q := Stop(HeedXid(p, f.unnum.fi, f.unnum.groups).(config := false));
    CalmOk(p, q);
    if q.state == IDLE {
      ConnectFrom(p, q);
    } else if q.state == DATA {
      SmallVr(q);
      FlagsCalm(q, q.state, q.reject, false, q.peerBusy, q.vr, q.rest);
      var q1 := q.(busy := false);
      CalmOk(q, q1);
      SuperCalm(q1, q.cmdAddr, RR, false);
      CalmCalm(q, q1, TxSuper(q1, q.cmdAddr, RR, false));
      CalmCalm(p, q, TxSuper(q1, q.cmdAddr, RR, false));
    }
  }

  lemma ConnectFrom(p: Peer, q: Peer)
    requires RingOk(p) && Calm(p, q) && q.state == IDLE
    ensures PeerInv(p) && PeerInv(q) && Calm(Reset(p), Connect(q))
  {
    hide RingOk, PeerInv;
    PeerOf(p);
    PeerOf(q);
    ResetCalm(p, Connect(q));
  }

  lemma NegotiateCalm(p: Peer)
    requires RingOk(p)
    ensures PeerInv(p) && Calm(p, Configure(p))
  {
    hide RingOk, Calm, PeerInv, TxCtrl, X.Offer;
    PeerOf(p);
    ConfigIrrelevant(p);
    var q := p.(config := true);
    TxCtrlOnly(q.(busy := true), S(p.cmdAddr, RNR, p.vr, true));
    var q1 := if p.state == DATA then TxSuper(q.(busy := true), p.cmdAddr, RNR, true) else q;
    TxCtrlOnly(q1, U(p.cmdAddr, XID(X.FI_GENERAL, X.Offer(SizesOf(q1), q1.terms.comp)), false));
    SameRing(p, Configure(p));
  }

  lemma UnnumCmdCalm(p: Peer, f: Frame, k: nat, chars: Str)
    requires RingOk(p) && f.U? && f.addr == p.rspAddr
    ensures Calm(Anchor(p, Hear(f, k, chars)), RxUnnumCmd(p, f))
  {
    hide RingOk, Calm, PeerInv, TxCtrl, HeedXid;
    PeerOf(p);
    if f.unnum.XID? {
      XidCmdCalm(p, f);
      return;
    }
    var r := RxUnnumCmd(p, f);
    StateIrrelevant(p, IDLE);
    StateIrrelevant(Reset(p), DATA);
    TxCtrlOnly(Reset(p).(state := DATA), U(p.rspAddr, UA, f.pf));
    TxCtrlOnly(Reset(p.(state := IDLE)), U(p.rspAddr, UA, f.pf));
    TxCtrlOnly(p, U(p.rspAddr, DM, false));
    if Resets(p, Hear(f, k, chars)) {
      ResetCalm(p, r);
    } else {
      SameRing(p, r);
    }
  }

  lemma UnnumRspCalm(p: Peer, f: Frame, k: nat, chars: Str)
    requires RingOk(p) && f.U? && f.addr != p.rspAddr
    ensures Calm(Anchor(p, Hear(f, k, chars)), RxUnnumRsp(p, f))
  {
    hide RingOk, Calm, PeerInv, Configured;
    PeerOf(p);
    if f.unnum.XID? && p.config {
      ConfiguredCalm(p, f, k, chars);
      return;
    }
    var r := RxUnnumRsp(p, f);
    if Resets(p, Hear(f, k, chars)) {
      ResetCalm(p, r);
    } else {
      SameRing(p, r);
    }
  }

  lemma ValidCalm(p: Peer, f: Frame, k: nat, chars: Str)
    requires RingOk(p) && !f.U? && (f.I? ==> k <= |f.info|)
    ensures Calm(Anchor(p, Hear(f, k, chars)), ValidDataState(p))
  {
    hide RingOk, Calm, PeerInv;
    PeerOf(p);
    var r := ValidDataState(p);
    if p.state in {ESTAB, DISC} {
      ResetCalm(p, r);
    } else {
      SameRing(p, r);
    }
  }

  lemma HearQuiet(p: Peer, f: Frame, k: nat, chars: Str)
    requires RingOk(p) && (f.I? ==> k <= |f.info|)
    ensures PeerInv(p) && Quiet(Anchor(p, Hear(f, k, chars)), Receive(p, f, k, chars), chars)
  {
    hide RingOk, Calm, PeerInv, Fill, RxInfo, RxSuperCmd, RxSuperRsp, RxUnnumCmd, RxUnnumRsp, ValidDataState, Anchor,
         Resets;
    PeerOf(p);
    var p0 := Anchor(p, Hear(f, k, chars));
    if f.U? {
      if f.addr == p.rspAddr {
        UnnumCmdCalm(p, f, k, chars);
      } else {
        UnnumRspCalm(p, f, k, chars);
      }
    } else {
      var p1 := ValidDataState(p);
      ValidCalm(p, f, k, chars);
      CalmOk(p0, p1);
      if p1.state == DATA {
        if f.I? {
          RxInfoQuiet(p1, f, k, chars);
        } else if f.addr == p1.rspAddr {
          SuperCmdQuiet(p1, f, chars);
        } else {
          SuperRspCalm(p1, f);
        }
        CalmQuiet(p0, p1, Receive(p, f, k, chars), chars);
      }
    }
  }

  lemma HangupCalm(p: Peer)
    requires RingOk(p)
    ensures PeerInv(p) && Calm(p, Disconnect(p))
  {
    hide RingOk, Calm, PeerInv;
    PeerOf(p);
    SameRing(p, Disconnect(p));
  }

  lemma TimeoutCalm(p: Peer)
    requires RingOk(p)
    ensures PeerInv(p) && Calm(p, Timeout(p))
  {
    hide RingOk, Calm, PeerInv, TxCtrl;
    PeerOf(p);
    TimerCalm(p, 0, p.timer);
    TimerCalm(p, p.rtx + 1, p.timer);
    var p0, p1 := p.(rtx := 0), p.(rtx := p.rtx + 1);
    CalmOk(p, p0);
    CalmOk(p, p1);
    StateIrrelevant(p0, DISC);
    TxCtrlOnly(p0.(state := DISC), U(p.cmdAddr, DISCONNECT, true));
    TxCtrlOnly(p1, U(p.cmdAddr, SABME, true));
    TxCtrlOnly(p1, U(p.cmdAddr, DISCONNECT, true));
    TxCtrlOnly(p1, U(p.cmdAddr, XID(X.FI_GENERAL, X.Offer(SizesOf(p), p.terms.comp)), false));
    TxCtrlOnly(p1, S(p.cmdAddr, if p.busy then RNR else RR, p.vr, true));
    SameRing(p, Timeout(p));
  }

  lemma TickCalm(p: Peer, n: nat)
    requires RingOk(p)
    ensures PeerInv(p) && Calm(p, Elapse(p, n))
  {
    hide RingOk, Calm, PeerInv, Timeout;
    PeerOf(p);
    SameRing(p, p);
    if p.timer != 0 {
      var t := if p.timer <= n then 0 else p.timer - n;
      TimerCalm(p, p.rtx, t);
      var p1 := p.(rtx := p.rtx, timer := t);
      CalmOk(p, p1);
      TimeoutCalm(p1);
      CalmCalm(p, p1, Timeout(p1));
    }
  }

  lemma PushCalm(p: Peer, k: nat)
    requires RingOk(p) && k <= |p.rest|
    ensures PeerInv(p) && Calm(p, PushRest(p, k))
  {
    hide RingOk, Calm, PeerInv;
    PeerOf(p);
    SameRing(p, PushRest(p, k));
  }

  /** Every event but the grant of a frame writes at most the next slot to fill. */
  lemma NextQuiet(p: Peer, e: Event)
    requires RingOk(p) && !e.Draw?
    ensures PeerInv(p) && Quiet(Anchor(p, e), Next(p, e), Chars(e))
  {
    hide RingOk, Calm, PeerInv, Fill, Receive, Elapse, PushRest, Connect, Disconnect, Configure;
    PeerOf(p);
    SameRing(p, p);
    match e
    case Hear(f, k, chars) =>
      if !f.I? || k <= |f.info| {
        HearQuiet(p, f, k, chars);
      }
    case Tick(n) => TickCalm(p, n);
    case Push(k) =>
      if k <= |p.rest| {
        PushCalm(p, k);
      }
    case Negotiate => NegotiateCalm(p);
    case Dial => DialCalm(p);
    case Hangup => HangupCalm(p);
  }

  lemma DialCalm(p: Peer)
    requires RingOk(p)
    ensures PeerInv(p) && Calm(Anchor(p, Dial), Connect(p))
  {
    hide RingOk, Calm, PeerInv;
    PeerOf(p);
    if p.state == IDLE {
      ResetCalm(p, Connect(p));
    } else {
      SameRing(p, p);
    }
  }

  lemma SentOne(p: Peer)
    requires RingOk(p) && p.txInfo != p.infoList
    ensures var r := p.(txInfo := NextI(p.txInfo), vs := (p.vs + 1) % 128);
            RingOk(r) && InRing(r) == InRing(p) + 1
  {
    var r := p.(txInfo := NextI(p.txInfo), vs := (p.vs + 1) % 128);
    Between(p.sentInfo, p.txInfo, p.infoList);
    OneMore(p.va, p.vs);
    assert Outstanding(r) == Outstanding(p) + 1;
    assert InRing(r) == InRing(p) + 1;
  }

  lemma Between(a: nat, b: nat, c: nat)
    requires a < INFO_SLOTS && b < INFO_SLOTS && c < INFO_SLOTS && b != c
    requires (b - a) % INFO_SLOTS <= (c - a) % INFO_SLOTS
    ensures (NextI(b) - a) % INFO_SLOTS == (b - a) % INFO_SLOTS + 1 <= (c - a) % INFO_SLOTS
  {
    Farther(a, b);
  }

  lemma OneMore(va: nat, vs: nat)
    requires va < 128 && vs < 128 && (vs - va) % 128 < 127
    ensures ((vs + 1) % 128 - va) % 128 == (vs - va) % 128 + 1
  {}
}
