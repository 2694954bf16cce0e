/**
 LAPM, the go-back-N link protocol of ITU-T V.42 (section 8.4), as functions on the fields of
 one peer.  Sequence numbers are modulo 128; information frames wait in a ring of 16 slots and
 control frames in a ring of 8.
 */
module Lapm {
  import opened Words
  import X = Xid

  const INFO_SLOTS := 16
  const CTRL_SLOTS := 8
  const MAX_RTX := 5
  const T401 := 57600

  datatype State = IDLE | ESTAB | DATA | DISC
  datatype Super = RR | RNR | REJ | SREJ
  /**
   Unnumbered frames; `OTHER` ones are ignored.  An XID frame carries a format identifier and
   groups of parameters.
   */
  datatype Unnum = SABME | DISCONNECT | UA | DM | XID(fi: byte, groups: Str) | OTHER

  datatype Frame =
    | I(addr: nat, ns: nat, nr: nat, pf: bool, info: Str)
    | S(addr: nat, super: Super, nr: nat, pf: bool)
    | U(addr: nat, unnum: Unnum, pf: bool)

  /** The negotiated receive window, the largest information fields, and the compression parameters. */
  datatype Terms = Terms(rxWin: nat, txSize: nat, rxSize: nat, comp: X.Comp)

  /**
   One peer.  `sentInfo`, `txInfo` and `infoList` are the slots of the oldest unacknowledged
   frame, of the next frame to send and of the next frame to fill; `rest` is what the busy
   receiver has still to hand over; `timer` is the number of bits until T401 expires, 0 when stopped;
   `config` is set while the peer waits for the answer to an XID command; `txWin` and `terms` are
   what is negotiated.
   */
  datatype Peer = Peer(
    state: State, reject: bool, busy: bool, peerBusy: bool, config: bool,
    cmdAddr: nat, rspAddr: nat, vs: nat, va: nat, vr: nat,
    rtx: nat, timer: nat, txWin: nat, terms: Terms,
    sentInfo: nat, txInfo: nat, infoList: nat, info: seq<Frame>,
    txCtrl: nat, ctrlList: nat, ctrl: seq<Frame>,
    rest: Str)

  predicate PeerInv(p: Peer)
  {
    && p.vs < 128 && p.va < 128 && p.vr < 128
    && |p.info| == INFO_SLOTS && p.sentInfo < INFO_SLOTS && p.txInfo < INFO_SLOTS && p.infoList < INFO_SLOTS
    && (forall i :: 0 <= i < |p.info| ==> p.info[i].I?)
    && |p.ctrl| == CTRL_SLOTS && p.txCtrl < CTRL_SLOTS && p.ctrlList < CTRL_SLOTS
    && p.cmdAddr != p.rspAddr
  }

  function NextI(i: nat): (r: nat)
    ensures r < INFO_SLOTS
  {
    (i + 1) % INFO_SLOTS
  }

  /** Going on by one slot brings any other slot nearer by one. */
  lemma Nearer(a: nat, b: nat)
    requires a < INFO_SLOTS && b < INFO_SLOTS && a != b
    ensures (b - NextI(a)) % INFO_SLOTS == (b - a) % INFO_SLOTS - 1
  {}

  function NextC(i: nat): (r: nat)
    ensures r < CTRL_SLOTS
  {
    (i + 1) % CTRL_SLOTS
  }

  /** Frames sent and not acknowledged, as the code counts them. */
  function Outstanding(p: Peer): nat
  {
    (p.vs - p.va) % 128
  }

  // ----- control frames -----

  /** Queue a control frame; it is dropped when only the reserved slot is left. */
  function TxCtrl(p: Peer, f: Frame): (r: Peer)
    requires PeerInv(p)
    ensures PeerInv(r)
  {
    if NextC(p.ctrlList) == p.txCtrl then p
    else p.(ctrl := p.ctrl[p.ctrlList := f], ctrlList := NextC(p.ctrlList))
  }

  function TxSuper(p: Peer, addr: nat, super: Super, pf: bool): (r: Peer)
    requires PeerInv(p)
    ensures PeerInv(r)
  {
    TxCtrl(p, S(addr, super, p.vr, pf))
  }

  /** The receiver's status: RNR when busy, RR otherwise. */
  function TxStatus(p: Peer, addr: nat, pf: bool): (r: Peer)
    requires PeerInv(p)
    ensures PeerInv(r)
  {
    TxSuper(p, addr, if p.busy then RNR else RR, pf)
  }

  function Start(p: Peer): Peer { p.(rtx := 0, timer := T401) }

  function Stop(p: Peer): Peer { p.(rtx := 0, timer := 0) }

  function Disconnect(p: Peer): (r: Peer)
    requires PeerInv(p)
    ensures PeerInv(r)
  {
    Start(TxCtrl(p.(state := DISC), U(p.cmdAddr, DISCONNECT, true)))
  }

  /** Only an idle peer connects. */
  function Connect(p: Peer): (r: Peer)
    requires PeerInv(p)
    ensures PeerInv(r)
  {
    if p.state != IDLE then p
    else Start(TxCtrl(Reset(p).(state := ESTAB), U(p.cmdAddr, SABME, true)))
  }

  /** Forget all sequence numbers and unacknowledged frames. */
  function Reset(p: Peer): (r: Peer)
    requires PeerInv(p)
    ensures PeerInv(r)
  {
    p.(busy := false, peerBusy := false, vs := 0, va := 0, vr := 0, sentInfo := p.infoList, txInfo := p.infoList)
  }

  // ----- negotiation -----

  function SizesOf(p: Peer): X.Sizes
  {
    X.Sizes(p.terms.txSize, p.terms.rxSize, p.txWin, p.terms.rxWin)
  }

  /** Take over what a received XID frame proposes. */
  function HeedXid(p: Peer, fi: byte, groups: Str): (r: Peer)
    requires PeerInv(p)
    ensures PeerInv(r)
  {
    match X.Heed(SizesOf(p), fi, groups)
    case Refused => p
    case Parsed(s, c) =>
      p.(txWin := s.txWin, terms := Terms(s.rxWin, s.txInfo, s.rxInfo, X.UpdateComp(p.terms.comp, c)))
  }

  function TxXid(p: Peer, addr: nat): (r: Peer)
    requires PeerInv(p)
    ensures PeerInv(r)
  {
    TxCtrl(p, U(addr, XID(X.FI_GENERAL, X.Offer(SizesOf(p), p.terms.comp)), false))
  }

  /** Negotiate; a connected peer holds the other end meanwhile. */
  function Configure(p: Peer): (r: Peer)
    requires PeerInv(p)
    ensures PeerInv(r)
  {
    var q := p.(config := true);
    Start(TxXid(if p.state == DATA then TxSuper(q.(busy := true), p.cmdAddr, RNR, true) else q, p.cmdAddr))
  }

  /** The answer to an XID command: the peer goes on where it was, or connects. */
  function Configured(p: Peer, fi: byte, groups: Str): (r: Peer)
    requires PeerInv(p)
    ensures PeerInv(r)
  {
    var q := Stop(HeedXid(p, fi, groups).(config := false));
    if q.state == IDLE then Connect(q)
    else if q.state == DATA then TxSuper(q.(busy := false), q.cmdAddr, RR, false)
    else q
  }

  // ----- information frames -----

  /**
   Make sure that a frame is ready to send; `chars` is what the source of characters would give
   now, empty when it has none.
   */
  function TxInfo(p: Peer, chars: Str): (r: (Peer, bool))
    requires PeerInv(p)
    ensures PeerInv(r.0)
  {
    if p.peerBusy || Outstanding(p) >= p.txWin then (p, false)
    else if p.txInfo != p.infoList then (p, true)
    else if NextI(p.infoList) == p.txInfo || NextI(p.infoList) == p.sentInfo || chars == [] then (p, false)
    else (p.(info := p.info[p.infoList := p.info[p.infoList].(info := chars)], infoList := NextI(p.infoList)), true)
  }

  /** Go back to the oldest unacknowledged frame. */
  function RejectInfo(p: Peer): (r: Peer)
    requires PeerInv(p)
    ensures PeerInv(r)
  {
    if p.state != DATA then p else p.(vs := p.va, txInfo := p.sentInfo)
  }

  function InRing(p: Peer): nat
  {
    (p.txInfo - p.sentInfo) % INFO_SLOTS
  }

  /** Release frames up to `nr`, but none that has not been sent. */
  function Release(p: Peer, nr: nat): (r: Peer)
    requires PeerInv(p)
    ensures PeerInv(r)
    decreases InRing(p)
  {
    if p.va == nr || p.sentInfo == p.txInfo then p
    else Release(p.(sentInfo := NextI(p.sentInfo), va := (p.va + 1) % 128), nr)
  }

  function AckInfo(p: Peer, nr: nat): (r: Peer)
    requires PeerInv(p)
    ensures PeerInv(r)
  {
    if Outstanding(p) > p.txWin then Disconnect(p)
    else
      var r := Release(p, nr);
      if r.va != p.va && p.rtx == 0 then (if Outstanding(r) != 0 then Start(r) else Stop(r)) else r
  }

  // ----- reception -----

  /** The frame in sequence is taken when the receiver is not busy. */
  predicate Accepts(p: Peer, f: Frame)
  {
    f.I? && p.state == DATA && !p.busy && f.ns == p.vr
  }

  /** An information frame; the consumer of characters takes the first `k` now. */
  function RxInfo(p0: Peer, f: Frame, k: nat, chars: Str): (r: Peer)
    requires PeerInv(p0) && f.I? && k <= |f.info|
    ensures PeerInv(r)
  {
    var p := AckInfo(p0, f.nr);
    if p.busy then (if f.pf then TxSuper(p, p.rspAddr, RNR, true) else p)
    else if f.ns != p.vr then
      if p.reject then p else TxSuper(p, p.rspAddr, REJ, f.pf).(reject := true)
    else
      var p1 := p.(reject := false, vr := (p.vr + 1) % 128);
      if k != |f.info| then TxSuper(p1.(rest := f.info[k..], busy := true), f.addr, RNR, f.pf)
      else if p1.peerBusy || f.pf then TxSuper(p1, f.addr, RR, f.pf)
      else
        var (p2, ready) := TxInfo(p1, chars);
        if ready then p2 else TxSuper(p2, f.addr, RR, f.pf)
  }

  function RxSuperCmd(p: Peer, f: Frame, chars: Str): (r: Peer)
    requires PeerInv(p) && f.S?
    ensures PeerInv(r)
  {
    match f.super
    case RR => Reply(AckInfo(p.(peerBusy := false), f.nr), f, chars)
    case RNR =>
      var p1 := AckInfo(p.(peerBusy := true), f.nr);
      if f.pf then TxStatus(p1, p1.rspAddr, true) else p1
    case REJ =>
      var p1 := AckInfo(p.(peerBusy := false), f.nr);
      Reply(if p1.rtx == 0 then RejectInfo(Stop(p1)) else p1, f, chars)
    case SREJ => p
  }

  /** Answer a poll, or show that there is nothing to send instead. */
  function Reply(p: Peer, f: Frame, chars: Str): (r: Peer)
    requires PeerInv(p) && f.S?
    ensures PeerInv(r)
  {
    if f.pf then TxStatus(p, f.addr, true)
    else
      var (p1, ready) := TxInfo(p, chars);
      if ready then p1 else TxStatus(p1, f.addr, false)
  }

  function RxSuperRsp(p: Peer, f: Frame): (r: Peer)
    requires PeerInv(p) && f.S?
    ensures PeerInv(r)
  {
    if p.rtx == 0 && f.pf then p
    else
      match f.super
      case RR =>
        var p1 := AckInfo(p.(peerBusy := false), f.nr);
        if p1.rtx != 0 && f.pf then Stop(RejectInfo(p1)) else p1
      case RNR =>
        var p1 := AckInfo(p.(peerBusy := true), f.nr);
        var p2 := if p1.rtx != 0 && f.pf then Stop(RejectInfo(p1)) else p1;
        if p2.rtx == 0 then Start(p2) else p2
      case REJ =>
        var p1 := AckInfo(p.(peerBusy := false), f.nr);
        if p1.rtx == 0 || f.pf then Stop(RejectInfo(p1)) else p1
      case SREJ => p
  }

  function RxUnnumCmd(p: Peer, f: Frame): (r: Peer)
    requires PeerInv(p) && f.U?
    ensures PeerInv(r)
  {
    if f.unnum == SABME then Stop(TxCtrl(Reset(p).(state := DATA), U(p.rspAddr, UA, f.pf)))
    else if f.unnum.XID? then TxXid(HeedXid(p, f.unnum.fi, f.unnum.groups), p.rspAddr)
    else if f.unnum != DISCONNECT then p
    else if p.state == IDLE then TxCtrl(p, U(p.rspAddr, DM, false))
    else Stop(TxCtrl(Reset(p.(state := IDLE)), U(p.rspAddr, UA, f.pf)))
  }

  function RxUnnumRsp(p: Peer, f: Frame): (r: Peer)
    requires PeerInv(p) && f.U?
    ensures PeerInv(r)
  {
    match f.unnum
    case DM =>
      if (p.state == ESTAB || p.state == DISC) && f.pf then Stop(Reset(p.(state := IDLE)))
      else if p.state == DATA && (p.rtx != 0 || !f.pf) then Reset(p.(state := IDLE))
      else p
    case UA =>
      if p.state == ESTAB then Stop(Reset(p.(state := DATA)))
      else if p.state == DISC then Stop(Reset(p.(state := IDLE)))
      else p
    case XID(fi, groups) => if p.config then Configured(p, fi, groups) else p
    case SABME => p
    case DISCONNECT => p
    case OTHER => p
  }

  /** Numbered frames count in the data state only; while disconnecting they end the link. */
  function ValidDataState(p: Peer): (r: Peer)
    requires PeerInv(p)
    ensures PeerInv(r)
  {
    if p.state == ESTAB then Reset(p).(state := DATA)
    else if p.state == DISC then Reset(p).(state := IDLE)
    else p
  }

  function Receive(p: Peer, f: Frame, k: nat, chars: Str): (r: Peer)
    requires PeerInv(p) && (f.I? ==> k <= |f.info|)
    ensures PeerInv(r)
  {
    if f.U? then (if f.addr == p.rspAddr then RxUnnumCmd(p, f) else RxUnnumRsp(p, f))
    else
      var p1 := ValidDataState(p);
      if p1.state != DATA then p1
      else if f.I? then RxInfo(p1, f, k, chars)
      else if f.addr == p1.rspAddr then RxSuperCmd(p1, f, chars)
      else RxSuperRsp(p1, f)
  }

  // ----- transmission -----

  /** The slot that the HDLC transmitter is given, which it reads until the frame is complete. */
  datatype Grant = Nothing | Ctrl(slot: nat) | Info(slot: nat)

  function GetTxFrame(p: Peer, chars: Str): (r: (Peer, Grant))
    requires PeerInv(p)
    ensures PeerInv(r.0)
  {
    if p.txCtrl != p.ctrlList then (p.(txCtrl := NextC(p.txCtrl)), Ctrl(p.txCtrl))
    else if p.peerBusy || p.config || p.state != DATA then (p, Nothing)
    else
      var (p1, ready) := if p.txInfo == p.infoList then TxInfo(p, chars) else (p, true);
      if !ready then (p1, Nothing)
      else
        var f := p1.info[p1.txInfo].(addr := p1.cmdAddr, ns := p1.vs, nr := p1.vr, pf := false);
        var p2 := p1.(info := p1.info[p1.txInfo := f], txInfo := NextI(p1.txInfo), vs := (p1.vs + 1) % 128);
        (if p2.timer == 0 then Start(p2) else p2, Info(p1.txInfo))
  }

  // ----- timer and busy recovery -----

  function Timeout(p: Peer): (r: Peer)
    requires PeerInv(p)
    ensures PeerInv(r)
  {
    if p.rtx > MAX_RTX then
      var p1 := p.(rtx := 0);
      match p.state
      case ESTAB => p1.(state := IDLE)
      case DISC => p1.(state := IDLE)
      case DATA => Disconnect(p1)
      case IDLE => p1
    else
      var p1 := p.(rtx := p.rtx + 1);
      var p2 := if p.config then TxXid(p1, p.cmdAddr) else match p.state
        case ESTAB => TxCtrl(p1, U(p.cmdAddr, SABME, true))
        case DISC => TxCtrl(p1, U(p.cmdAddr, DISCONNECT, true))
        case DATA => TxStatus(p1, p.cmdAddr, true)
        case IDLE => p1;
      p2.(timer := T401)
  }

  /** `n` bits have gone by. */
  function Elapse(p: Peer, n: nat): (r: Peer)
    requires PeerInv(p)
    ensures PeerInv(r)
  {
    if p.timer == 0 then p
    else if p.timer <= n then Timeout(p.(timer := 0))
    else p.(timer := p.timer - n)
  }

  /** Hand over more of the rest; the consumer takes the first `k` characters now. */
  function PushRest(p: Peer, k: nat): (r: Peer)
    requires PeerInv(p) && k <= |p.rest|
    ensures PeerInv(r)
  {
    if p.state != DATA || k == 0 then p
    else
      var p1 := p.(rest := p.rest[k..]);
      if p1.rest != [] then p1 else TxSuper(p1.(busy := false), p.cmdAddr, RR, false)
  }

  // ----- what the steps leave alone -----

  lemma TxCtrlOnly(p: Peer, f: Frame)
    requires PeerInv(p)
    ensures var r := TxCtrl(p, f); r == p.(ctrl := r.ctrl, ctrlList := r.ctrlList)
  {
    hide PeerInv;
  }

  lemma TxInfoOnly(p: Peer, chars: Str)
    requires PeerInv(p)
    ensures var r := TxInfo(p, chars).0; r == p.(info := r.info, infoList := r.infoList)
  {
    hide PeerInv;
  }

  lemma {:induction false} ReleaseOnly(p: Peer, nr: nat)
    requires PeerInv(p)
    ensures var r := Release(p, nr); r == p.(sentInfo := r.sentInfo, va := r.va)
    decreases InRing(p)
  {
    if p.va != nr && p.sentInfo != p.txInfo {
      ReleaseOnly(p.(sentInfo := NextI(p.sentInfo), va := (p.va + 1) % 128), nr);
    }
  }

  lemma HeedOnly(p: Peer, fi: byte, groups: Str)
    requires PeerInv(p)
    ensures var r := HeedXid(p, fi, groups);
            r == p.(txWin := r.txWin, terms := r.terms) && PeerInv(r.(config := false))
  {
    hide X.Heed, X.UpdateComp;
  }
}
