/** Recovery over whole histories of the link: a round after a loss, and where resuming falls short. */
module LapmRounds {
  import opened Words
  import opened Lapm
  import opened LapmLink
  import opened LapmEvents
  import opened LapmRecovery
  import opened LapmSafety
  import W = LapmClock

  // ----- blocks of events -----

  lemma {:induction false} RunAppend(s: Link, x: seq<(bool, Event)>, y: seq<(bool, Event)>)
    requires EndOk(s.a) && EndOk(s.b)
    ensures Run(s, x + y) == Run(Run(s, x), y)
    decreases x
  {
    hide Step, EndOk;
    if x == [] {
      assert x + y == y;
    } else {
      assert (x + y)[0] == x[0] && (x + y)[1..] == x[1..] + y;
      RunAppend(Step(s, x[0].0, x[0].1), x[1..], y);
    }
  }

  lemma RunOne(s: Link, atFirst: bool, v: Event)
    requires EndOk(s.a) && EndOk(s.b)
    ensures Run(s, [(atFirst, v)]) == Step(s, atFirst, v)
  {
    hide Step, EndOk;
    var r := Step(s, atFirst, v);
    assert [(atFirst, v)][1..] == [];
    assert Run(r, []) == r;
  }

  /** One end is given a frame by its peer, and transmits it. */
  function Send(atFirst: bool, chars: Str): seq<(bool, Event)>
  {
    [(atFirst, Grant(chars)), (atFirst, Complete)]
  }

  /** The end after that. */
  function SentBy(e: End, chars: Str): (r: End)
    requires EndOk(e) && e.hdlc == Nothing
    ensures EndOk(r)
  {
    Local(Local(e, Grant(chars)), Complete)
  }

  lemma SendRuns(s: Link, chars: Str)
    requires EndOk(s.a) && EndOk(s.b)
    ensures s.a.hdlc == Nothing ==> Run(s, Send(true, chars)) == s.(a := SentBy(s.a, chars))
    ensures s.b.hdlc == Nothing ==> Run(s, Send(false, chars)) == s.(b := SentBy(s.b, chars))
  {
    hide Local, EndOk, Run;
    if s.a.hdlc == Nothing {
      TwoSteps(s, true, Grant(chars), Complete);
    }
    if s.b.hdlc == Nothing {
      TwoSteps(s, false, Grant(chars), Complete);
    }
  }

  lemma TwoSteps(s: Link, atFirst: bool, v: Event, w: Event)
    requires EndOk(s.a) && EndOk(s.b)
    ensures Run(s, [(atFirst, v), (atFirst, w)]) == Step(Step(s, atFirst, v), atFirst, w)
  {
    hide Run, Step, EndOk;
    assert [(atFirst, v)] + [(atFirst, w)] == [(atFirst, v), (atFirst, w)];
    RunAppend(s, [(atFirst, v)], [(atFirst, w)]);
    RunOne(s, atFirst, v);
    RunOne(Step(s, atFirst, v), atFirst, w);
  }

  /** A control frame goes out as it was queued. */
  lemma CtrlSent(e: End, f: Frame)
    requires EndOk(e) && e.hdlc == Nothing && e.p.txCtrl != e.p.ctrlList && e.p.ctrl[e.p.txCtrl] == f
    ensures SentBy(e, []) == e.(p := e.p.(txCtrl := NextC(e.p.txCtrl)), line := e.line + [f])
  {}

  lemma RunNone(s: Link)
    requires EndOk(s.a) && EndOk(s.b)
    ensures Run(s, []) == s
  {}

  /** History `es` leads from `s0` to `s`. */
  ghost predicate Leads(s0: Link, es: seq<(bool, Event)>, s: Link)
  {
    EndOk(s0.a) && EndOk(s0.b) && EndOk(s.a) && EndOk(s.b) && Run(s0, es) == s
  }

  lemma Further(s0: Link, es: seq<(bool, Event)>, s: Link, more: seq<(bool, Event)>)
    requires Leads(s0, es, s)
    ensures Leads(s0, es + more, Run(s, more))
  {
    hide EndOk, Run;
    RunAppend(s0, es, more);
    RunOk(s, more);
  }

  lemma RunOk(s: Link, es: seq<(bool, Event)>)
    requires EndOk(s.a) && EndOk(s.b)
    ensures EndOk(Run(s, es).a) && EndOk(Run(s, es).b)
  {
    hide EndOk;
  }

  lemma ThenSends(s0: Link, es: seq<(bool, Event)>, s: Link, atFirst: bool, chars: Str)
      returns (es1: seq<(bool, Event)>, r: Link)
    requires Leads(s0, es, s) && s.a.hdlc == s.b.hdlc == Nothing
    ensures Leads(s0, es1, r) && r == if atFirst then s.(a := SentBy(s.a, chars)) else s.(b := SentBy(s.b, chars))
  {
    hide EndOk, Run, SentBy;
    SendRuns(s, chars);
    Further(s0, es, s, Send(atFirst, chars));
    es1, r := es + Send(atFirst, chars), Run(s, Send(atFirst, chars));
  }

  lemma ThenDoes(s0: Link, es: seq<(bool, Event)>, s: Link, atFirst: bool, v: Event)
      returns (es1: seq<(bool, Event)>, r: Link)
    requires Leads(s0, es, s) && !v.Arrive?
    ensures Leads(s0, es1, r) && r == if atFirst then s.(a := Local(s.a, v)) else s.(b := Local(s.b, v))
  {
    hide EndOk, Run, Local;
    RunOne(s, atFirst, v);
    Further(s0, es, s, [(atFirst, v)]);
    es1, r := es + [(atFirst, v)], Run(s, [(atFirst, v)]);
  }

  lemma ThenHears(s0: Link, es: seq<(bool, Event)>, s: Link, atFirst: bool, k: nat, f: Frame, rest: seq<Frame>,
                  chars: Str)
    returns (es1: seq<(bool, Event)>, r: Link)
    requires Leads(s0, es, s) && (f.I? ==> k <= |f.info|)
    requires (if atFirst then s.b.line else s.a.line) == [f] + rest
    ensures Leads(s0, es1, r)
    ensures r == if atFirst then Link(Arrived(s.a, f, k, chars), s.b.(line := rest))
                 else Link(s.a.(line := rest), Arrived(s.b, f, k, chars))
  {
    hide EndOk, Run, Arrived;
    RunOne(s, atFirst, Arrive(k, chars));
    Further(s0, es, s, [(atFirst, Arrive(k, chars))]);
    es1, r := es + [(atFirst, Arrive(k, chars))], Run(s, [(atFirst, Arrive(k, chars))]);
    assert ([f] + rest)[1..] == rest;
  }

  // ----- a round after a loss -----

  /** A peer with nothing queued keeps its invariant whatever passes through its control queue. */
  lemma QueuePassed(p: Peer, g: Ghost, r: Peer)
    requires PInv(p, Nothing, g) && p.txCtrl == p.ctrlList
    requires PeerInv(r) && r.txCtrl == r.ctrlList
    requires r == p.(ctrl := r.ctrl, txCtrl := r.txCtrl, ctrlList := r.ctrlList, rtx := r.rtx, timer := r.timer)
    ensures PInv(r, Nothing, g)
  {
    hide ISlot;
  }

  /** Both ends are connected and idle on the line, and whatever was on the line is lost. */
  ghost predicate Silence(s: Link)
  {
    && EndOk(s.a) && EndOk(s.b)
    && s.a.hdlc == s.b.hdlc == Nothing && s.a.line == s.b.line == []
    && s.a.p.state == s.b.p.state == DATA
    && s.a.p.txCtrl == s.a.p.ctrlList && s.b.p.txCtrl == s.b.p.ctrlList
    && s.a.p.cmdAddr == s.b.p.rspAddr && s.b.p.cmdAddr == s.a.p.rspAddr
  }

  /** T401 of the first end expires, and its poll and the answer go through. */
  function Poll(n: nat): seq<(bool, Event)>
  {
    [(true, Bits(n))] + Send(true, []) + [(false, Arrive(0, []))] + Send(false, []) + [(true, Arrive(0, []))]
  }

  /** The first end after the expiry and the transmission of its poll. */
  lemma Polls(e: End, g: Ghost, n: nat) returns (r: End)
    requires PInv(e.p, Nothing, g) && EndOk(e) && e.hdlc == Nothing && e.line == [] && e.p.state == DATA
    requires e.p.txCtrl == e.p.ctrlList && 0 < e.p.timer <= n && e.p.rtx <= MAX_RTX
    ensures EndOk(Local(e, Bits(n))) && r == SentBy(Local(e, Bits(n)), [])
    ensures r.hdlc == Nothing && r.line == [S(e.p.cmdAddr, Condition(e.p), e.p.vr, true)]
    ensures PInv(r.p, Nothing, g) && r.p.txCtrl == r.p.ctrlList && r.p.rtx != 0 && r.p.state == DATA
    ensures r.p.cmdAddr == e.p.cmdAddr && r.p.rspAddr == e.p.rspAddr && r.p.vr == e.p.vr
    ensures r.accepted == e.accepted
  {
    hide PInv, Timeout;
    PInvPeer(e.p, Nothing, g);
    TimerOff(e.p);
    var p0 := e.p.(timer := 0);
    EmptyHasRoom(p0);
    TimeoutPolls(p0);
    TimeoutOnly(p0);
    var e1 := Local(e, Bits(n));
    CtrlSent(e1, S(e.p.cmdAddr, Condition(e.p), e.p.vr, true));
    r := SentBy(e1, []);
    QueuePassed(e.p, g, r.p);
  }

  lemma TimerOff(p: Peer)
    requires PeerInv(p)
    ensures PeerInv(p.(timer := 0))
  {}

  lemma EmptyHasRoom(p: Peer)
    requires PeerInv(p) && p.txCtrl == p.ctrlList
    ensures Room(p) && p.ctrlList < |p.ctrl|
  {}

  lemma TimeoutOnly(p: Peer)
    requires PeerInv(p) && p.state == DATA && !p.config && p.rtx <= MAX_RTX
    ensures var r := Timeout(p);
            r == p.(ctrl := r.ctrl, ctrlList := r.ctrlList, rtx := r.rtx, timer := r.timer)
  {
    hide PeerInv;
  }

  /** The second end after the poll has arrived and its answer has gone out. */
  lemma Answers(e: End, g: Ghost, f: Frame, nr: nat) returns (r: End, g1: Ghost)
    requires PInv(e.p, Nothing, g) && EndOk(e) && e.hdlc == Nothing && e.line == [] && e.p.state == DATA && !e.p.busy
    requires e.p.txCtrl == e.p.ctrlList && f.S? && f.super in {RR, RNR} && f.pf && f.addr == e.p.rspAddr
    requires f.nr == nr % 128 && g.va <= nr <= g.ms
    ensures r == SentBy(Arrived(e, f, 0, []), []) && EndOk(r)
    ensures r.hdlc == Nothing && r.line == [S(e.p.rspAddr, RR, e.p.vr, true)]
    ensures PInv(r.p, Nothing, g1) && g1 == g.(va := g1.va) && g1.va <= nr
    ensures r.p.state == DATA && !r.p.busy && r.p.vr == e.p.vr && r.p.rspAddr == e.p.rspAddr
    ensures r.accepted == e.accepted && r.p.txCtrl == r.p.ctrlList
  {
    hide PInv, AckInfo, PeerInv, Condition;
    PInvPeer(e.p, Nothing, g);
    EmptyHasRoom(e.p);
    PollAnswered(e.p, Nothing, g, f, nr, []);
    var p0 := e.p.(peerBusy := f.super == RNR);
    FlagsKeep(e.p, Nothing, g, f.super == RNR, e.p.reject, e.p.rtx, e.p.timer);
    PInvPeer(p0, Nothing, g);
    g1 := AckKeeps(p0, Nothing, g, nr);
    var p1 := AckInfo(p0, f.nr);
    PInvPeer(p1, Nothing, g1);
    Status(p1, f);
    var e1 := Arrived(e, f, 0, []);
    assert e1.p == TxSuper(p1, e.p.rspAddr, RR, true);
    QueueMoves(e1.p, e.p);
    assert Condition(e.p) == RR by { NotBusy(e.p); }
    CtrlSent(e1, S(e.p.rspAddr, RR, e.p.vr, true));
    r := SentBy(e1, []);
    QueuePassed(p1, g1, r.p);
  }

  lemma NotBusy(p: Peer)
    requires !p.busy
    ensures Condition(p) == RR
  {}

  /** The answer to a poll leaves all but the control queue as it is. */
  lemma Status(p: Peer, f: Frame)
    requires PeerInv(p) && f.S? && !p.busy
    ensures TxStatus(p, f.addr, true) == TxSuper(p, f.addr, RR, true)
    ensures var r := TxSuper(p, f.addr, RR, true); r == p.(ctrl := r.ctrl, ctrlList := r.ctrlList)
  {
    hide PeerInv;
  }

  lemma QueueMoves(r: Peer, p: Peer)
    requires PeerInv(p) && PeerInv(r) && p.txCtrl == p.ctrlList && r.ctrlList == NextC(p.ctrlList)
             && r.txCtrl == p.txCtrl
    ensures r.txCtrl != r.ctrlList && NextC(r.txCtrl) == r.ctrlList && r.txCtrl < |r.ctrl| == |p.ctrl|
  {}

  /** The first end after the answer has arrived. */
  lemma HearsFinal(e: End, g: Ghost, f: Frame, nr: nat) returns (r: End, g1: Ghost)
    requires PInv(e.p, Nothing, g) && EndOk(e) && e.hdlc == Nothing && e.line == [] && e.p.state == DATA
    requires e.p.txCtrl == e.p.ctrlList && e.p.rtx != 0
    requires f.S? && f.super == RR && f.pf && f.addr != e.p.rspAddr
    requires f.nr == nr % 128 && g.va <= nr <= g.ms
    ensures r == Arrived(e, f, 0, []) && EndOk(r) && r.hdlc == Nothing && r.line == []
    ensures PInv(r.p, Nothing, g1) && var at := ResumePoint(g, nr); g1 == g.(va := at, vs := at)
    ensures r.p.state == DATA && !r.p.peerBusy && r.p.txCtrl == r.p.ctrlList && r.p.vr == e.p.vr
  {
    hide PInv, PeerInv, RxSuperRsp, ISlot;
    PInvPeer(e.p, Nothing, g);
    FinalResumes(e.p, Nothing, g, f, nr);
    var at := ResumePoint(g, nr);
    ReceivesRsp(e.p, f);
    KeepsNumbers(e.p, f);
    r, g1 := Arrived(e, f, 0, []), g.(va := at, vs := at);
  }

  lemma ReceivesRsp(p: Peer, f: Frame)
    requires PeerInv(p) && p.state == DATA && f.S? && f.addr != p.rspAddr
    ensures Receive(p, f, 0, []) == RxSuperRsp(p, f)
  {}

  lemma KeepsNumbers(p: Peer, f: Frame)
    requires PeerInv(p) && f.S?
    ensures RxSuperRsp(p, f).vr == p.vr && RxSuperRsp(p, f).cmdAddr == p.cmdAddr
  {
    hide AckInfo;
    AckNumbers(p.(peerBusy := f.super == RNR), f.nr);
  }

  lemma AckNumbers(p: Peer, nr: nat)
    requires PeerInv(p)
    ensures AckInfo(p, nr).vr == p.vr && AckInfo(p, nr).cmdAddr == p.cmdAddr
  {
    hide PeerInv;
    ReleaseOnly(p, nr);
  }

  lemma HalvesOf(s: Link, ga: Ghost, gb: Ghost)
    requires Inv(s, ga, gb)
    ensures PInv(s.a.p, s.a.hdlc, ga) && PInv(s.b.p, s.b.hdlc, gb) && EndOk(s.a) && EndOk(s.b)
    ensures ga.va <= gb.vr <= ga.ms && gb.va <= ga.vr <= gb.ms && s.a.p.cmdAddr != s.a.p.rspAddr
  {}

  lemma ArrivesAtSecond(s: Link, k: nat, chars: Str)
    requires EndOk(s.a) && EndOk(s.b) && |s.a.line| == 1 && (s.a.line[0].I? ==> k <= |s.a.line[0].info|)
    ensures Run(s, [(false, Arrive(k, chars))]) == Link(s.a.(line := []), Arrived(s.b, s.a.line[0], k, chars))
  {
    hide Arrived, EndOk, Run;
    RunOne(s, false, Arrive(k, chars));
    assert s.a.line[1..] == [];
  }

  lemma ArrivesAtFirst(s: Link, k: nat, chars: Str)
    requires EndOk(s.a) && EndOk(s.b) && |s.b.line| == 1 && (s.b.line[0].I? ==> k <= |s.b.line[0].info|)
    ensures Run(s, [(true, Arrive(k, chars))]) == Link(Arrived(s.a, s.b.line[0], k, chars), s.b.(line := []))
  {
    hide Arrived, EndOk, Run;
    RunOne(s, true, Arrive(k, chars));
    assert s.b.line[1..] == [];
  }

  lemma KeepsHdlc(e: End, f: Frame, k: nat, chars: Str, v: Event)
    requires EndOk(e) && (f.I? ==> k <= |f.info|)
    ensures Arrived(e, f, k, chars).hdlc == e.hdlc && EndOk(e.(line := []))
    ensures v.Bits? ==> Local(e, v).hdlc == e.hdlc
  {}

  /** The ends after each event of a poll. */
  lemma PollRuns(s: Link, n: nat, a1: End, b1: End)
    requires EndOk(s.a) && EndOk(s.b) && s.a.hdlc == s.b.hdlc == Nothing
    requires Local(s.a, Bits(n)).hdlc == Nothing && EndOk(a1) && EndOk(b1)
    requires a1.hdlc == b1.hdlc == Nothing && |a1.line| == |b1.line| == 1
    requires a1 == SentBy(Local(s.a, Bits(n)), [])
    requires a1.line[0].S? && Arrived(s.b, a1.line[0], 0, []).hdlc == Nothing
    requires b1 == SentBy(Arrived(s.b, a1.line[0], 0, []), [])
    requires EndOk(a1.(line := [])) && EndOk(b1.(line := [])) && b1.line[0].S?
    ensures Run(s, Poll(n)) == Link(Arrived(a1.(line := []), b1.line[0], 0, []), b1.(line := []))
  {
    hide EndOk, Run, Local, Arrived, SentBy, Send;
    var s0 := s.(a := Local(s.a, Bits(n)));
    RunOne(s, true, Bits(n));
    var s1 := s0.(a := a1);
    SendRuns(s0, []);
    var s2 := Link(a1.(line := []), Arrived(s.b, a1.line[0], 0, []));
    ArrivesAtSecond(s1, 0, []);
    var s3 := s2.(b := b1);
    SendRuns(s2, []);
    ArrivesAtFirst(s3, 0, []);
    var x1 := [(true, Bits(n))];
    var x2 := x1 + Send(true, []);
    var x3 := x2 + [(false, Arrive(0, []))];
    var x4 := x3 + Send(false, []);
    RunAppend(s, x1, Send(true, []));
    RunAppend(s, x2, [(false, Arrive(0, []))]);
    RunAppend(s, x3, Send(false, []));
    RunAppend(s, x4, [(true, Arrive(0, []))]);
  }

  // ----- sending on -----

  /**
   The first end may send, the second is not busy, and the first stands at or before the frame that
   the second waits for.
   */
  ghost predicate Ahead(s: Link, ga: Ghost, gb: Ghost)
  {
    && EndOk(s.a) && EndOk(s.b) && PInv(s.a.p, Nothing, ga) && PInv(s.b.p, Nothing, gb)
    && s.a.hdlc == s.b.hdlc == Nothing && s.a.line == [] && s.a.p.state == s.b.p.state == DATA
    && !s.a.p.peerBusy && s.a.p.txCtrl == s.a.p.ctrlList && !s.b.p.busy
    && ga.vs <= gb.vr < |ga.frames| && gb.va <= ga.vr <= gb.ms
  }

  /** An end sends its next frame, whatever its source would give. */
  lemma SendsFrame(e: End, g: Ghost, chars: Str) returns (r: End, g1: Ghost)
    requires PInv(e.p, Nothing, g) && EndOk(e) && e.hdlc == Nothing && e.line == [] && e.p.state == DATA
    requires !e.p.peerBusy && e.p.txCtrl == e.p.ctrlList && g.vs < |g.frames|
    ensures r == SentBy(e, chars) && EndOk(r) && r.hdlc == Nothing
    ensures r.line == [I(e.p.cmdAddr, g.vs % 128, e.p.vr, false, g.frames[g.vs])]
    ensures PInv(r.p, Nothing, g1) && g1 == g.(vs := g.vs + 1, ms := g1.ms, fly := g1.fly)
    ensures r.p.state == DATA && !r.p.peerBusy && r.p.txCtrl == r.p.ctrlList && r.p.vr == e.p.vr
  {
    hide PInv, ISlot, NextI, Flying;
    PInvPeer(e.p, Nothing, g);
    ResumedFrame(e.p, g, chars);
    SendInfoKeeps(e.p, g);
    var m := Flying(g, Info(e.p.txInfo));
    g1 := g.(vs := g.vs + 1, ms := m.m, fly := m);
    StartKeeps(e.p, g1);
    ReadyToSend(e.p, g);
    var e1 := Local(e, Grant(chars));
    FlyMarked(e1, g1);
    r := SentBy(e, chars);
  }

  lemma ReadyToSend(p: Peer, g: Ghost)
    requires PInv(p, Nothing, g) && p.state == DATA && g.vs < |g.frames|
    ensures p.txInfo != p.infoList && !p.config
  {
    hide ISlot, CtrlInv, FlyInv;
    SlotsDistinct(g.base, g.vs, |g.frames|);
  }

  /** The second end when frame `at` arrives: it takes it if it is the one awaited, and refuses it otherwise. */
  lemma Hears(e: End, g: Ghost, f: Frame, at: nat, nr: nat, k: nat, chars: Str) returns (r: End, g1: Ghost)
    requires PInv(e.p, Nothing, g) && EndOk(e) && e.hdlc == Nothing && e.p.state == DATA && !e.p.busy
    requires f.I? && f.ns == at % 128 && at <= g.vr < at + 128 && k <= |f.info|
    requires f.nr == nr % 128 && g.va <= nr <= g.ms
    ensures r == Arrived(e, f, k, chars) && EndOk(r) && r.hdlc == Nothing && r.p.state == DATA
    ensures PInv(r.p, Nothing, g1) && g1.va <= nr && g1.ms == g.ms && r.p.vr == g1.vr % 128
    ensures g1.vr == (if at == g.vr then g.vr + 1 else g.vr) && (at != g.vr ==> !r.p.busy)
    ensures r.accepted == (if at == g.vr then e.accepted + f.info[..k] else e.accepted)
  {
    hide PInv, PeerInv, RxInfo;
    PInvPeer(e.p, Nothing, g);
    CountIs(e.p, Nothing, g);
    if at != g.vr {
      Mod128Distinct(at, g.vr);
    }
    g1 := InfoKeeps(e.p, Nothing, g, f, nr, k, chars);
    r := Arrived(e, f, k, chars);
    RestOf(e.p, Nothing, g);
    RestOf(r.p, Nothing, g1);
    CountIs(r.p, Nothing, g1);
  }

  /** One information frame goes through; the consumer takes `k` characters if it is accepted. */
  function SendOne(k: nat, chars: Str): seq<(bool, Event)>
  {
    Send(true, []) + [(false, Arrive(k, chars))]
  }

  lemma SendsOne(s: Link, ga: Ghost, gb: Ghost, k: nat, chars: Str) returns (ga1: Ghost, gb1: Ghost)
    requires Ahead(s, ga, gb) && k <= |ga.frames[ga.vs]|
    ensures var r := Run(s, SendOne(k, chars));
            && ga1 == ga.(vs := ga.vs + 1, ms := ga1.ms, fly := ga1.fly) && r.b.p.vr == gb1.vr % 128
            && if ga.vs == gb.vr then
                 gb1.vr == gb.vr + 1 && r.b.accepted == s.b.accepted + ga.frames[gb.vr][..k]
               else
                 gb1.vr == gb.vr && r.b.accepted == s.b.accepted && Ahead(r, ga1, gb1)
  {
    hide PInv, EndOk, Run, Local, Arrived, SentBy, Send;
    var a1, b1;
    a1, ga1 := SendsFrame(s.a, ga, []);
    FramesBound(s.a.p, ga);
    CountIs(s.a.p, Nothing, ga);
    b1, gb1 := Hears(s.b, gb, a1.line[0], ga.vs, ga.vr, k, chars);
    SendRuns(s, []);
    var s1 := s.(a := a1);
    ArrivesAtSecond(s1, k, chars);
    RunAppend(s, Send(true, []), [(false, Arrive(k, chars))]);
    NoLine(a1);
  }

  lemma NoLine(e: End)
    requires EndOk(e)
    ensures EndOk(e.(line := []))
  {}

  lemma FramesBound(p: Peer, g: Ghost)
    requires PInv(p, Nothing, g) && p.state == DATA
    ensures g.va <= g.vs && |g.frames| <= g.va + 15 && g.ms <= |g.frames|
  {}

  /** `n` frames that the second end has taken already, and the one that it waits for. */
  function Stream(n: nat, k: nat, chars: Str): seq<(bool, Event)>
  {
    if n == 0 then SendOne(k, chars) else SendOne(0, []) + Stream(n - 1, k, chars)
  }

  lemma {:induction false} StreamTakes(s: Link, ga: Ghost, gb: Ghost, k: nat, chars: Str)
    requires Ahead(s, ga, gb) && k <= |ga.frames[gb.vr]|
    ensures var r := Run(s, Stream(gb.vr - ga.vs, k, chars));
            r.b.p.vr == (gb.vr + 1) % 128 && r.b.accepted == s.b.accepted + ga.frames[gb.vr][..k]
    decreases gb.vr - ga.vs
  {
    hide Run, SendOne, PInv, EndOk;
    if ga.vs == gb.vr {
      var ga1, gb1 := SendsOne(s, ga, gb, k, chars);
    } else {
      var ga1, gb1 := SendsOne(s, ga, gb, 0, []);
      var n := gb.vr - ga.vs;
      RunAppend(s, SendOne(0, []), Stream(n - 1, k, chars));
      StreamTakes(Run(s, SendOne(0, [])), ga1, gb1, k, chars);
    }
  }

  // ----- recovery -----

  /**
   Everything under way is lost, and the first end can recover: the second is not busy, the first has
   retries left, and it is not held back by a busy condition of the second with T401 stopped.
   */
  ghost predicate Recoverable(s: Link)
  {
    Silence(s) && !s.b.p.busy && s.a.p.rtx <= MAX_RTX && (s.a.p.timer == 0 ==> !s.a.p.peerBusy)
  }

  /** A poll and its answer, if T401 runs. */
  function Revive(s: Link, n: nat): seq<(bool, Event)>
  {
    if s.a.p.timer == 0 then [] else Poll(n)
  }

  /** After a poll and its answer the first end stands before the frame where it resumes. */
  lemma PollRevives(s: Link, ga: Ghost, gb: Ghost, n: nat) returns (ga1: Ghost, gb1: Ghost)
    requires Inv(s, ga, gb) && Recoverable(s) && 0 < s.a.p.timer <= n && gb.vr < |ga.frames|
    ensures var at := ResumePoint(ga, gb.vr); ga1 == ga.(va := at, vs := at)
    ensures gb1 == gb.(va := gb1.va)
    ensures var r := Run(s, Poll(n)); Ahead(r, ga1, gb1) && r.b.accepted == s.b.accepted
  {
    hide PInv, EndOk, Run, Local, Arrived, SentBy, Poll;
    HalvesOf(s, ga, gb);
    KeepsHdlc(s.a, S(0, RR, 0, false), 0, [], Bits(n));
    var a1 := Polls(s.a, ga, n);
    KeepsHdlc(s.b, a1.line[0], 0, [], Complete);
    KeepsHdlc(a1, a1.line[0], 0, [], Complete);
    var b1;
    b1, gb1 := Answers(s.b, gb, a1.line[0], ga.vr);
    KeepsHdlc(b1, a1.line[0], 0, [], Complete);
    var a2;
    a2, ga1 := HearsFinal(a1.(line := []), ga, b1.line[0], gb.vr);
    PollRuns(s, n, a1, b1);
  }

  lemma StoppedMeansNone(p: Peer, g: Ghost)
    requires PInv(p, Nothing, g) && p.state == DATA && W.Timed(p) && p.timer == 0
    ensures g.va == g.vs
  {
    hide CtrlInv, FlyInv, ISlot;
    Mod128Difference(g.va, g.vs);
  }

  lemma Revives(s: Link, ga: Ghost, gb: Ghost, n: nat) returns (ga1: Ghost, gb1: Ghost)
    requires Inv(s, ga, gb) && Recoverable(s) && W.Timed(s.a.p) && s.a.p.timer <= n && gb.vr < |ga.frames|
    ensures ga1.frames == ga.frames && gb1.vr == gb.vr && ga1.vs == ResumePoint(ga, gb.vr)
    ensures var r := Run(s, Revive(s, n)); Ahead(r, ga1, gb1) && r.b.accepted == s.b.accepted
  {
    hide PInv, Run, Poll, Half, W.Timed;
    if s.a.p.timer == 0 {
      HalvesOf(s, ga, gb);
      StoppedMeansNone(s.a.p, ga);
      ga1, gb1 := ga, gb;
      RunNone(s);
    } else {
      ga1, gb1 := PollRevives(s, ga, gb, n);
    }
  }

  /**
   What a loss leads to.  After any history of two ends that start afresh, when everything under way
   has been lost and the first end can recover: an expiry, a poll and its answer, if T401 runs, and
   one information frame make the second end take the frame that it waits for, if and only if V(S)
   of the first end has not been taken back behind that frame.  `ga` and `gb` are the unbounded
   numbers of the two ends.
   */
  lemma RoundRecovers(s0: Link, events: seq<(bool, Event)>, n: nat, k: nat, chars: Str)
    returns (ga: Ghost, gb: Ghost)
    requires LapmSafety.Fresh(s0.a) && LapmSafety.Fresh(s0.b)
    requires var s := Run(s0, events); Recoverable(s) && s.a.p.timer <= n
    ensures Inv(Run(s0, events), ga, gb)
    ensures gb.vr < |ga.frames| && k <= |ga.frames[ResumePoint(ga, gb.vr)]| ==>
              var s := Run(s0, events);
              var r := Run(s0, events + Revive(s, n) + SendOne(k, chars));
              if gb.vr <= ga.vs then
                r.b.p.vr == (s.b.p.vr + 1) % 128 && r.b.accepted == s.b.accepted + ga.frames[gb.vr][..k]
              else
                r.b.p.vr == s.b.p.vr && r.b.accepted == s.b.accepted
  {
    hide PInv, EndOk, Run, Revive, Inv, LapmSafety.Fresh, SendOne, W.Timed, Recoverable;
    ga, gb := AfterHistory(s0, events);
    var s := Run(s0, events);
    if gb.vr < |ga.frames| && k <= |ga.frames[ResumePoint(ga, gb.vr)]| {
      var ga1, gb1 := Revives(s, ga, gb, n);
      var ga2, gb2 := SendsOne(Run(s, Revive(s, n)), ga1, gb1, k, chars);
      CountNow(s, ga, gb);
      RunAppend(s0, events, Revive(s, n));
      RunAppend(s0, events + Revive(s, n), SendOne(k, chars));
    }
  }

  /**
   And without further loss it always comes forward: as many information frames as lie between the
   frame resumed with and the frame awaited, and the frame awaited itself.
   */
  lemma Converges(s0: Link, events: seq<(bool, Event)>, n: nat, k: nat, chars: Str)
    returns (ga: Ghost, gb: Ghost)
    requires LapmSafety.Fresh(s0.a) && LapmSafety.Fresh(s0.b)
    requires var s := Run(s0, events); Recoverable(s) && s.a.p.timer <= n
    ensures Inv(Run(s0, events), ga, gb)
    ensures gb.vr < |ga.frames| && k <= |ga.frames[gb.vr]| ==>
              var s := Run(s0, events);
              var behind: nat := gb.vr - ResumePoint(ga, gb.vr);
              var r := Run(s0, events + Revive(s, n) + Stream(behind, k, chars));
              behind < 15 && r.b.p.vr == (s.b.p.vr + 1) % 128
              && r.b.accepted == s.b.accepted + ga.frames[gb.vr][..k]
  {
    hide PInv, EndOk, Run, Revive, Inv, LapmSafety.Fresh, Stream, W.Timed, Recoverable;
    ga, gb := AfterHistory(s0, events);
    var s := Run(s0, events);
    if gb.vr < |ga.frames| && k <= |ga.frames[gb.vr]| {
      var ga1, gb1 := Revives(s, ga, gb, n);
      var behind := gb.vr - ResumePoint(ga, gb.vr);
      StreamTakes(Run(s, Revive(s, n)), ga1, gb1, k, chars);
      CountNow(s, ga, gb);
      RunAppend(s0, events, Revive(s, n));
      RunAppend(s0, events + Revive(s, n), Stream(behind, k, chars));
    }
  }

  lemma AfterHistory(s0: Link, events: seq<(bool, Event)>) returns (ga: Ghost, gb: Ghost)
    requires LapmSafety.Fresh(s0.a) && LapmSafety.Fresh(s0.b)
    ensures EndOk(s0.a) && EndOk(s0.b)
    ensures var s := Run(s0, events);
            Inv(s, ga, gb) && W.Timed(s.a.p) && W.Timed(s.b.p) && EndOk(s.a) && EndOk(s.b)
  {
    hide Run, Inv, LapmSafety.Fresh, EndOk;
    FreshInv(s0);
    FreshEnds(s0);
    ga, gb := RunKeeps(s0, FreshGhost(s0.a), FreshGhost(s0.b), events);
    W.FreshWatched(s0.a);
    W.FreshWatched(s0.b);
    W.AlwaysWatched(s0, events);
    RunOk(s0, events);
  }

  lemma FreshEnds(s: Link)
    requires LapmSafety.Fresh(s.a) && LapmSafety.Fresh(s.b)
    ensures EndOk(s.a) && EndOk(s.b)
  {}

  lemma CountNow(s: Link, ga: Ghost, gb: Ghost)
    requires Inv(s, ga, gb) && Recoverable(s) && gb.vr < |ga.frames|
    ensures s.b.p.vr == gb.vr % 128 && (s.b.p.vr + 1) % 128 == (gb.vr + 1) % 128 && gb.vr < ga.vs + 15
  {
    hide PInv, EndOk, Inv;
    HalvesOf(s, ga, gb);
    CountIs(s.b.p, Nothing, gb);
    CountModulo(s.b.p.vr, gb.vr);
    FramesBound(s.a.p, ga);
  }

  lemma CountModulo(v: nat, n: nat)
    requires v == n % 128
    ensures (v + 1) % 128 == (n + 1) % 128
  {}

  lemma CountIs(p: Peer, h: Lapm.Grant, g: Ghost)
    requires PInv(p, h, g) && p.state == DATA
    ensures p.vr == g.vr % 128
  {}

  // ----- a busy receiver -----

  /** The second end hands over all that it holds, says that it is ready again, and is heard. */
  function Ready(s: Link): seq<(bool, Event)>
  {
    [(false, Push(|s.b.p.rest|))] + Send(false, []) + [(true, Arrive(0, []))]
  }

  /** The busy end after it has handed over the rest and sent its RR. */
  lemma HandsOver(e: End) returns (r: End)
    requires EndOk(e) && e.hdlc == Nothing && e.line == [] && e.p.state == DATA && e.p.txCtrl == e.p.ctrlList
    requires e.p.rest != []
    ensures EndOk(Local(e, Push(|e.p.rest|))) && Local(e, Push(|e.p.rest|)).hdlc == Nothing
    ensures r == SentBy(Local(e, Push(|e.p.rest|)), []) && EndOk(r) && r.hdlc == Nothing
    ensures r.line == [S(e.p.cmdAddr, RR, e.p.vr, false)] && r.accepted == e.accepted + e.p.rest
    ensures r.p.state == DATA && !r.p.busy && r.p.rest == [] && r.p.vr == e.p.vr && r.p.txCtrl == r.p.ctrlList
  {
    var e1 := Local(e, Push(|e.p.rest|));
    assert e.p.rest[..|e.p.rest|] == e.p.rest && e.p.rest[|e.p.rest|..] == [];
    CtrlSent(e1, S(e.p.cmdAddr, RR, e.p.vr, false));
    r := SentBy(e1, []);
    assert [] + [S(e.p.cmdAddr, RR, e.p.vr, false)] == [S(e.p.cmdAddr, RR, e.p.vr, false)];
  }

  lemma HearsReady(e: End, g: Ghost, f: Frame, nr: nat)
    requires PInv(e.p, Nothing, g) && EndOk(e) && e.p.state == DATA && f.addr == e.p.rspAddr
    requires f.S? && f.super == RR && f.nr == nr % 128 && g.va <= nr <= g.ms
    ensures var r := Arrived(e, f, 0, []);
            !r.p.peerBusy && r.p.state == DATA && r.accepted == e.accepted && r.hdlc == e.hdlc && r.line == e.line
  {
    hide PInv, PeerInv, RxSuperCmd;
    PInvPeer(e.p, Nothing, g);
    ConditionHeard(e.p, Nothing, g, f, nr, []);
  }

  lemma ReadyRuns(s: Link, b1: End)
    requires EndOk(s.a) && EndOk(s.b) && EndOk(b1) && |b1.line| == 1 && b1.line[0].S? && EndOk(b1.(line := []))
    requires Local(s.b, Push(|s.b.p.rest|)).hdlc == Nothing && b1 == SentBy(Local(s.b, Push(|s.b.p.rest|)), [])
    ensures Run(s, Ready(s)) == Link(Arrived(s.a, b1.line[0], 0, []), b1.(line := []))
  {
    hide EndOk, Run, Local, Arrived, SentBy, Send;
    var v := Push(|s.b.p.rest|);
    var s0 := s.(b := Local(s.b, v));
    RunOne(s, false, v);
    SendRuns(s0, []);
    ArrivesAtFirst(s0.(b := b1), 0, []);
    RunAppend(s, [(false, v)], Send(false, []));
    RunAppend(s, [(false, v)] + Send(false, []), [(true, Arrive(0, []))]);
  }

  /**
   A busy condition ends.  After any history of two ends that start afresh, when everything under way has
   been lost and the second end is busy: once its consumer takes the rest and its RR arrives, neither end
   takes the other to be busy, and everything that was held back has been handed over.
   */
  lemma BusyEnds(s0: Link, events: seq<(bool, Event)>)
    requires LapmSafety.Fresh(s0.a) && LapmSafety.Fresh(s0.b)
    requires var s := Run(s0, events); Silence(s) && s.b.p.busy
    ensures EndOk(s0.a) && EndOk(s0.b)
    ensures var s := Run(s0, events);
            var r := Run(s0, events + Ready(s));
            && !r.a.p.peerBusy && !r.b.p.busy && r.b.p.rest == [] && r.a.p.state == r.b.p.state == DATA
            && r.b.accepted == s.b.accepted + s.b.p.rest && r.a.line == r.b.line == []
  {
    hide PInv, EndOk, Run, Inv, LapmSafety.Fresh, Ready, W.Timed, Local, Arrived, SentBy;
    var ga, gb := AfterHistory(s0, events);
    var s := Run(s0, events);
    HalvesOf(s, ga, gb);
    RestOf(s.b.p, Nothing, gb);
    CountIs(s.b.p, Nothing, gb);
    var b1 := HandsOver(s.b);
    HearsReady(s.a, ga, b1.line[0], gb.vr);
    NoLine(b1);
    ReadyRuns(s, b1);
    RunAppend(s0, events, Ready(s));
  }
}
