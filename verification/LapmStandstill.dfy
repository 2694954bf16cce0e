/**
 When a connected peer falls silent for good: a history after which both ends stand still although
 the first has a frame that the second waits for, and the exact condition.
 */
module LapmStandstill {
  import opened Words
  import opened Lapm
  import opened LapmLink
  import opened LapmSafety
  import opened LapmEvents
  import opened LapmRounds
  import W = LapmClock

  // ----- a history -----

  /** V(S), V(A), frames filled, V(R), the retransmission count, T401, the condition of the other end, and the rest. */
  datatype Counts = Counts(vs: nat, va: nat, fill: nat, vr: nat, rtx: nat, timer: nat, peerBusy: bool, rest: Str)

  /** An end with address `me` for commands, and `queue` to send from control slot `ctl` on. */
  predicate At(e: End, me: nat, c: Counts, ctl: nat, queue: seq<Frame>)
  {
    && EndOk(e) && e.hdlc == Nothing && e.p.state == DATA && !e.p.config && !e.p.reject && me <= 4
    && e.p.cmdAddr == me && e.p.rspAddr == 4 - me && e.p.txWin == 15
    && e.p.vs == e.p.txInfo == c.vs <= 2 && e.p.va == e.p.sentInfo == c.va <= c.vs && e.p.infoList == c.fill <= 2
    && e.p.vr == c.vr <= 2 && e.p.rtx == c.rtx && e.p.timer == c.timer && e.p.peerBusy == c.peerBusy
    && e.p.rest == c.rest && (e.p.busy <==> c.rest != [])
    && e.p.txCtrl == ctl && e.p.ctrlList == ctl + |queue| <= 6 && e.p.ctrl[ctl..ctl + |queue|] == queue
  }

  lemma AtOk(e: End, me: nat, c: Counts, ctl: nat, queue: seq<Frame>)
    requires At(e, me, c, ctl, queue)
    ensures EndOk(e) && e.hdlc == Nothing
  {}

  lemma AtLine(e: End, me: nat, c: Counts, ctl: nat, queue: seq<Frame>, line: seq<Frame>)
    ensures At(e.(line := line), me, c, ctl, queue) == At(e, me, c, ctl, queue)
  {}

  const ZERO := Counts(0, 0, 0, 0, 0, 0, false, [])

  /** An end sends its first frame. */
  lemma SendsFirst(e: End, me: nat, chars: Str)
    requires At(e, me, ZERO, 2, []) && chars != []
    ensures var r := SentBy(e, chars);
            At(r, me, Counts(1, 0, 1, 0, 0, T401, false, []), 2, []) && r.line == e.line + [I(me, 0, 0, false, chars)]
  {}

  lemma SendsQueue(e: End, me: nat, c: Counts, ctl: nat, f: Frame)
    requires At(e, me, c, ctl, [f]) && ctl <= 5
    ensures var r := SentBy(e, []);
            At(r, me, c, ctl + 1, []) && r.line == e.line + [f]
  {
    assert e.p.ctrl[ctl] == [f][0];
    CtrlSent(e, f);
  }

  lemma Loses(e: End, me: nat, c: Counts, ctl: nat, queue: seq<Frame>, f: Frame)
    requires At(e, me, c, ctl, queue) && e.line == [f]
    ensures Local(e, Lose(0)) == e.(line := []) && At(e.(line := []), me, c, ctl, queue)
  {
    assert [f][..0] + [f][0 + 1..] == [];
  }

  /** The first end takes a frame and fills the next one, which serves as the acknowledgement. */
  lemma TakesAndFills(e: End, x: Str, chars: Str)
    requires At(e, 3, Counts(1, 0, 1, 0, 0, T401, false, []), 2, []) && chars != []
    ensures var r := Arrived(e, I(1, 0, 0, false, x), |x|, chars);
            At(r, 3, Counts(1, 0, 2, 1, 0, T401, false, []), 2, []) && r.line == e.line
  {}

  /** The second end takes one character of two and turns busy. */
  lemma TakesOne(e: End, x: byte, y: byte)
    requires At(e, 1, Counts(1, 0, 1, 0, 0, T401, false, []), 2, [])
    ensures var r := Arrived(e, I(3, 0, 0, false, [x, y]), 1, []);
            At(r, 1, Counts(1, 0, 1, 1, 0, T401, false, [y]), 2, [S(3, RNR, 1, false)]) && r.line == e.line
  {
    assert [x, y][1..] == [y];
  }

  /** T401 of the second end expires: it polls, still busy. */
  lemma PollsBusy(e: End, y: byte)
    requires At(e, 1, Counts(1, 0, 1, 1, 0, T401, false, [y]), 3, [])
    ensures var r := Local(e, Bits(T401));
            At(r, 1, Counts(1, 0, 1, 1, 1, T401, false, [y]), 3, [S(1, RNR, 1, true)]) && r.line == e.line
  {}

  /** The first end learns that the other is busy, and T401 stops with the last acknowledgement. */
  lemma HearsBusy(e: End)
    requires At(e, 3, Counts(1, 0, 2, 1, 0, T401, false, []), 2, [])
    ensures var r := Arrived(e, S(1, RNR, 1, true), 0, []);
            At(r, 3, Counts(1, 1, 2, 1, 0, 0, true, []), 2, [S(1, RR, 1, true)]) && r.line == e.line
  {
    var p := e.p.(peerBusy := true);
    var p1 := p.(va := 1, sentInfo := 1);
    assert Release(p, 1) == Release(p1, 1) == p1;
    assert AckInfo(p, 1) == Stop(p1);
  }

  /** The answer to the poll of the second end stops its T401 too. */
  lemma HearsAnswer(e: End, y: byte)
    requires At(e, 1, Counts(1, 0, 1, 1, 1, T401, false, [y]), 4, [])
    ensures var r := Arrived(e, S(1, RR, 1, true), 0, []);
            At(r, 1, Counts(1, 1, 1, 1, 0, 0, false, [y]), 4, []) && r.line == e.line
  {
    var p := e.p.(peerBusy := false);
    var p1 := p.(va := 1, sentInfo := 1);
    assert Release(p, 1) == Release(p1, 1) == p1;
    assert AckInfo(p, 1) == p1;
  }

  /** The second end hands over the rest, and says once that it is ready again. */
  lemma ReadyAgain(e: End, y: byte)
    requires At(e, 1, Counts(1, 1, 1, 1, 0, 0, false, [y]), 4, [])
    ensures var r := Local(e, Push(1));
            At(r, 1, Counts(1, 1, 1, 1, 0, 0, false, []), 4, [S(1, RR, 1, false)]) && r.line == e.line
  {}

  const X0: Str := [1, 2]
  const X1: Str := [3]
  const Y0: Str := [9]

  /** Both ends send their first frame; each takes the other's, the second only in part. */
  lemma FirstFrames(s: Link) returns (es: seq<(bool, Event)>, r: Link)
    requires At(s.a, 3, ZERO, 2, []) && At(s.b, 1, ZERO, 2, []) && s.a.line == s.b.line == []
    ensures Leads(s, es, r) && r.a.line == r.b.line == []
    ensures At(r.a, 3, Counts(1, 0, 2, 1, 0, T401, false, []), 2, [])
    ensures At(r.b, 1, Counts(1, 0, 1, 1, 0, T401, false, [2]), 2, [S(3, RNR, 1, false)])
  {
    hide EndOk, Run, SentBy, Arrived, Local, At;
    AtOk(s.a, 3, ZERO, 2, []);
    AtOk(s.b, 1, ZERO, 2, []);
    assert Leads(s, [], s) by { RunNone(s); }
    SendsFirst(s.a, 3, X0);
    es, r := ThenSends(s, [], s, true, X0);
    AtOk(r.a, 3, Counts(1, 0, 1, 0, 0, T401, false, []), 2, []);
    SendsFirst(r.b, 1, Y0);
    es, r := ThenSends(s, es, r, false, Y0);
    assert r.b.line == [I(1, 0, 0, false, Y0)] + [] && r.a.line == [I(3, 0, 0, false, X0)] + [];
    TakesAndFills(r.a, Y0, X1);
    AtLine(r.b, 1, Counts(1, 0, 1, 0, 0, T401, false, []), 2, [], []);
    es, r := ThenHears(s, es, r, true, 1, I(1, 0, 0, false, Y0), [], X1);
    TakesOne(r.b, 1, 2);
    AtLine(r.a, 3, Counts(1, 0, 2, 1, 0, T401, false, []), 2, [], []);
    es, r := ThenHears(s, es, r, false, 1, I(3, 0, 0, false, X0), [], []);
  }

  /** The second end's RNR is lost; its poll and the answer to it stop T401 on both sides. */
  lemma BusyPolled(s0: Link, es0: seq<(bool, Event)>, s: Link) returns (es: seq<(bool, Event)>, r: Link)
    requires Leads(s0, es0, s) && s.a.line == s.b.line == []
    requires At(s.a, 3, Counts(1, 0, 2, 1, 0, T401, false, []), 2, [])
    requires At(s.b, 1, Counts(1, 0, 1, 1, 0, T401, false, [2]), 2, [S(3, RNR, 1, false)])
    ensures Leads(s0, es, r) && r.a.line == r.b.line == []
    ensures At(r.a, 3, Counts(1, 1, 2, 1, 0, 0, true, []), 3, [])
    ensures At(r.b, 1, Counts(1, 1, 1, 1, 0, 0, false, [2]), 4, [])
  {
    hide EndOk, Run, SentBy, Arrived, Local, At;
    var sent := Counts(1, 0, 1, 1, 0, T401, false, [2]);
    AtOk(s.a, 3, Counts(1, 0, 2, 1, 0, T401, false, []), 2, []);
    AtOk(s.b, 1, sent, 2, [S(3, RNR, 1, false)]);
    SendsQueue(s.b, 1, sent, 2, S(3, RNR, 1, false));
    es, r := ThenSends(s0, es0, s, false, []);
    assert r.b.line == [S(3, RNR, 1, false)];
    Loses(r.b, 1, sent, 3, [], S(3, RNR, 1, false));
    es, r := ThenDoes(s0, es, r, false, Lose(0));
    PollsBusy(r.b, 2);
    es, r := ThenDoes(s0, es, r, false, Bits(T401));
    var polled := Counts(1, 0, 1, 1, 1, T401, false, [2]);
    AtOk(r.b, 1, polled, 3, [S(1, RNR, 1, true)]);
    SendsQueue(r.b, 1, polled, 3, S(1, RNR, 1, true));
    es, r := ThenSends(s0, es, r, false, []);
    assert r.b.line == [S(1, RNR, 1, true)] + [];
    AtLine(r.b, 1, polled, 4, [], []);
    HearsBusy(r.a);
    es, r := ThenHears(s0, es, r, true, 0, S(1, RNR, 1, true), [], []);
    var stopped := Counts(1, 1, 2, 1, 0, 0, true, []);
    AtOk(r.a, 3, stopped, 2, [S(1, RR, 1, true)]);
    AtOk(r.b, 1, polled, 4, []);
    SendsQueue(r.a, 3, stopped, 2, S(1, RR, 1, true));
    es, r := ThenSends(s0, es, r, true, []);
    assert r.a.line == [S(1, RR, 1, true)] + [];
    AtLine(r.a, 3, stopped, 3, [], []);
    HearsAnswer(r.b, 2);
    es, r := ThenHears(s0, es, r, false, 0, S(1, RR, 1, true), [], []);
  }

  /**
   Both ends stand still: nothing is on the line or queued, T401 is stopped on both sides, the
   first end takes the second to be busy, and the second has nothing to send.
   */
  predicate Standing(s: Link)
  {
    && EndOk(s.a) && EndOk(s.b) && s.a.hdlc == s.b.hdlc == Nothing && s.a.line == s.b.line == []
    && s.a.p.state == s.b.p.state == DATA && s.a.p.timer == s.b.p.timer == 0
    && s.a.p.txCtrl == s.a.p.ctrlList && s.b.p.txCtrl == s.b.p.ctrlList
    && s.a.p.rest == s.b.p.rest == [] && s.a.p.peerBusy && s.b.p.txInfo == s.b.p.infoList
  }

  /**
   A history of two ends just connected after which both stand still, although the first end has
   filled frame 1 and the second, which is not busy, waits for it.
   */
  lemma ComesToStandstill(s: Link) returns (es: seq<(bool, Event)>, r: Link)
    requires Connected(s) && s.a.p.txWin == s.b.p.txWin == 15
    ensures EndOk(s.a) && EndOk(s.b) && Run(s, es) == r && Standing(r)
    ensures r.a.p.vs == r.a.p.va == 1 && r.a.p.infoList == NextI(r.a.p.txInfo) && r.b.p.vr == 1 && !r.b.p.busy
  {
    hide EndOk, Run, SentBy, Arrived, Local, At, Standing;
    StartsAt(s);
    es, r := FirstFrames(s);
    es, r := BusyPolled(s, es, r);
    var ready := Counts(1, 1, 1, 1, 0, 0, false, []);
    ReadyAgain(r.b, 2);
    es, r := ThenDoes(s, es, r, false, Push(1));
    AtOk(r.a, 3, Counts(1, 1, 2, 1, 0, 0, true, []), 3, []);
    AtOk(r.b, 1, ready, 4, [S(1, RR, 1, false)]);
    SendsQueue(r.b, 1, ready, 4, S(1, RR, 1, false));
    es, r := ThenSends(s, es, r, false, []);
    assert r.b.line == [S(1, RR, 1, false)];
    Loses(r.b, 1, ready, 5, [], S(1, RR, 1, false));
    es, r := ThenDoes(s, es, r, false, Lose(0));
    StandsAt(r);
  }

  lemma StartsAt(s: Link)
    requires Connected(s) && s.a.p.txWin == s.b.p.txWin == 15
    ensures At(s.a, 3, ZERO, 2, []) && At(s.b, 1, ZERO, 2, []) && s.a.line == s.b.line == []
    ensures EndOk(s.a) && EndOk(s.b)
  {}

  lemma StandsAt(s: Link)
    requires At(s.a, 3, Counts(1, 1, 2, 1, 0, 0, true, []), 3, [])
    requires At(s.b, 1, Counts(1, 1, 1, 1, 0, 0, false, []), 5, [])
    requires s.a.line == s.b.line == []
    ensures Standing(s) && s.a.p.vs == s.a.p.va == 1 && s.a.p.infoList == NextI(s.a.p.txInfo)
    ensures s.b.p.vr == 1 && !s.b.p.busy
  {}

  /** Nothing new comes from the source of the second end, and nobody hangs up. */
  predicate Idle(es: seq<(bool, Event)>)
  {
    forall i :: 0 <= i < |es| ==> !es[i].1.Hangup? && (es[i].1.Grant? && !es[i].0 ==> es[i].1.chars == [])
  }

  lemma StandingStep(s: Link, atFirst: bool, v: Event)
    requires Standing(s) && !v.Hangup? && (v.Grant? && !atFirst ==> v.chars == [])
    ensures Step(s, atFirst, v) == s
  {
    if atFirst {
      StandingFirst(s, v);
    } else {
      StandingSecond(s, v);
    }
  }

  lemma StandingFirst(s: Link, v: Event)
    requires Standing(s) && !v.Hangup?
    ensures StepFirst(s, v) == s
  {
    assert s.a.accepted + [] == s.a.accepted;
  }

  lemma StandingSecond(s: Link, v: Event)
    requires Standing(s) && !v.Hangup? && (v.Grant? ==> v.chars == [])
    ensures StepFirst(Swap(s), v) == Swap(s)
  {
    assert s.b.accepted + [] == s.b.accepted;
  }

  /** Whatever else happens, and however much time goes by, they never move again. */
  lemma {:induction false} StandsForever(s: Link, es: seq<(bool, Event)>)
    requires Standing(s) && Idle(es)
    ensures EndOk(s.a) && EndOk(s.b) && Run(s, es) == s
    decreases es
  {
    hide Step;
    if es != [] {
      StandingStep(s, es[0].0, es[0].1);
      StandsForever(s, es[1..]);
    }
  }

  // ----- the exact condition -----

  /** An expiry of T401 leaves a control frame to send: a poll, or DISC after the last one. */
  lemma ExpiryQueues(p: Peer)
    requires PeerInv(p) && p.state == DATA && !p.config && p.txCtrl == p.ctrlList
    ensures Timeout(p).txCtrl != Timeout(p).ctrlList
  {}

  lemma SendsQueued(e: End, chars: Str)
    requires EndOk(e) && e.hdlc == Nothing && e.p.txCtrl != e.p.ctrlList
    ensures SentBy(e, chars).line != []
  {}

  /** A connected end with nothing to send, which takes the other to be busy and has T401 stopped. */
  predicate Held(e: End)
  {
    && EndOk(e) && e.hdlc == Nothing && e.p.state == DATA && e.p.txCtrl == e.p.ctrlList
    && e.p.peerBusy && e.p.timer == 0
  }

  lemma HeldStep(e: End, v: Event)
    requires Held(e) && (v.Bits? || v.Grant? || v.Complete?)
    ensures Local(e, v) == e
  {}

  /** No time and no request makes such an end send anything. */
  lemma {:induction false} HeldForever(s: Link, es: seq<(bool, Event)>)
    requires Held(s.a) && EndOk(s.b)
    requires forall i :: 0 <= i < |es| ==> es[i].0 && (es[i].1.Bits? || es[i].1.Grant? || es[i].1.Complete?)
    ensures EndOk(s.a) && Run(s, es) == s
    decreases es
  {
    hide Local, Held;
    assert EndOk(s.a) by { HeldOk(s.a); }
    if es != [] {
      HeldStep(s.a, es[0].1);
      HeldForever(s, es[1..]);
    }
  }

  lemma HeldOk(e: End)
    requires Held(e)
    ensures EndOk(e)
  {}

  /** The first end when T401, if it runs, has expired and a frame is asked for. */
  lemma Speaks(s: Link, ga: Ghost, n: nat, chars: Str)
    requires Silence(s) && PInv(s.a.p, Nothing, ga) && W.Timed(s.a.p) && ga.va < |ga.frames| && s.a.p.timer <= n
    ensures var r := Run(s, [(true, Bits(n))] + Send(true, chars));
            r.a.line != [] <==> !(s.a.p.peerBusy && s.a.p.timer == 0)
  {
    hide PInv, EndOk, Run, SentBy, W.Timed, Timeout, PeerInv;
    PInvPeer(s.a.p, Nothing, ga);
    var e := Local(s.a, Bits(n));
    RunAppend(s, [(true, Bits(n))], Send(true, chars));
    RunOne(s, true, Bits(n));
    SendRuns(s.(a := e), chars);
    if s.a.p.timer > 0 {
      TimerOff(s.a.p);
      ExpiryQueues(s.a.p.(timer := 0));
      SendsQueued(e, chars);
    } else if s.a.p.peerBusy {
      HeldForever(s, [(true, Bits(n))] + Send(true, chars));
    } else {
      StoppedMeansNone(s.a.p, ga);
      var r, g1 := SendsFrame(s.a, ga, chars);
    }
  }

  /**
   When the first end speaks again.  After any history of two ends that start afresh, when everything
   under way has been lost and the second end lacks a frame that the first has filled: at its next
   request after an expiry, if T401 runs, the first end transmits if and only if it is not held back by a
   busy condition of the second with T401 stopped; otherwise it never does (`HeldForever`).
   */
  lemma SpeaksUnlessHeld(s0: Link, events: seq<(bool, Event)>, n: nat, chars: Str)
    returns (ga: Ghost, gb: Ghost)
    requires LapmSafety.Fresh(s0.a) && LapmSafety.Fresh(s0.b)
    requires var s := Run(s0, events); Silence(s) && s.a.p.timer <= n
    ensures Inv(Run(s0, events), ga, gb)
    ensures gb.vr < |ga.frames| ==>
              var s := Run(s0, events);
              var r := Run(s0, events + ([(true, Bits(n))] + Send(true, chars)));
              r.a.line != [] <==> !(s.a.p.peerBusy && s.a.p.timer == 0)
  {
    hide PInv, EndOk, Run, Inv, LapmSafety.Fresh, Send, W.Timed, Silence;
    ga, gb := AfterHistory(s0, events);
    var s := Run(s0, events);
    if gb.vr < |ga.frames| {
      SilentHalf(s, ga, gb);
      Speaks(s, ga, n, chars);
      RunAppend(s0, events, [(true, Bits(n))] + Send(true, chars));
    }
  }

  lemma SilentHalf(s: Link, ga: Ghost, gb: Ghost)
    requires Inv(s, ga, gb) && Silence(s)
    ensures PInv(s.a.p, Nothing, ga) && ga.va <= gb.vr
  {
    hide PInv, EndOk;
    HalvesOf(s, ga, gb);
  }
}
