/**
 A history in which the sender does not resume with the frame that a rejection asks for: V(S)
 has been taken back by the answer to a poll, and the frames beyond it have been taken meanwhile.
 */
module LapmTakenBack {
  import opened Words
  import opened Lapm
  import opened LapmLink
  import opened LapmSafety
  import opened LapmRounds

  /** The characters of frame `i`. */
  function Chars(i: nat): Str
    requires i < 255
  {
    [i + 1]
  }

  /**
   The first end: frames 0 to `filled` - 1 filled, `acked` of them acknowledged, V(S) at `sent`,
   `ctl` control frames sent so far.
   */
  predicate First(e: End, sent: nat, acked: nat, filled: nat, ctl: nat, rtx: nat)
  {
    && EndOk(e) && e.hdlc == Nothing && e.p.state == DATA && !e.p.config && !e.p.peerBusy && !e.p.busy
    && e.p.cmdAddr == 3 && e.p.rspAddr == 1 && e.p.vr == 0 && e.p.txWin == 15
    && e.p.va == e.p.sentInfo == acked && e.p.vs == e.p.txInfo == sent && e.p.infoList == filled <= 3
    && e.p.txCtrl == e.p.ctrlList == ctl <= 4 && e.p.rtx == rtx && e.p.timer <= T401
    && (forall i: nat :: i < filled <= 3 ==> e.p.info[i].info == Chars(i))
  }

  /**
   The second end: it has sent no data, has taken `vr` frames, has sent a rejection if `rej`, and
   has `queue` still to send, from slot `head` on.
   */
  predicate Second(e: End, vr: nat, rej: bool, head: nat, queue: seq<Frame>)
  {
    && EndOk(e) && e.hdlc == Nothing && e.p.state == DATA && !e.p.config && !e.p.peerBusy && !e.p.busy
    && e.p.reject == rej
    && e.p.cmdAddr == 1 && e.p.rspAddr == 3 && e.p.vr == vr <= 3 && e.p.txWin == 15
    && e.p.vs == e.p.va == 0 && e.p.sentInfo == e.p.txInfo == e.p.infoList == 0
    && e.p.txCtrl == head && e.p.ctrlList == head + |queue| <= 7 && e.p.rtx == 0
    && e.p.ctrl[head..head + |queue|] == queue
  }

  // ----- the first end -----

  lemma SendsNext(e: End, n: nat, ctl: nat, rtx: nat)
    requires First(e, n, 0, n, ctl, rtx) && n < 3 && (rtx > 0 ==> e.p.timer > 0)
    ensures var r := SentBy(e, Chars(n));
            First(r, n + 1, 0, n + 1, ctl, rtx) && r.p.timer > 0 && r.line == e.line + [I(3, n, 0, false, Chars(n))]
  {
    var r := SentBy(e, Chars(n));
    assert r.p.info[n].info == Chars(n);
    forall i: nat | i < n + 1
      ensures r.p.info[i].info == Chars(i)
    {
      if i < n {
        assert r.p.info[i] == e.p.info[i];
      }
    }
  }

  lemma PollsAfterOne(e: End)
    requires First(e, 1, 0, 1, 2, 0) && e.p.timer > 0
    ensures var e1 := Local(e, Bits(T401));
            var r := SentBy(e1, []);
            && EndOk(e1) && e1.hdlc == Nothing && e1.line == e.line
            && First(r, 1, 0, 1, 3, 1) && r.p.timer > 0 && r.line == e.line + [S(3, RR, 0, true)]
  {}

  /** Acknowledgement of frame 0 while the poll is not yet answered, and then the answer. */
  lemma HearsAnswer(e: End, f: Frame, g: Frame)
    requires First(e, 3, 0, 3, 3, 1) && f == S(3, RR, 1, false) && g == S(3, RR, 1, true)
    ensures var e1 := Arrived(e, f, 0, []);
            var e2 := Arrived(e1, g, 0, []);
            First(e1, 3, 1, 3, 3, 1) && First(e2, 1, 1, 3, 3, 0) && e2.line == e1.line == e.line
  {
    var p := e.p;
    var p1 := p.(va := 1, sentInfo := 1);
    assert Release(p, 1) == Release(p1, 1) == p1;
    assert AckInfo(p, 1) == p1;
    assert AckInfo(p1, 1) == p1;
  }

  lemma SendsAgain(e: End)
    requires First(e, 1, 1, 3, 3, 0)
    ensures var r := SentBy(e, []);
            First(r, 2, 1, 3, 3, 0) && r.line == e.line + [I(3, 1, 0, false, Chars(1))]
  {}

  lemma HearsRest(e: End, f: Frame, g: Frame, h: Frame)
    requires First(e, 2, 1, 3, 3, 0) && f == S(3, RR, 2, false) && g == S(3, RR, 3, false) && h == S(3, REJ, 3, false)
    ensures var e1 := Arrived(e, f, 0, []);
            var e2 := Arrived(e1, g, 0, []);
            var e3 := Arrived(e2, h, 0, []);
            First(e1, 2, 2, 3, 3, 0) && First(e2, 2, 2, 3, 3, 0) && First(e3, 2, 2, 3, 3, 0)
  {
    var p := e.p;
    var p1 := p.(va := 2, sentInfo := 2);
    assert Release(p, 2) == Release(p1, 2) == p1;
    assert AckInfo(p, 2) == Stop(p1);
    assert AckInfo(Stop(p1), 3) == Stop(p1);
  }

  // ----- the second end -----

  lemma HearsInfo(e: End, i: nat, head: nat, queue: seq<Frame>)
    requires Second(e, i, false, head, queue) && i < 3 && head + |queue| < 7
    ensures var r := Arrived(e, I(3, i, 0, false, Chars(i)), 1, []);
            Second(r, i + 1, false, head, queue + [S(3, RR, i + 1, false)]) && r.line == e.line
  {
    var r := Arrived(e, I(3, i, 0, false, Chars(i)), 1, []);
    assert r.p.ctrl == e.p.ctrl[head + |queue| := S(3, RR, i + 1, false)];
    Queued1(e.p.ctrl, head, queue, S(3, RR, i + 1, false));
  }

  lemma Queued1(ctrl: seq<Frame>, head: nat, queue: seq<Frame>, f: Frame)
    requires head + |queue| < |ctrl| && ctrl[head..head + |queue|] == queue
    ensures ctrl[head + |queue| := f][head..head + |queue| + 1] == queue + [f]
  {}

  lemma HearsPoll(e: End, vr: nat, head: nat, queue: seq<Frame>)
    requires Second(e, vr, false, head, queue) && head + |queue| < 7
    ensures var r := Arrived(e, S(3, RR, 0, true), 0, []);
            Second(r, vr, false, head, queue + [S(3, RR, vr, true)]) && r.line == e.line
  {
    var r := Arrived(e, S(3, RR, 0, true), 0, []);
    assert r.p.ctrl == e.p.ctrl[head + |queue| := S(3, RR, vr, true)];
    Queued1(e.p.ctrl, head, queue, S(3, RR, vr, true));
  }

  /** Frame 1 again, when frame 3 is awaited. */
  lemma HearsOld(e: End, head: nat, queue: seq<Frame>)
    requires Second(e, 3, false, head, queue) && head + |queue| < 7
    ensures var r := Arrived(e, I(3, 1, 0, false, Chars(1)), 0, []);
            Second(r, 3, true, head, queue + [S(3, REJ, 3, false)]) && r.line == e.line
  {
    var r := Arrived(e, I(3, 1, 0, false, Chars(1)), 0, []);
    assert r.p.ctrl == e.p.ctrl[head + |queue| := S(3, REJ, 3, false)];
    Queued1(e.p.ctrl, head, queue, S(3, REJ, 3, false));
  }

  lemma SendsQueued(e: End, vr: nat, rej: bool, head: nat, f: Frame, queue: seq<Frame>)
    requires Second(e, vr, rej, head, [f] + queue)
    ensures var r := SentBy(e, []);
            Second(r, vr, rej, head + 1, queue) && r.line == e.line + [f]
  {
    assert e.p.ctrl[head] == ([f] + queue)[0];
    CtrlSent(e, f);
    assert e.p.ctrl[head + 1..head + 1 + |queue|] == ([f] + queue)[1..];
  }

  // ----- the history -----

  lemma FirstOk(e: End, sent: nat, acked: nat, filled: nat, ctl: nat, rtx: nat)
    requires First(e, sent, acked, filled, ctl, rtx)
    ensures EndOk(e) && e.hdlc == Nothing
  {}

  lemma SecondOk(e: End, vr: nat, rej: bool, head: nat, queue: seq<Frame>)
    requires Second(e, vr, rej, head, queue)
    ensures EndOk(e) && e.hdlc == Nothing
  {}

  /** The first end sends frame 0, polls, and sends frames 1 and 2. */
  lemma FirstSends(s: Link) returns (es: seq<(bool, Event)>, r: Link)
    requires First(s.a, 0, 0, 0, 2, 0) && EndOk(s.b) && s.b.hdlc == Nothing && s.a.line == []
    ensures Leads(s, es, r) && r.b == s.b && First(r.a, 3, 0, 3, 3, 1)
    ensures r.a.line == [I(3, 0, 0, false, Chars(0)), S(3, RR, 0, true), I(3, 1, 0, false, Chars(1)),
            I(3, 2, 0, false, Chars(2))]
  {
    hide EndOk, Run, SentBy, Local, First, Chars;
    FirstOk(s.a, 0, 0, 0, 2, 0);
    assert Leads(s, [], s) by { RunNone(s); }
    SendsNext(s.a, 0, 2, 0);
    es, r := ThenSends(s, [], s, true, Chars(0));
    PollsAfterOne(r.a);
    es, r := ThenDoes(s, es, r, true, Bits(T401));
    es, r := ThenSends(s, es, r, true, []);
    SendsNext(r.a, 1, 3, 1);
    FirstOk(r.a, 1, 0, 1, 3, 1);
    es, r := ThenSends(s, es, r, true, Chars(1));
    SendsNext(r.a, 2, 3, 1);
    FirstOk(r.a, 2, 0, 2, 3, 1);
    es, r := ThenSends(s, es, r, true, Chars(2));
  }

  /** The second end takes all three frames, and notes the poll after the first. */
  lemma SecondHears(s0: Link, es0: seq<(bool, Event)>, s: Link) returns (es: seq<(bool, Event)>, r: Link)
    requires Leads(s0, es0, s) && Second(s.b, 0, false, 2, [])
    requires s.a.line == [I(3, 0, 0, false, Chars(0)), S(3, RR, 0, true), I(3, 1, 0, false, Chars(1)),
             I(3, 2, 0, false, Chars(2))]
    ensures Leads(s0, es, r) && r.a == s.a.(line := []) && r.b.line == s.b.line
    ensures Second(r.b, 3, false, 2, [S(3, RR, 1, false), S(3, RR, 1, true), S(3, RR, 2, false), S(3, RR, 3, false)])
  {
    hide EndOk, Run, Arrived, Second, Leads;
    var l := s.a.line;
    Lengths();
    HearsInfo(s.b, 0, 2, []);
    es, r := ThenHears(s0, es0, s, false, 1, l[0], l[1..], []);
    HearsPoll(r.b, 1, 2, [S(3, RR, 1, false)]);
    es, r := ThenHears(s0, es, r, false, 0, l[1], l[2..], []);
    HearsInfo(r.b, 1, 2, [S(3, RR, 1, false), S(3, RR, 1, true)]);
    es, r := ThenHears(s0, es, r, false, 1, l[2], l[3..], []);
    HearsInfo(r.b, 2, 2, [S(3, RR, 1, false), S(3, RR, 1, true), S(3, RR, 2, false)]);
    es, r := ThenHears(s0, es, r, false, 1, l[3], [], []);
    assert [S(3, RR, 1, false), S(3, RR, 1, true), S(3, RR, 2, false)] + [S(3, RR, 3, false)]
        == [S(3, RR, 1, false), S(3, RR, 1, true), S(3, RR, 2, false), S(3, RR, 3, false)];
  }

  lemma Lengths()
    ensures |Chars(0)| == |Chars(1)| == |Chars(2)| == 1
  {}

  /** The answer to the poll takes V(S) back to 1; frame 1 goes out again and is rejected. */
  lemma AnswerHeard(s0: Link, es0: seq<(bool, Event)>, s: Link) returns (es: seq<(bool, Event)>, r: Link)
    requires Leads(s0, es0, s) && First(s.a, 3, 0, 3, 3, 1) && s.a.line == s.b.line == []
    requires Second(s.b, 3, false, 2, [S(3, RR, 1, false), S(3, RR, 1, true), S(3, RR, 2, false), S(3, RR, 3, false)])
    ensures Leads(s0, es, r) && First(r.a, 2, 1, 3, 3, 0) && r.a.line == r.b.line == []
    ensures Second(r.b, 3, true, 4, [S(3, RR, 2, false), S(3, RR, 3, false), S(3, REJ, 3, false)])
  {
    hide EndOk, Run, Arrived, Second, First, Leads, SentBy;
    var f, g, x, y := S(3, RR, 1, false), S(3, RR, 1, true), S(3, RR, 2, false), S(3, RR, 3, false);
    assert [f, g, x, y] == [f] + [g, x, y] && [g, x, y] == [g] + [x, y]
           && [x, y] + [S(3, REJ, 3, false)] == [x, y, S(3, REJ, 3, false)];
    FirstOk(s.a, 3, 0, 3, 3, 1);
    SecondOk(s.b, 3, false, 2, [f, g, x, y]);
    SendsQueued(s.b, 3, false, 2, f, [g, x, y]);
    es, r := ThenSends(s0, es0, s, false, []);
    SecondOk(r.b, 3, false, 3, [g, x, y]);
    SendsQueued(r.b, 3, false, 3, g, [x, y]);
    es, r := ThenSends(s0, es, r, false, []);
    SecondOk(r.b, 3, false, 4, [x, y]);
    assert r.b.line == [f] + [g];
    SecondLine(r.b, 3, false, 4, [x, y], []);
    HearsAnswer(r.a, f, g);
    es, r := ThenHears(s0, es, r, true, 0, f, [g], []);
    es, r := ThenHears(s0, es, r, true, 0, g, [], []);
    FirstOk(r.a, 1, 1, 3, 3, 0);
    SendsAgain(r.a);
    es, r := ThenSends(s0, es, r, true, []);
    assert r.a.line == [I(3, 1, 0, false, Chars(1))] + [];
    FirstLine(r.a, 2, 1, 3, 3, 0, []);
    HearsOld(r.b, 4, [x, y]);
    es, r := ThenHears(s0, es, r, false, 0, I(3, 1, 0, false, Chars(1)), [], []);
  }

  /** The remaining acknowledgements and the rejection. */
  lemma RestHeard(s0: Link, es0: seq<(bool, Event)>, s: Link) returns (es: seq<(bool, Event)>, r: Link)
    requires Leads(s0, es0, s) && First(s.a, 2, 1, 3, 3, 0) && s.a.line == s.b.line == []
    requires Second(s.b, 3, true, 4, [S(3, RR, 2, false), S(3, RR, 3, false), S(3, REJ, 3, false)])
    ensures Leads(s0, es, r) && First(r.a, 2, 1, 3, 3, 0) && Second(r.b, 3, true, 7, [])
    ensures r.a.line == [] && r.b.line == [S(3, RR, 2, false), S(3, RR, 3, false), S(3, REJ, 3, false)]
  {
    hide EndOk, Run, Arrived, Second, First, Leads, SentBy;
    var x, y, z := S(3, RR, 2, false), S(3, RR, 3, false), S(3, REJ, 3, false);
    assert [x, y, z] == [x] + [y, z] && [y, z] == [y] + [z] && [z] == [z] + [];
    FirstOk(s.a, 2, 1, 3, 3, 0);
    SecondOk(s.b, 3, true, 4, [x, y, z]);
    SendsQueued(s.b, 3, true, 4, x, [y, z]);
    es, r := ThenSends(s0, es0, s, false, []);
    SecondOk(r.b, 3, true, 5, [y, z]);
    SendsQueued(r.b, 3, true, 5, y, [z]);
    es, r := ThenSends(s0, es, r, false, []);
    SecondOk(r.b, 3, true, 6, [z]);
    SendsQueued(r.b, 3, true, 6, z, []);
    es, r := ThenSends(s0, es, r, false, []);
    assert r.b.line == [x, y, z];
  }

  /** Two ends just connected, with the shipped window. */
  predicate Start(s: Link)
  {
    Connected(s) && s.a.p.txWin == s.b.p.txWin == 15
  }

  lemma Starts(s: Link)
    requires Start(s)
    ensures First(s.a, 0, 0, 0, 2, 0) && Second(s.b, 0, false, 2, []) && s.a.line == s.b.line == []
    ensures EndOk(s.a) && EndOk(s.b)
  {}

  /**
   From two ends just connected there is a history after which the second end has taken frames 0 to
   2 and its rejection, which asks for frame 3, arrives; the first end acknowledges no more than
   frame 1 and goes back to frame 2.
   */
  lemma RejectionFallsShort(s: Link) returns (es: seq<(bool, Event)>, r: Link)
    requires Start(s)
    ensures EndOk(s.a) && EndOk(s.b) && Run(s, es) == r && r.b.p.vr == 3
    ensures |r.b.line| == 1 && r.b.line[0] == S(r.a.p.cmdAddr, REJ, 3, false) && EndOk(r.a)
    ensures var a := Arrived(r.a, r.b.line[0], 0, []);
            a.p.va == a.p.vs == 2
  {
    hide EndOk, Run, Arrived, Second, First, SentBy;
    var x, y, z := S(3, RR, 2, false), S(3, RR, 3, false), S(3, REJ, 3, false);
    Starts(s);
    FirstOk(s.a, 0, 0, 0, 2, 0);
    SecondOk(s.b, 0, false, 2, []);
    es, r := FirstSends(s);
    FirstLine(r.a, 3, 0, 3, 3, 1, []);
    es, r := SecondHears(s, es, r);
    es, r := AnswerHeard(s, es, r);
    es, r := RestHeard(s, es, r);
    HearsRest(r.a, x, y, z);
    assert r.b.line == [x] + [y, z] && [y, z] == [y] + [z];
    SecondLine(r.b, 3, true, 7, [], [z]);
    es, r := ThenHears(s, es, r, true, 0, x, [y, z], []);
    es, r := ThenHears(s, es, r, true, 0, y, [z], []);
    FirstCounts(r.a, 2, 2, 3, 3, 0);
    FirstCounts(Arrived(r.a, z, 0, []), 2, 2, 3, 3, 0);
    SecondLine(r.b, 3, true, 7, [], [z]);
  }

  lemma FirstLine(e: End, sent: nat, acked: nat, filled: nat, ctl: nat, rtx: nat, line: seq<Frame>)
    ensures First(e.(line := line), sent, acked, filled, ctl, rtx) == First(e, sent, acked, filled, ctl, rtx)
  {}

  lemma FirstCounts(e: End, sent: nat, acked: nat, filled: nat, ctl: nat, rtx: nat)
    requires First(e, sent, acked, filled, ctl, rtx)
    ensures EndOk(e) && e.p.vs == sent && e.p.va == acked && e.p.cmdAddr == 3
  {}

  lemma SecondLine(e: End, vr: nat, rej: bool, head: nat, queue: seq<Frame>, line: seq<Frame>)
    ensures Second(e.(line := line), vr, rej, head, queue) == Second(e, vr, rej, head, queue)
    ensures Second(e, vr, rej, head, queue) ==> e.p.vr == vr
  {}
}
