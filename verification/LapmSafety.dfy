/**
 Safety of the link over whole runs: what one end has handed to its consumer is a prefix of what
 the other end has taken from its source.
 */
module LapmSafety {
  import opened Words
  import opened Lapm
  import opened LapmLink
  import opened LapmEvents

  // ----- the system -----

  datatype Link = Link(a: End, b: End)

  /** Events at one end.  `k` is how much the consumer takes, `chars` what the source gives. */
  datatype Event =
    | Grant(chars: Str)           // the HDLC transmitter asks for a frame
    | Complete                    // the frame being transmitted is on the line
    | Lose(i: nat)                // a frame on the line to the other end is lost
    | Arrive(k: nat, chars: Str)  // the oldest frame from the other end arrives
    | Bits(n: nat)                // time passes
    | Push(k: nat)                // the busy receiver tries to hand over the rest
    | Hangup                      // the local user disconnects

  function Content(e: End): Frame
    requires PeerInv(e.p) && (e.hdlc.Ctrl? ==> e.hdlc.slot < CTRL_SLOTS) && (e.hdlc.Info? ==> e.hdlc.slot < INFO_SLOTS)
    requires !e.hdlc.Nothing?
  {
    if e.hdlc.Ctrl? then e.p.ctrl[e.hdlc.slot] else e.p.info[e.hdlc.slot]
  }

  predicate EndOk(e: End)
  {
    PeerInv(e.p) && (e.hdlc.Ctrl? ==> e.hdlc.slot < CTRL_SLOTS) && (e.hdlc.Info? ==> e.hdlc.slot < INFO_SLOTS)
  }

  /** One end after an event that does not involve the other end's line. */
  function Local(e: End, v: Event): (r: End)
    requires EndOk(e)
    ensures EndOk(r)
  {
    match v
    case Grant(chars) =>
      if !e.hdlc.Nothing? then e
      else
        var (p, gr) := GetTxFrame(e.p, chars);
        e.(p := p, hdlc := gr, taken := if p.infoList != e.p.infoList then e.taken + chars else e.taken)
    case Complete => if e.hdlc.Nothing? then e else e.(line := e.line + [Content(e)], hdlc := Nothing)
    case Lose(i) => if i < |e.line| then e.(line := e.line[..i] + e.line[i + 1..]) else e
    case Arrive(_, _) => e
    case Bits(n) => e.(p := Elapse(e.p, n))
    case Push(k) =>
      if k <= |e.p.rest| then
        e.(p := PushRest(e.p, k), accepted := if e.p.state == DATA then e.accepted + e.p.rest[..k] else e.accepted)
      else e
    case Hangup => e.(p := Disconnect(e.p))
  }

  /** One end after frame `f` has arrived. */
  function Arrived(e: End, f: Frame, k: nat, chars: Str): (r: End)
    requires EndOk(e) && (f.I? ==> k <= |f.info|)
    ensures EndOk(r)
  {
    var p := Receive(e.p, f, k, chars);
    e.(p := p,
       taken := if p.infoList != e.p.infoList then e.taken + chars else e.taken,
       accepted := if Accepts(e.p, f) then e.accepted + f.info[..k] else e.accepted)
  }

  /** An event at the first end of a link. */
  function StepFirst(s: Link, v: Event): (r: Link)
    requires EndOk(s.a) && EndOk(s.b)
    ensures EndOk(r.a) && EndOk(r.b)
  {
    if !v.Arrive? then s.(a := Local(s.a, v))
    else if s.b.line == [] || (s.b.line[0].I? && v.k > |s.b.line[0].info|) then s
    else Link(Arrived(s.a, s.b.line[0], v.k, v.chars), s.b.(line := s.b.line[1..]))
  }

  function Swap(s: Link): Link { Link(s.b, s.a) }

  /** An event at either end. */
  function Step(s: Link, atFirst: bool, v: Event): (r: Link)
    requires EndOk(s.a) && EndOk(s.b)
    ensures EndOk(r.a) && EndOk(r.b)
  {
    if atFirst then StepFirst(s, v) else Swap(StepFirst(Swap(s), v))
  }

  // ----- the invariant -----

  /** Marks of all frames that have left the control queue: on the line and being transmitted. */
  function Out(e: End, g: Ghost): seq<Mark>
  {
    g.marks + (if e.hdlc.Nothing? then [] else [g.fly])
  }

  /** Bounds on what is under way: `vr` and `va` are the other end's counts, `ms` and `up` this end's. */
  predicate Bounded(out: seq<Mark>, cq: seq<nat>, vr: nat, ms: nat, va: nat, up: nat)
  {
    && (forall i :: 0 <= i < |out| ==> vr <= out[i].m <= ms && out[i].t <= vr + 15 && va <= out[i].r <= up)
    && (forall j :: 0 <= j < |cq| ==> va <= cq[j] <= up)
  }

  /** Frames are under way in the order in which they were made. */
  predicate Ordered(out: seq<Mark>, cq: seq<nat>)
  {
    && (forall i, j :: 0 <= i < j < |out| ==> out[i].m <= out[j].m && out[i].r <= out[j].r)
    && (forall i, j :: 0 <= i < |out| && 0 <= j < |cq| ==> out[i].r <= cq[j])
    && (forall i, j :: 0 <= i < j < |cq| ==> cq[i] <= cq[j])
  }

  ghost predicate LineInv(e: End, g: Ghost)
  {
    |e.line| == |g.marks| && forall i :: 0 <= i < |e.line| ==> Marked(e.line[i], g.marks[i], g.frames)
  }

  /** What holds for the data from `e` to `o`. */
  ghost predicate Half(e: End, ge: Ghost, o: End, go: Ghost)
  {
    && PInv(e.p, e.hdlc, ge) && LineInv(e, ge)
    && Bounded(Out(e, ge), ge.cq, go.vr, ge.ms, go.va, ge.vr) && Ordered(Out(e, ge), ge.cq)
    && ge.va <= go.vr <= ge.ms <= |ge.frames|
    && e.taken == Concat(ge.frames)
    && o.accepted + o.p.rest == Concat(ge.frames[..go.vr])
  }

  ghost predicate Inv(s: Link, ga: Ghost, gb: Ghost)
  {
    Half(s.a, ga, s.b, gb) && Half(s.b, gb, s.a, ga)
  }

  // ----- lemmas on sequences -----

  lemma ConcatSnoc(fs: seq<Str>, x: Str)
    ensures Concat(fs + [x]) == Concat(fs) + x
  {
    assert (fs + [x])[..|fs|] == fs;
  }

  lemma {:induction false} ConcatPrefix(fs: seq<Str>, n: nat)
    requires n <= |fs|
    ensures Concat(fs[..n]) <= Concat(fs)
    decreases |fs|
  {
    if n < |fs| {
      var init := fs[..|fs| - 1];
      assert init[..n] == fs[..n];
      ConcatPrefix(init, n);
    } else {
      assert fs[..n] == fs;
    }
  }

  /** Data that were filled later do not disturb the frames under way. */
  lemma LineGrows(e: End, g: Ghost, chars: Str)
    requires LineInv(e, g)
    ensures LineInv(e, g.(frames := g.frames + [chars]))
  {}

  lemma QueueKeeps(out: seq<Mark>, cq: seq<nat>, cq1: seq<nat>, vr: nat, ms: nat, va: nat, up: nat)
    requires Bounded(out, cq, vr, ms, va, up) && Ordered(out, cq) && Queued(cq, cq1, up) && va <= up
    ensures Bounded(out, cq1, vr, ms, va, up) && Ordered(out, cq1)
  {}

  lemma BoundedLater(out: seq<Mark>, cq: seq<nat>, vr: nat, ms: nat, va: nat, up: nat, ms1: nat, up1: nat)
    requires Bounded(out, cq, vr, ms, va, up) && ms <= ms1 && up <= up1
    ensures Bounded(out, cq, vr, ms1, va, up1)
  {}

  // ----- every event keeps the invariant -----

  /** Events that at most queue a control frame and move characters from the rest to the consumer. */
  lemma QuietKeeps(s: Link, ga: Ghost, gb: Ghost, a1: End, ga1: Ghost)
    requires Inv(s, ga, gb)
    requires a1 == s.a.(p := a1.p, accepted := a1.accepted)
    requires PInv(a1.p, a1.hdlc, ga1) && ga1 == ga.(cq := ga1.cq) && Queued(ga.cq, ga1.cq, ga.vr)
    requires a1.accepted + a1.p.rest == s.a.accepted + s.a.p.rest
    ensures Inv(s.(a := a1), ga1, gb)
  {
    hide PInv, Bounded, Ordered, Marked, Queued;
    assert Out(a1, ga1) == Out(s.a, ga);
    QueueKeeps(Out(s.a, ga), ga.cq, ga1.cq, gb.vr, ga.ms, gb.va, ga.vr);
  }

  lemma GrantOut(e: End, g: Ghost, g1: Ghost, gr: Grant, vr: nat, va: nat)
    requires e.hdlc.Nothing? && !gr.Nothing? && (gr.Ctrl? ==> g.cq != []) && (gr.Info? ==> g.cq == [])
    requires Bounded(Out(e, g), g.cq, vr, g.ms, va, g.vr) && Ordered(Out(e, g), g.cq)
    requires g1.fly == Flying(g, gr) && g1.marks == g.marks && g1.vr == g.vr
    requires g1.ms == (if gr.Info? then g1.fly.m else g.ms) && g1.cq == (if gr.Ctrl? then g.cq[1..] else g.cq)
    requires vr <= g.ms && va <= g.vr && (gr.Info? ==> g.vs <= vr + 15)
    ensures var out := g1.marks + [g1.fly];
            Bounded(out, g1.cq, vr, g1.ms, va, g1.vr) && Ordered(out, g1.cq)
  {
    assert Out(e, g) == g.marks;
  }

  lemma SendingBound(p: Peer, g: Ghost)
    requires PInv(p, Nothing, g) && p.state == DATA
    ensures g.vs <= g.va + 15
  {}

  lemma GrantKeepsInv(s: Link, ga: Ghost, gb: Ghost, chars: Str) returns (ga1: Ghost)
    requires Inv(s, ga, gb) && EndOk(s.a)
    ensures Inv(s.(a := Local(s.a, Grant(chars))), ga1, gb)
  {
    hide PInv, Bounded, Ordered, Marked, Flying, GetTxFrame, PeerInv;
    ga1 := ga;
    if s.a.hdlc.Nothing? {
      ga1 := GrantKeeps(s.a.p, ga, chars);
      var (p, gr) := GetTxFrame(s.a.p, chars);
      var a1 := Local(s.a, Grant(chars));
      if p.infoList != s.a.p.infoList {
        LineGrows(s.a, ga, chars);
        ConcatSnoc(ga.frames, chars);
        assert ga1.frames[..gb.vr] == ga.frames[..gb.vr];
      }
      if gr.Nothing? {
        assert Out(a1, ga1) == Out(s.a, ga);
      } else {
        GrantState(s.a.p, ga, chars);
        GrantOut(s.a, ga, ga1, gr, gb.vr, gb.va);
      }
      FlyCount(a1.p, a1.hdlc, ga1);
      MsGrows(ga, gr);
    }
  }

  lemma MsGrows(g: Ghost, gr: Grant)
    requires gr.Ctrl? ==> g.cq != []
    ensures gr.Info? ==> g.ms <= Flying(g, gr).m
  {}

  lemma FlyCount(p: Peer, h: Grant, g: Ghost)
    requires PInv(p, h, g)
    ensures g.ms <= |g.frames|
  {}

  lemma GrantState(p: Peer, g: Ghost, chars: Str)
    requires PInv(p, Nothing, g)
    ensures GetTxFrame(p, chars).1.Info? ==> g.vs <= g.va + 15
  {
    hide TxInfo;
    if p.state == DATA {
      SendingBound(p, g);
    }
  }

  lemma FlyMarked(e: End, g: Ghost)
    requires EndOk(e) && PInv(e.p, e.hdlc, g) && !e.hdlc.Nothing?
    ensures Marked(Content(e), g.fly, g.frames)
    ensures PInv(e.p, Nothing, g)
  {}

  /** What goes on the line is what transmission began with. */
  lemma CompleteKeeps(s: Link, ga: Ghost, gb: Ghost) returns (ga1: Ghost)
    requires Inv(s, ga, gb) && EndOk(s.a)
    ensures Inv(s.(a := Local(s.a, Complete)), ga1, gb)
  {
    hide PInv, Bounded, Ordered, Marked, PeerInv;
    ga1 := ga;
    if !s.a.hdlc.Nothing? {
      FlyMarked(s.a, ga);
      ga1 := ga.(marks := ga.marks + [ga.fly]);
      var a1 := Local(s.a, Complete);
      assert Out(a1, ga1) == Out(s.a, ga);
      MarksIrrelevant(a1.p, Nothing, ga, ga1.marks);
    }
  }

  lemma MarksIrrelevant(p: Peer, h: Grant, g: Ghost, marks: seq<Mark>)
    requires PInv(p, h, g)
    ensures PInv(p, h, g.(marks := marks))
  {
    hide ISlot, CSlot, OkInfo, OkCtrl;
  }

  /** Removing a frame keeps the order of the others. */
  lemma RemoveKeeps(out: seq<Mark>, i: nat, cq: seq<nat>, vr: nat, ms: nat, va: nat, up: nat)
    requires i < |out| && Bounded(out, cq, vr, ms, va, up) && Ordered(out, cq)
    ensures var out1 := out[..i] + out[i + 1..];
            Bounded(out1, cq, vr, ms, va, up) && Ordered(out1, cq)
  {
    var out1 := out[..i] + out[i + 1..];
    assert forall x :: 0 <= x < |out1| ==> out1[x] == out[if x < i then x else x + 1];
  }

  lemma RemoveFront(x: seq<Mark>, y: seq<Mark>, i: nat)
    requires i < |x|
    ensures (x + y)[..i] + (x + y)[i + 1..] == (x[..i] + x[i + 1..]) + y
  {
    assert (x + y)[..i] == x[..i] && (x + y)[i + 1..] == x[i + 1..] + y;
  }

  lemma LoseKeeps(s: Link, ga: Ghost, gb: Ghost, i: nat) returns (ga1: Ghost)
    requires Inv(s, ga, gb) && EndOk(s.a)
    ensures Inv(s.(a := Local(s.a, Lose(i))), ga1, gb)
  {
    hide PInv, Bounded, Ordered, Marked, PeerInv;
    ga1 := ga;
    if i < |s.a.line| {
      ga1 := ga.(marks := ga.marks[..i] + ga.marks[i + 1..]);
      var a1 := Local(s.a, Lose(i));
      MarksIrrelevant(a1.p, a1.hdlc, ga, ga1.marks);
      var out := Out(s.a, ga);
      RemoveKeeps(out, i, ga.cq, gb.vr, ga.ms, gb.va, ga.vr);
      RemoveFront(ga.marks, if s.a.hdlc.Nothing? then [] else [ga.fly], i);
      assert out[..i] + out[i + 1..] == Out(a1, ga1);
      assert forall x :: 0 <= x < |a1.line| ==>
        (a1.line[x] == s.a.line[if x < i then x else x + 1] && ga1.marks[x] == ga.marks[if x < i then x else x + 1]);
    }
  }

  // ----- arrival -----

  /** Only the frame that is next in sequence carries the number that the receiver expects. */
  lemma InSequence(e: End, ge: Ghost, o: End, go: Ghost)
    requires Half(o, go, e, ge) && o.line != [] && Accepts(e.p, o.line[0]) && PInv(e.p, e.hdlc, ge)
    ensures go.marks[0].t == ge.vr && ge.vr < |go.frames| && o.line[0].info == go.frames[ge.vr]
    ensures ge.vr + 1 <= go.marks[0].m && e.p.rest == []
  {
    hide RingInv, CtrlInv, FlyInv, Ordered;
    var k := go.marks[0];
    assert Marked(o.line[0], k, go.frames);
    assert Out(o, go)[0] == k;
    if k.t < ge.vr {
      Mod128Distinct(k.t, ge.vr);
    } else if ge.vr < k.t {
      Mod128Distinct(ge.vr, k.t);
    }
  }

  /** The frames behind the one that arrived. */
  lemma HeadGone(out: seq<Mark>, cq: seq<nat>, vr: nat, ms: nat, va: nat, up: nat, vr1: nat, va1: nat)
    requires out != [] && Bounded(out, cq, vr, ms, va, up) && Ordered(out, cq)
    requires vr <= vr1 <= out[0].m && va1 <= out[0].r
    ensures Bounded(out[1..], cq, vr1, ms, va1, up) && Ordered(out[1..], cq)
  {}

  /** The half of the invariant in which the arriving frame carried data. */
  lemma ArriveHalf(o: End, go: Ghost, e: End, ge: Ghost, e1: End, ge1: Ghost, k: nat)
    requires Half(o, go, e, ge) && o.line != [] && PInv(e.p, e.hdlc, ge) && (o.line[0].I? ==> k <= |o.line[0].info|)
    requires ge1.va <= go.marks[0].r
    requires ge1.vr == (if Accepts(e.p, o.line[0]) then ge.vr + 1 else ge.vr)
    requires e1.p.rest == (if Accepts(e.p, o.line[0]) then o.line[0].info[k..] else e.p.rest)
    requires e1.accepted == (if Accepts(e.p, o.line[0]) then e.accepted + o.line[0].info[..k] else e.accepted)
    ensures Half(o.(line := o.line[1..]), go.(marks := go.marks[1..]), e1, ge1)
  {
    hide PInv, Bounded, Ordered, Marked;
    var o1, go1 := o.(line := o.line[1..]), go.(marks := go.marks[1..]);
    MarksIrrelevant(o.p, o.hdlc, go, go1.marks);
    var out := Out(o, go);
    assert out[0] == go.marks[0] && out[1..] == Out(o1, go1);
    HeadBounds(out, go.cq, ge.vr, go.ms, ge.va, go.vr);
    if Accepts(e.p, o.line[0]) {
      InSequence(e, ge, o, go);
      FrameAccepted(go.frames, ge.vr, e.accepted, o.line[0].info, k);
      assert e.accepted + [] == e.accepted;
    }
    HeadGone(out, go.cq, ge.vr, go.ms, ge.va, go.vr, ge1.vr, ge1.va);
  }

  lemma FrameAccepted(frames: seq<Str>, n: nat, accepted: Str, info: Str, k: nat)
    requires n < |frames| && accepted == Concat(frames[..n]) && frames[n] == info && k <= |info|
    ensures (accepted + info[..k]) + info[k..] == Concat(frames[..n + 1])
  {
    assert frames[..n + 1] == frames[..n] + [info];
    ConcatSnoc(frames[..n], info);
    assert (accepted + info[..k]) + info[k..] == accepted + info;
  }

  lemma HeadBounds(out: seq<Mark>, cq: seq<nat>, vr: nat, ms: nat, va: nat, up: nat)
    requires out != [] && Bounded(out, cq, vr, ms, va, up)
    ensures vr <= out[0].m <= ms && va <= out[0].r <= up
  {}

  /** The half of the invariant in which the receiving end is the sender. */
  lemma ArriveOther(e: End, ge: Ghost, o: End, go: Ghost, e1: End, ge1: Ghost, go1: Ghost, chars: Str, limit: nat)
    requires Half(e, ge, o, go) && PInv(e1.p, e1.hdlc, ge1) && Progress(e.p, ge, e1.p, ge1, chars, limit)
             && limit <= go.vr
    requires e1 == e.(p := e1.p, taken := e1.taken, accepted := e1.accepted)
    requires e1.taken == (if e1.p.infoList != e.p.infoList then e.taken + chars else e.taken)
    requires ge.vr <= ge1.vr && go1 == go.(marks := go1.marks) && go.va <= ge.vr
    ensures Half(e1, ge1, o, go1)
  {
    hide PInv, Bounded, Ordered, Marked, Queued;
    if e1.p.infoList != e.p.infoList {
      LineGrows(e, ge, chars);
      ConcatSnoc(ge.frames, chars);
      assert ge1.frames[..go.vr] == ge.frames[..go.vr];
    }
    assert Out(e1, ge1) == Out(e, ge);
    BoundedLater(Out(e, ge), ge.cq, go.vr, ge.ms, go.va, ge.vr, ge.ms, ge1.vr);
    QueueKeeps(Out(e, ge), ge.cq, ge1.cq, go.vr, ge.ms, go.va, ge1.vr);
  }

  lemma ArriveKeeps(s: Link, ga: Ghost, gb: Ghost, k: nat, chars: Str) returns (ga1: Ghost, gb1: Ghost)
    requires Inv(s, ga, gb) && EndOk(s.a) && EndOk(s.b)
    ensures Inv(StepFirst(s, Arrive(k, chars)), ga1, gb1)
  {
    hide PInv, Bounded, Ordered, Marked, PeerInv, Receive, Progress, Accepts;
    ga1, gb1 := ga, gb;
    if s.b.line != [] && !(s.b.line[0].I? && k > |s.b.line[0].info|) {
      var f := s.b.line[0];
      var m := gb.marks[0];
      assert Out(s.b, gb)[0] == m;
      HeadBounds(Out(s.b, gb), gb.cq, ga.vr, gb.ms, ga.va, gb.vr);
      ga1 := ReceiveKeeps(s.a.p, s.a.hdlc, ga, f, m, gb.frames, k, chars);
      gb1 := gb.(marks := gb.marks[1..]);
      var a1 := Arrived(s.a, f, k, chars);
      ProgressVa(s.a.p, ga, a1.p, ga1, chars, m.r);
      ArriveHalf(s.b, gb, s.a, ga, a1, ga1, k);
      ArriveOther(s.a, ga, s.b, gb, a1, ga1, gb1, chars, m.r);
      HalfIgnoresLine(a1, ga1, s.b, gb1, s.b.line[1..]);
    }
  }

  lemma ProgressVa(p: Peer, g: Ghost, p1: Peer, g1: Ghost, chars: Str, limit: nat)
    requires Progress(p, g, p1, g1, chars, limit)
    ensures g.va <= g1.va <= limit
  {}

  lemma HalfIgnoresLine(e: End, ge: Ghost, o: End, go: Ghost, line: seq<Frame>)
    requires Half(e, ge, o, go)
    ensures Half(e, ge, o.(line := line), go)
  {
    hide PInv, Bounded, Ordered, Marked;
  }

  // ----- runs -----

  lemma StepFirstKeeps(s: Link, ga: Ghost, gb: Ghost, v: Event) returns (ga1: Ghost, gb1: Ghost)
    requires Inv(s, ga, gb) && EndOk(s.a) && EndOk(s.b)
    ensures Inv(StepFirst(s, v), ga1, gb1)
  {
    hide PInv, PeerInv, Half, Elapse, PushRest, Disconnect, Receive;
    ga1, gb1 := ga, gb;
    var e := s.a;
    match v
    case Grant(chars) => ga1 := GrantKeepsInv(s, ga, gb, chars);
    case Complete => ga1 := CompleteKeeps(s, ga, gb);
    case Lose(i) => ga1 := LoseKeeps(s, ga, gb, i);
    case Arrive(k, chars) => ga1, gb1 := ArriveKeeps(s, ga, gb, k, chars);
    case Bits(n) =>
      HalfPInv(e, ga, s.b, gb);
      ga1 := ElapseKeeps(e.p, e.hdlc, ga, n);
      QuietKeeps(s, ga, gb, Local(e, v), ga1);
    case Push(k) =>
      if k <= |e.p.rest| {
        HalfPInv(e, ga, s.b, gb);
        ga1 := PushKeeps(e.p, e.hdlc, ga, k);
        assert (e.accepted + e.p.rest[..k]) + e.p.rest[k..] == e.accepted + e.p.rest;
        QuietKeeps(s, ga, gb, Local(e, v), ga1);
      }
    case Hangup =>
      HalfPInv(e, ga, s.b, gb);
      ga1 := DisconnectKeeps(e.p, e.hdlc, ga);
      QuietKeeps(s, ga, gb, Local(e, v), ga1);
  }

  lemma HalfPInv(e: End, ge: Ghost, o: End, go: Ghost)
    requires Half(e, ge, o, go)
    ensures PInv(e.p, e.hdlc, ge)
  {}

  function Run(s: Link, events: seq<(bool, Event)>): (r: Link)
    requires EndOk(s.a) && EndOk(s.b)
    ensures EndOk(r.a) && EndOk(r.b)
    decreases |events|
  {
    if events == [] then s else Run(Step(s, events[0].0, events[0].1), events[1..])
  }

  lemma {:induction false} RunKeeps(s: Link, ga: Ghost, gb: Ghost, events: seq<(bool, Event)>)
      returns (ga1: Ghost, gb1: Ghost)
    requires Inv(s, ga, gb) && EndOk(s.a) && EndOk(s.b)
    ensures Inv(Run(s, events), ga1, gb1)
    decreases |events|
  {
    hide Half, StepFirst, EndOk;
    if events == [] {
      ga1, gb1 := ga, gb;
    } else {
      var s1 := Step(s, events[0].0, events[0].1);
      if events[0].0 {
        ga1, gb1 := StepFirstKeeps(s, ga, gb, events[0].1);
      } else {
        gb1, ga1 := StepFirstKeeps(Swap(s), gb, ga, events[0].1);
      }
      ga1, gb1 := RunKeeps(s1, ga1, gb1, events[1..]);
    }
  }

  /** A peer that has just entered the data state, with empty rings and nothing under way. */
  predicate Fresh(e: End)
  {
    && PeerInv(e.p) && e.p.state == DATA && !e.p.busy && !e.p.config && e.p.rest == []
    && e.p.vs == 0 && e.p.va == 0 && e.p.vr == 0
    && e.p.sentInfo == e.p.infoList && e.p.txInfo == e.p.infoList && e.p.txCtrl == e.p.ctrlList
    && e.hdlc == Nothing && e.line == [] && e.taken == [] && e.accepted == []
  }

  /** Two ends just after connecting: the first one called, and each has sent two control frames. */
  predicate Connected(s: Link)
  {
    && Fresh(s.a) && Fresh(s.b) && Unused(s.a.p) && Unused(s.b.p)
    && s.a.p.cmdAddr == s.b.p.rspAddr == 3 && s.a.p.rspAddr == s.b.p.cmdAddr == 1
  }

  /** No data frame has been filled, nothing is rejected, and T401 is stopped. */
  predicate Unused(p: Peer)
  {
    p.infoList == 0 && p.ctrlList == 2 && !p.reject && !p.peerBusy && p.timer == 0 && p.rtx == 0
  }

  function FreshGhost(e: End): Ghost
  {
    Ghost(e.p.infoList, [], 0, 0, 0, 0, [], Mark(0, 0, 0), [])
  }

  lemma FreshPeer(e: End)
    requires Fresh(e)
    ensures PInv(e.p, Nothing, FreshGhost(e))
  {}

  lemma FreshInv(s: Link)
    requires Fresh(s.a) && Fresh(s.b)
    ensures Inv(s, FreshGhost(s.a), FreshGhost(s.b))
  {
    hide PInv, PeerInv;
    FreshPeer(s.a);
    FreshPeer(s.b);
  }

  /**
   Go-back-N is safe.  From two peers that have just entered the data state, after any history of
   transmissions, losses, acknowledgements, rejections, busy conditions, timeouts and disconnections,
   the characters that either end has handed to its consumer are a prefix of the characters that
   the other end has taken from its source, with nothing lost, repeated or out of order.
   */
  lemma PrefixSafety(s: Link, events: seq<(bool, Event)>)
    requires Fresh(s.a) && Fresh(s.b)
    ensures var r := Run(s, events);
            r.b.accepted <= r.a.taken && r.a.accepted <= r.b.taken
  {
    hide Run, PInv, Bounded, Ordered;
    FreshInv(s);
    var ga, gb := RunKeeps(s, FreshGhost(s.a), FreshGhost(s.b), events);
    var r := Run(s, events);
    ConcatPrefix(ga.frames, gb.vr);
    ConcatPrefix(gb.frames, ga.vr);
    assert r.b.accepted <= r.b.accepted + r.b.p.rest;
    assert r.a.accepted <= r.a.accepted + r.a.p.rest;
  }
}
