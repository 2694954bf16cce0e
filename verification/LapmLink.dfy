/**
 Two LAPM peers joined by lines that deliver in order and may lose frames, and the invariant
 that ties their sequence numbers together.
 */
module LapmLink {
  import opened Words
  import opened Lapm

  /**
   One end of the link: the peer, the slot that its HDLC transmitter is reading, the frames on
   their way to the other end (oldest first), and the characters taken from the local source
   and handed to the local consumer so far.
   */
  datatype End = End(p: Peer, hdlc: Grant, line: seq<Frame>, taken: Str, accepted: Str)

  /** Unbounded numbers of a frame on its way: its index if it carries data, the end of the
      frames sent by then, and the receive count that it reports. */
  datatype Mark = Mark(t: nat, m: nat, r: nat)

  /**
   What the sequence numbers stand for: all data frames filled so far, the unbounded values of
   V(A), V(S) and V(R), the end of the frames ever sent, the receive counts in the queued control
   frames, and the marks of the frame being transmitted and of the frames on the line.
   */
  datatype Ghost = Ghost(base: nat, frames: seq<Str>, va: nat, vs: nat, ms: nat, vr: nat,
                         cq: seq<nat>, fly: Mark, marks: seq<Mark>)

  function Concat(fs: seq<Str>): Str
  {
    if fs == [] then [] else Concat(fs[..|fs| - 1]) + fs[|fs| - 1]
  }

  /** The slot of data frame `i`, in a ring whose first frame was in slot `base`. */
  function ISlot(base: nat, i: nat): (s: nat)
    ensures s < INFO_SLOTS
  {
    (base + i) % INFO_SLOTS
  }

  /** The slot of the `j`-th control frame from `head` on. */
  function CSlot(head: nat, j: nat): (s: nat)
    ensures s < CTRL_SLOTS
  {
    (head + j) % CTRL_SLOTS
  }

  ghost predicate RingInv(p: Peer, g: Ghost)
    requires PeerInv(p)
  {
    var q := |g.frames|;
    && p.vs == g.vs % 128 && p.va == g.va % 128
    && g.va <= g.vs <= g.ms <= q <= g.va + 15 && q <= g.va + p.txWin
    && p.sentInfo == ISlot(g.base, g.va) && p.txInfo == ISlot(g.base, g.vs) && p.infoList == ISlot(g.base, q)
    && (forall i :: g.va <= i < q ==> p.info[ISlot(g.base, i)].info == g.frames[i])
  }

  predicate OkCtrl(f: Frame, r: nat)
  {
    !f.I? && (f.S? ==> f.nr == r % 128) && (f.U? ==> f.unnum != SABME && !f.unnum.XID?)
  }

  ghost predicate OkInfo(f: Frame, k: Mark, frames: seq<Str>)
  {
    && f.I? && k.t < |frames| && f.ns == k.t % 128 && f.nr == k.r % 128 && f.info == frames[k.t]
    && k.t < k.m <= k.t + 15
  }

  ghost predicate CtrlInv(p: Peer, g: Ghost)
    requires PeerInv(p)
  {
    && |g.cq| < CTRL_SLOTS && p.ctrlList == CSlot(p.txCtrl, |g.cq|)
    && (forall j :: 0 <= j < |g.cq| ==> OkCtrl(p.ctrl[CSlot(p.txCtrl, j)], g.cq[j]))
  }

  /** The frame being transmitted is still what it was when its transmission began. */
  ghost predicate FlyInv(p: Peer, h: Grant, g: Ghost)
    requires PeerInv(p)
  {
    match h
    case Nothing => true
    case Ctrl(s) => s == CSlot(p.txCtrl, 7) && OkCtrl(p.ctrl[s], g.fly.r)
    case Info(s) =>
      && s == ISlot(g.base, g.fly.t) && OkInfo(p.info[s], g.fly, g.frames)
      && (p.state == DATA ==> g.vs <= g.fly.t + 1)
  }

  ghost predicate PInv(p: Peer, h: Grant, g: Ghost)
  {
    && PeerInv(p) && p.state != ESTAB && !p.config
    && CtrlInv(p, g) && FlyInv(p, h, g)
    && (p.state == DATA ==> RingInv(p, g) && p.vr == g.vr % 128 && (p.busy <==> p.rest != []))
    && g.ms <= |g.frames|
  }

  // ----- arithmetic of the rings -----

  lemma SlotNext(base: nat, i: nat)
    ensures NextI(ISlot(base, i)) == ISlot(base, i + 1)
  {}

  lemma SlotsDistinct(base: nat, i: nat, j: nat)
    requires i < j < i + 16
    ensures ISlot(base, i) != ISlot(base, j)
  {
    assert (base + j) == (base + i) + (j - i);
  }

  lemma CSlotNext(head: nat, j: nat)
    ensures NextC(CSlot(head, j)) == CSlot(head, j + 1)
  {}

  lemma CSlotsDistinct(head: nat, i: nat, j: nat)
    requires i < j < i + 8
    ensures CSlot(head, i) != CSlot(head, j)
  {
    assert (head + j) == (head + i) + (j - i);
  }

  lemma Mod128Distinct(i: nat, j: nat)
    requires i < j < i + 128
    ensures i % 128 != j % 128
  {}

  lemma Mod128Difference(i: nat, j: nat)
    requires i <= j < i + 128
    ensures (j % 128 - i % 128) % 128 == j - i
  {}

  lemma Mod128Next(i: nat)
    ensures (i % 128 + 1) % 128 == (i + 1) % 128
  {}

  // ----- the sender -----

  /** Releasing one frame that has been sent. */
  lemma ReleaseOne(p: Peer, h: Grant, g: Ghost)
    requires PInv(p, h, g) && p.state == DATA && g.va < g.vs
    ensures p.sentInfo != p.txInfo
    ensures PInv(p.(sentInfo := NextI(p.sentInfo), va := (p.va + 1) % 128), h, g.(va := g.va + 1))
  {
    hide ISlot, CSlot, NextI, OkInfo, OkCtrl;
    SlotsDistinct(g.base, g.va, g.vs);
    SlotNext(g.base, g.va);
    Mod128Next(g.va);
  }

  /** `Release` acknowledges the frames before `nr`, but only those sent since the last rejection. */
  lemma {:induction false} ReleaseKeeps(p: Peer, h: Grant, g: Ghost, nr: nat) returns (g1: Ghost)
    requires PInv(p, h, g) && p.state == DATA && g.va <= nr <= g.ms
    ensures g1 == g.(va := g1.va) && g.va <= g1.va <= nr && (g1.va == nr || g1.va == g.vs)
    ensures Release(p, nr % 128) == p.(va := g1.va % 128, sentInfo := ISlot(g.base, g1.va))
    ensures PInv(Release(p, nr % 128), h, g1)
    decreases g.vs - g.va
  {
    hide ISlot, CSlot, NextI, OkInfo, OkCtrl, CtrlInv, FlyInv;
    if g.va == nr || g.va == g.vs {
      g1 := g;
    } else {
      Mod128Distinct(g.va, nr);
      ReleaseOne(p, h, g);
      var p1 := p.(sentInfo := NextI(p.sentInfo), va := (p.va + 1) % 128);
      g1 := ReleaseKeeps(p1, h, g.(va := g.va + 1), nr);
    }
  }

  /** Timers and flags do not matter. */
  lemma FlagsKeep(p: Peer, h: Grant, g: Ghost, peerBusy: bool, reject: bool, rtx: nat, timer: nat)
    requires PInv(p, h, g)
    ensures PInv(p.(peerBusy := peerBusy, reject := reject, rtx := rtx, timer := timer), h, g)
  {
    hide ISlot, CSlot, OkInfo, OkCtrl;
  }

  /**
   An acknowledgement of frames that were sent moves V(A) by the number of frames released, and
   changes nothing else but the timer.
   */
  lemma AckKeeps(p: Peer, h: Grant, g: Ghost, nr: nat) returns (g1: Ghost)
    requires PInv(p, h, g) && p.state == DATA && g.va <= nr <= g.ms
    ensures g1 == g.(va := g1.va) && g.va <= g1.va <= nr && (g1.va == nr || g1.va == g.vs)
    ensures var r := AckInfo(p, nr % 128);
            PInv(r, h, g1) && r == p.(va := r.va, sentInfo := r.sentInfo, rtx := r.rtx, timer := r.timer)
  {
    hide ISlot, CSlot, OkInfo, OkCtrl, CtrlInv, FlyInv, Release, Disconnect;
    Mod128Difference(g.va, g.vs);
    g1 := ReleaseKeeps(p, h, g, nr);
    var r := Release(p, nr % 128);
    FlagsKeep(r, h, g1, r.peerBusy, r.reject, 0, T401);
    FlagsKeep(r, h, g1, r.peerBusy, r.reject, 0, 0);
  }

  lemma RejectKeeps(p: Peer, h: Grant, g: Ghost)
    requires PInv(p, h, g) && p.state == DATA
    ensures PInv(RejectInfo(p), h, g.(vs := g.va))
  {
    hide ISlot, CSlot, OkInfo, OkCtrl;
  }

  lemma SlotWrap(base: nat, i: nat)
    ensures ISlot(base, i + 16) == ISlot(base, i)
  {}

  /** A slot is filled only while the ring keeps one slot free. */
  lemma RingHasRoom(p: Peer, g: Ghost)
    requires PeerInv(p) && RingInv(p, g) && p.txInfo == p.infoList && NextI(p.infoList) != p.sentInfo
    ensures g.vs == |g.frames| && |g.frames| < g.va + 15
  {
    hide ISlot, NextI;
    var q := |g.frames|;
    if g.vs < q {
      SlotsDistinct(g.base, g.vs, q);
    }
    SlotNext(g.base, q);
    SlotWrap(g.base, g.va);
  }

  lemma FillKeepsRing(p: Peer, g: Ghost, chars: Str)
    requires PeerInv(p) && RingInv(p, g) && g.vs == |g.frames| && |g.frames| < g.va + 15 && |g.frames| < g.va + p.txWin
    ensures var p1 := p.(info := p.info[p.infoList := p.info[p.infoList].(info := chars)],
            infoList := NextI(p.infoList));
            PeerInv(p1) && RingInv(p1, g.(frames := g.frames + [chars]))
  {
    hide ISlot, NextI;
    var q := |g.frames|;
    SlotNext(g.base, q);
    forall i | g.va <= i < q
      ensures ISlot(g.base, i) != ISlot(g.base, q)
    {
      SlotsDistinct(g.base, i, q);
    }
  }

  /** Filling a slot does not touch the frame being transmitted. */
  lemma FillKeepsFly(p: Peer, h: Grant, g: Ghost, chars: Str)
    requires PInv(p, h, g) && p.state == DATA && g.vs == |g.frames|
    ensures var p1 := p.(info := p.info[p.infoList := p.info[p.infoList].(info := chars)],
            infoList := NextI(p.infoList));
            PeerInv(p1) && FlyInv(p1, h, g.(frames := g.frames + [chars]))
  {
    hide ISlot, CSlot, OkCtrl;
    if h.Info? {
      SlotsDistinct(g.base, g.fly.t, |g.frames|);
    }
  }

  lemma TxInfoKeeps(p: Peer, h: Grant, g: Ghost, chars: Str) returns (g1: Ghost)
    requires PInv(p, h, g) && p.state == DATA
    ensures var r := TxInfo(p, chars).0;
            && PInv(r, h, g1) && g1 == g.(frames := if r.infoList != p.infoList then g.frames + [chars] else g.frames)
            && r == p.(info := r.info, infoList := r.infoList)
            && (TxInfo(p, chars).1 ==> g.vs < |g1.frames|)
  {
    hide ISlot, CSlot, OkInfo, OkCtrl, FlyInv, NextI;
    var r := TxInfo(p, chars).0;
    Mod128Difference(g.va, g.vs);
    SlotNext(g.base, |g.frames|);
    SlotsDistinct(g.base, |g.frames|, |g.frames| + 1);
    if r.infoList == p.infoList {
      g1 := g;
      if TxInfo(p, chars).1 {
        assert p.txInfo != p.infoList;
      }
    } else {
      RingHasRoom(p, g);
      FillKeepsRing(p, g, chars);
      FillKeepsFly(p, h, g, chars);
      g1 := g.(frames := g.frames + [chars]);
    }
  }

  // ----- control frames -----

  lemma CtrlKeepsFly(p: Peer, h: Grant, g: Ghost, f: Frame)
    requires PInv(p, h, g) && |g.cq| < 7
    ensures var p1 := p.(ctrl := p.ctrl[p.ctrlList := f], ctrlList := NextC(p.ctrlList));
            PeerInv(p1) && FlyInv(p1, h, g)
  {
    hide ISlot, CSlot, OkCtrl, OkInfo;
    CSlotsDistinct(p.txCtrl, |g.cq|, 7);
  }

  lemma CtrlKeepsQueue(p: Peer, g: Ghost, f: Frame)
    requires PeerInv(p) && CtrlInv(p, g) && |g.cq| < 7 && OkCtrl(f, g.vr)
    ensures var p1 := p.(ctrl := p.ctrl[p.ctrlList := f], ctrlList := NextC(p.ctrlList));
            PeerInv(p1) && CtrlInv(p1, g.(cq := g.cq + [g.vr]))
  {
    hide CSlot, OkCtrl, NextC;
    CSlotNext(p.txCtrl, |g.cq|);
    forall j | 0 <= j < |g.cq|
      ensures CSlot(p.txCtrl, j) != CSlot(p.txCtrl, |g.cq|)
    {
      CSlotsDistinct(p.txCtrl, j, |g.cq|);
    }
  }

  lemma CtrlFull(p: Peer, g: Ghost)
    requires PeerInv(p) && CtrlInv(p, g)
    ensures NextC(p.ctrlList) == p.txCtrl <==> |g.cq| == 7
  {}

  /** The receive counts after queueing: the same, or one more, the present one. */
  predicate Queued(cq: seq<nat>, cq1: seq<nat>, vr: nat)
  {
    cq1 == cq || cq1 == cq + [vr]
  }

  lemma TxCtrlKeeps(p: Peer, h: Grant, g: Ghost, f: Frame) returns (g1: Ghost)
    requires PInv(p, h, g) && OkCtrl(f, g.vr)
    ensures var r := TxCtrl(p, f);
            PInv(r, h, g1) && g1 == g.(cq := g1.cq) && Queued(g.cq, g1.cq, g.vr)
            && r == p.(ctrl := r.ctrl, ctrlList := r.ctrlList)
  {
    hide ISlot, CSlot, OkInfo, OkCtrl, FlyInv, CtrlInv;
    CtrlFull(p, g);
    assert |g.cq| <= 7 by { CtrlBound(p, g); }
    if |g.cq| == 7 {
      g1 := g;
    } else {
      CtrlKeepsFly(p, h, g, f);
      CtrlKeepsQueue(p, g, f);
      g1 := g.(cq := g.cq + [g.vr]);
      FlyIgnoresQueue(TxCtrl(p, f), h, g, g1.cq);
    }
  }

  lemma CtrlBound(p: Peer, g: Ghost)
    requires PeerInv(p) && CtrlInv(p, g)
    ensures |g.cq| <= 7
  {}

  lemma FlyIgnoresQueue(p: Peer, h: Grant, g: Ghost, cq: seq<nat>)
    requires PeerInv(p) && FlyInv(p, h, g)
    ensures FlyInv(p, h, g.(cq := cq))
  {}
}
