/** T401: a peer that hears nothing more gives up after a bounded number of expiries. */
module LapmTimer {
  import opened Words
  import opened Lapm

  /** What can happen while no frame is received. */
  datatype Silent =
    | Draw(chars: Str)   // the HDLC transmitter asks for a frame
    | Tick(n: nat)       // `n` bits go by
    | Push(k: nat)       // the busy receiver hands over characters

  function Next(p: Peer, e: Silent): (r: Peer)
    requires PeerInv(p)
    ensures PeerInv(r)
  {
    match e
    case Draw(chars) => GetTxFrame(p, chars).0
    case Tick(n) => Elapse(p, n)
    case Push(k) => if k <= |p.rest| then PushRest(p, k) else p
  }

  predicate Expires(p: Peer, e: Silent)
  {
    e.Tick? && 0 < p.timer <= e.n
  }

  function Run(p: Peer, es: seq<Silent>): (r: Peer)
    requires PeerInv(p)
    ensures PeerInv(r)
    decreases es
  {
    if es == [] then p else Run(Next(p, es[0]), es[1..])
  }

  function Expiries(p: Peer, es: seq<Silent>): nat
    requires PeerInv(p)
    decreases es
  {
    if es == [] then 0 else (if Expires(p, es[0]) then 1 else 0) + Expiries(Next(p, es[0]), es[1..])
  }

  function Elapsed(es: seq<Silent>): nat
  {
    if es == [] then 0 else (if es[0].Tick? then es[0].n else 0) + Elapsed(es[1..])
  }

  /** Expiries until the retransmission count is exhausted. */
  function Rounds(p: Peer): nat
  {
    if p.rtx > MAX_RTX then 1 else MAX_RTX + 2 - p.rtx
  }

  /** Idle, and nothing is awaited.  An idle peer that negotiates has T401 running. */
  predicate Resting(p: Peer)
  {
    p.state == IDLE && p.timer == 0
  }

  /** Expiries until the peer rests; a data link is first disconnected. */
  function Left(p: Peer): nat
  {
    if Resting(p) then 0 else match p.state
    case IDLE => Rounds(p)
    case ESTAB => Rounds(p)
    case DISC => Rounds(p)
    case DATA => Rounds(p) + MAX_RTX + 2
  }

  /** T401 runs unless the peer rests. */
  predicate Armed(p: Peer)
  {
    (p.state != IDLE ==> p.timer > 0) && p.timer <= T401
  }

  /** Bits until the peer rests, if every expiry comes on time. */
  function Deadline(p: Peer): nat
  {
    if Resting(p) then 0 else p.timer + (Left(p) - 1) * T401
  }

  lemma LeftBounds(p: Peer)
    ensures Resting(p) <==> Left(p) == 0
    ensures p.state != DATA ==> Left(p) <= 7
    ensures p.state == DATA ==> 8 <= Left(p) <= 14
  {}

  /** In bits: a connection is given up after at most 14 times 57600 bits, everything else after at most 7 times. */
  lemma DeadlineBound(p: Peer)
    requires Armed(p)
    ensures Deadline(p) <= 806400 && (p.state != DATA ==> Deadline(p) <= 403200)
  {
    LeftBounds(p);
  }

  lemma TimeoutCounts(p: Peer)
    requires PeerInv(p) && p.timer > 0
    ensures PeerInv(p.(timer := 0))
    ensures var r := Timeout(p.(timer := 0));
            Left(r) == Left(p) - 1 && Armed(r) && (!Resting(r) ==> r.timer == T401)
  {
    TimerIrrelevant(p);
    hide PeerInv;
  }

  lemma DrawQuiet(p: Peer, chars: Str)
    requires PeerInv(p) && Armed(p)
    ensures var r := GetTxFrame(p, chars).0;
            r.state == p.state && r.rtx == p.rtx && r.timer == p.timer
  {
    hide PeerInv;
  }

  lemma PushQuiet(p: Peer, k: nat)
    requires PeerInv(p) && k <= |p.rest|
    ensures var r := PushRest(p, k);
            r.state == p.state && r.rtx == p.rtx && r.timer == p.timer
  {
    hide PeerInv;
  }

  /** Only an expiry counts, and it counts exactly one. */
  lemma NextCounts(p: Peer, e: Silent)
    requires PeerInv(p) && Armed(p)
    ensures var r := Next(p, e);
            && Armed(r) && Left(r) + (if Expires(p, e) then 1 else 0) == Left(p)
            && Deadline(p) <= Deadline(r) + (if e.Tick? then e.n else 0)
            && (e.Tick? && !Resting(p) ==> Deadline(r) + e.n <= Deadline(p) + (if Expires(p, e) then e.n - 1 else 0))
            && (!e.Tick? ==> Deadline(r) == Deadline(p))
  {
    hide PeerInv, GetTxFrame, PushRest, Timeout;
    match e
    case Draw(chars) => DrawQuiet(p, chars);
    case Push(k) =>
      if k <= |p.rest| {
        PushQuiet(p, k);
      }
    case Tick(n) =>
      if Expires(p, e) {
        TimeoutCounts(p);
      }
  }

  lemma TimerIrrelevant(p: Peer)
    requires PeerInv(p)
    ensures PeerInv(p.(timer := 0))
  {}

  /**
   A peer that hears nothing comes to rest with expiry number `Left(p)`, at most 7 from ESTAB, from
   DISC or while it negotiates, and at most 14 from DATA; T401 is armed again on every earlier one,
   whatever is sent.
   */
  lemma {:induction false} GivesUp(p: Peer, es: seq<Silent>)
    requires PeerInv(p) && Armed(p)
    ensures var r := Run(p, es);
            && Expiries(p, es) <= Left(p) <= 14 && (p.state != DATA ==> Left(p) <= 7)
            && (Resting(r) <==> Expiries(p, es) == Left(p))
            && (r.timer > 0 <==> Expiries(p, es) < Left(p))
  {
    RunCounts(p, es);
    LeftBounds(p);
    LeftBounds(Run(p, es));
  }

  lemma {:induction false} RunCounts(p: Peer, es: seq<Silent>)
    requires PeerInv(p) && Armed(p)
    ensures Armed(Run(p, es)) && Left(Run(p, es)) + Expiries(p, es) == Left(p)
    decreases es
  {
    hide PeerInv, Armed, Left, Next, Expires;
    if es != [] {
      NextCounts(p, es[0]);
      RunCounts(Next(p, es[0]), es[1..]);
    }
  }

  /**
   In time: not at rest before the deadline has passed, and at rest once it has passed, plus the
   delay of at most `step - 1` bits by which each expiry may be noticed late.
   */
  lemma {:induction false} GivesUpInTime(p: Peer, es: seq<Silent>, step: nat)
    requires PeerInv(p) && Armed(p) && step >= 1
    requires forall i :: 0 <= i < |es| && es[i].Tick? ==> es[i].n <= step
    ensures Elapsed(es) < Deadline(p) ==> !Resting(Run(p, es))
    ensures Elapsed(es) >= Deadline(p) + Left(p) * (step - 1) ==> Resting(Run(p, es))
    decreases es
  {
    hide PeerInv, Left, Next, Deadline;
    LeftBounds(p);
    if es == [] {
      NotYet(p);
    } else {
      var p1 := Next(p, es[0]);
      NextCounts(p, es[0]);
      LeftBounds(p1);
      GivesUpInTime(p1, es[1..], step);
      if Expires(p, es[0]) {
        OneMore(Left(p1), step - 1);
      }
      if Resting(p) {
        StaysAtRest(p, es);
      }
    }
  }

  lemma OneMore(k: nat, n: nat)
    ensures (k + 1) * n == k * n + n
  {}

  lemma NotYet(p: Peer)
    requires Armed(p)
    ensures Deadline(p) > 0 <==> !Resting(p)
  {}

  lemma StaysAtRest(p: Peer, es: seq<Silent>)
    requires PeerInv(p) && Armed(p) && Resting(p)
    ensures Resting(Run(p, es))
  {
    GivesUp(p, es);
  }
}
