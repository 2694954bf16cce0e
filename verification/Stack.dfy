/**
 The layers together: characters are compressed, the octets cross a link that loses frames, and
 what the far end decodes is a prefix of what went in.
 */
module Stack {
  import opened Words
  import opened Codec
  import L = Lapm
  import O = Outgoing
  import R = LapmRounds
  import S = LapmSafety
  import A = LapmPair
  import Q = LapmSource
  import C = Compressor
  import X = Xid
  import N = Session
  import T = Lossless

  /**
   `chars` have gone into the encoder `e`; of its output the link has taken some and `ready` is
   still waiting.  After any history of the link, whatever its far end has handed over decodes
   without error, to a prefix of `chars`.
   */
  lemma DecodedPrefix(l: Limits, e: Enc, ready: Str, chars: Str, s: S.Link, events: seq<(bool, S.Event)>)
    requires S.Fresh(s.a) && S.Fresh(s.b) && O.Carried(l, e, S.Run(s, events).a.taken + ready, chars)
    ensures var accepted := S.Run(s, events).b.accepted;
            l.Valid() && O.Read(l, accepted).Ok? && O.Read(l, accepted).x <= chars
  {
    hide S.Run, O.Carried, O.Read;
    S.PrefixSafety(s, events);
    var r := S.Run(s, events);
    var waiting := r.a.taken[|r.b.accepted|..] + ready;
    assert r.b.accepted + waiting == r.a.taken + ready;
    O.CarriedPrefix(l, e, r.b.accepted, waiting, chars);
  }

  // ----- the modem -----

  /** What this modem proposes: 128 octets, a window of 15 frames. */
  const SHIPPED := X.Sizes(128, 128, 15, 15)

  /** No other end can negotiate these sizes away. */
  lemma ShippedStays(other: X.Sizes)
    ensures X.Settled(SHIPPED, other).0 == SHIPPED
  {}

  /** What can happen: the terminal writes, or an event at either end of the link. */
  datatype Act = Write(s: Str) | OnLink(atFirst: bool, v: S.Event)

  /**
   What the link makes of an act: nothing of a write; and where an event makes the first end ask for
   characters, its source gives `block`.
   */
  function EventOf(act: Act, block: Str): seq<(bool, S.Event)>
  {
    match act
    case Write(_) => []
    case OnLink(atFirst, v) => [(atFirst, if atFirst then Q.Offered(v, block) else v)]
  }

  /** What the outgoing path is asked for at an act, when the link is in state `s`. */
  function RequestAt(s: S.Link, act: Act): O.Request
    requires S.EndOk(s.a) && S.EndOk(s.b)
  {
    match act
    case Write(w) => O.FromTerminal(w)
    case OnLink(atFirst, v) => if atFirst && Q.Asks(s, v) then O.ForLink else O.Elsewhere
  }

  /** The history of the link, which is given the blocks in `log`. */
  function History(acts: seq<Act>, log: seq<O.Moment>): seq<(bool, S.Event)>
    requires |acts| == |log|
  {
    if acts == [] then []
    else
      var i := |acts| - 1;
      History(acts[..i], log[..i]) + EventOf(acts[i], log[i].block)
  }

  /** The requests to the outgoing path. */
  function Requests(s: S.Link, acts: seq<Act>, log: seq<O.Moment>): (rs: seq<O.Request>)
    requires S.EndOk(s.a) && S.EndOk(s.b) && |acts| == |log|
    ensures |rs| == |acts|
  {
    if acts == [] then []
    else
      var i := |acts| - 1;
      Requests(s, acts[..i], log[..i]) + [RequestAt(S.Run(s, History(acts[..i], log[..i])), acts[i])]
  }

  lemma ActsSnoc(s: S.Link, acts: seq<Act>, log: seq<O.Moment>, act: Act, m: O.Moment)
    requires S.EndOk(s.a) && S.EndOk(s.b) && |acts| == |log|
    ensures History(acts + [act], log + [m]) == History(acts, log) + EventOf(act, m.block)
    ensures Requests(s, acts + [act], log + [m])
            == Requests(s, acts, log) + [RequestAt(S.Run(s, History(acts, log)), act)]
  {
    hide S.Run, S.EndOk, RequestAt, EventOf;
    assert (acts + [act])[..|acts|] == acts && (log + [m])[..|log|] == log;
  }

  /** The encoding side and the two ends of the link, after `acts` from the start `s`. */
  ghost predicate Joined(o: O.Outgoing, a: A.LapmEnd, b: A.LapmEnd, s: S.Link, acts: seq<Act>, log: seq<O.Moment>)
    reads o, o.xmit, o.xmit.buf, o.enc, o.enc.dict, o.enc.dict.dict, o.enc.strData
    reads a, a.peer, a.peer.info, a.peer.ctrl, b, b.peer, b.peer.info, b.peer.ctrl
  {
    && S.Connected(s) && S.EndOk(s.a) && S.EndOk(s.b) && |acts| == |log| && o.l.maxStr <= C.MAX_STRING
    && O.Came(o, Requests(s, acts, log), log) && Tied(a, b, s, History(acts, log)) && o.given == a.taken
  }

  /** The two ends, some history after their start. */
  ghost predicate Tied(a: A.LapmEnd, b: A.LapmEnd, s: S.Link, hist: seq<(bool, S.Event)>)
    requires S.EndOk(s.a) && S.EndOk(s.b)
    reads a, a.peer, a.peer.info, a.peer.ctrl, b, b.peer, b.peer.info, b.peer.ctrl
  {
    a.Inv() && b.Inv() && A.Apart(a, b) && S.Run(s, hist) == A.Both(a, b)
  }

  lemma HistoryGrows(s: S.Link, hist: seq<(bool, S.Event)>, r: S.Link, atFirst: bool, v: S.Event)
    requires S.EndOk(s.a) && S.EndOk(s.b) && S.EndOk(r.a) && S.EndOk(r.b) && S.Run(s, hist) == r
    ensures S.Run(s, hist + [(atFirst, v)]) == S.Step(r, atFirst, v)
  {
    hide S.Run, S.Step, S.EndOk;
    R.RunAppend(s, hist, [(atFirst, v)]);
    R.RunOne(r, atFirst, v);
  }

  /** Whether the event makes the first end ask for characters; its handler is tried on a copy. */
  method Asks(a: A.LapmEnd, b: A.LapmEnd, v: S.Event) returns (asks: bool)
    requires a.Inv() && b.Inv()
    ensures asks == Q.Asks(A.Both(a, b), v)
  {
    hide L.PeerInv, L.GetTxFrame, L.Receive, L.Elapse, L.PushRest, L.Disconnect;
    var p := a.peer.Snapshot();
    asks := false;
    match v {
      case Grant(_) =>
        if a.hdlc.Nothing? {
          asks := L.GetTxFrame(p, Q.ONE).0.infoList != p.infoList;
        }
      case Arrive(k, _) =>
        if b.line != [] && (b.line[0].I? ==> k <= |b.line[0].info|) {
          asks := L.Receive(p, b.line[0], k, Q.ONE).infoList != p.infoList;
        }
      case Complete =>
      case Lose(_) =>
      case Bits(_) => Q.NeverAsks(A.Both(a, b), v);
      case Push(_) => Q.NeverAsks(A.Both(a, b), v);
      case Hangup => Q.NeverAsks(A.Both(a, b), v);
    }
  }

  /** Both ends at once, for an event that makes the first end take `block` from its source. */
  method TakeStep(a: A.LapmEnd, b: A.LapmEnd, v: S.Event, block: Str, ghost s: S.Link, ghost hist: seq<(bool, S.Event)>)
    requires S.EndOk(s.a) && S.EndOk(s.b) && Tied(a, b, s, hist)
    requires block != [] ==> Q.Asks(A.Both(a, b), v)
    modifies a, a.peer, a.peer.info, a.peer.ctrl, b, b.peer, b.peer.info, b.peer.ctrl
    ensures Tied(a, b, s, hist + [(true, Q.Offered(v, block))]) && a.taken == old(a.taken) + block
  {
    hide S.Run, S.EndOk, S.StepFirst, Q.Asks, A.LapmEnd.Inv, L.PeerInv;
    ghost var r := A.Both(a, b);
    BothOk(a, b);
    Q.TakesWhatIsGiven(r, v, block);
    HistoryGrows(s, hist, r, true, Q.Offered(v, block));
    A.Step(a, b, true, Q.Offered(v, block));
  }

  /** An event at the second end, whose own source gives what the event says. */
  method OtherStep(a: A.LapmEnd, b: A.LapmEnd, v: S.Event, ghost s: S.Link, ghost hist: seq<(bool, S.Event)>)
    requires S.EndOk(s.a) && S.EndOk(s.b) && Tied(a, b, s, hist)
    modifies a, a.peer, a.peer.info, a.peer.ctrl, b, b.peer, b.peer.info, b.peer.ctrl
    ensures Tied(a, b, s, hist + [(false, v)]) && a.taken == old(a.taken)
  {
    hide S.Run, S.EndOk, S.Local, S.Arrived, A.LapmEnd.Inv, L.PeerInv;
    ghost var r := A.Both(a, b);
    BothOk(a, b);
    HistoryGrows(s, hist, r, false, v);
    A.Step(a, b, false, v);
  }

  lemma BothOk(a: A.LapmEnd, b: A.LapmEnd)
    requires a.Inv() && b.Inv()
    ensures S.EndOk(A.Both(a, b).a) && S.EndOk(A.Both(a, b).b)
  {}

  /** A fresh decoder of `octets`, flushed. */
  method DecodeAll(l: Limits, octets: Str) returns (out: Str)
    requires l.Valid() && l.maxStr <= C.MAX_STRING && O.Read(l, octets).Ok?
    ensures out == O.Read(l, octets).x
  {
    hide EncInv, DecInv, Decode, C.R.Rep, Valid, Matched, EncInit, DecInit;
    var dec := new C.Compressor(l);
    N.FreshLinked(l);
    C.FreshDecoder(l);
    C.FreshEncoder(l);
    assert dec.DV() == DecInit(l);
    assert dec.Decoded() == [];
    var ok := dec.Decode(octets);
    assert [] + O.Read(l, octets).x == O.Read(l, octets).x;
    dec.FlushDecoder();
    out := dec.obuf;
    assert dec.Decoded() == out;
  }

  /** The event at the two ends that belongs to an act. */
  method LinkEvent(a: A.LapmEnd, b: A.LapmEnd, act: Act, block: Str, ghost s: S.Link,
                   ghost hist: seq<(bool, S.Event)>)
    requires S.EndOk(s.a) && S.EndOk(s.b) && Tied(a, b, s, hist)
    requires block != [] ==> RequestAt(S.Run(s, hist), act).ForLink?
    modifies a, a.peer, a.peer.info, a.peer.ctrl, b, b.peer, b.peer.info, b.peer.ctrl
    ensures Tied(a, b, s, hist + EventOf(act, block)) && a.taken == old(a.taken) + block
  {
    hide S.Run, S.EndOk, A.LapmEnd.Value, A.LapmEnd.Inv;
    assert a.taken + [] == a.taken;
    match act {
      case Write(_) =>
        assert hist + [] == hist;
      case OnLink(atFirst, v) =>
        if atFirst {
          TakeStep(a, b, v, block, s, hist);
        } else {
          OtherStep(a, b, v, s, hist);
        }
    }
  }

  /** What the outgoing path is asked for. */
  method RequestNow(a: A.LapmEnd, b: A.LapmEnd, act: Act) returns (r: O.Request)
    requires a.Inv() && b.Inv()
    ensures S.EndOk(A.Both(a, b).a) && S.EndOk(A.Both(a, b).b) && r == RequestAt(A.Both(a, b), act)
  {
    hide S.EndOk, A.LapmEnd.Value, A.LapmEnd.Inv, Q.Asks;
    BothOk(a, b);
    match act {
      case Write(w) => r := O.FromTerminal(w);
      case OnLink(atFirst, v) =>
        var asks := false;
        if atFirst {
          asks := Asks(a, b, v);
        }
        r := if asks then O.ForLink else O.Elsewhere;
    }
  }

  /** One act. */
  method Do(o: O.Outgoing, a: A.LapmEnd, b: A.LapmEnd, act: Act,
            ghost s: S.Link, ghost acts: seq<Act>, ghost log: seq<O.Moment>)
    returns (m: O.Moment)
    requires Joined(o, a, b, s, acts, log)
    modifies o, o.xmit, o.xmit.buf, o.enc, o.enc.strData, o.enc.dict, o.enc.dict.dict
    modifies a, a.peer, a.peer.info, a.peer.ctrl, b, b.peer, b.peer.info, b.peer.ctrl
    ensures Joined(o, a, b, s, acts + [act], log + [m])
  {
    hide S.Run, S.EndOk, S.Connected, O.Came, A.LapmEnd.Value, A.LapmEnd.Inv, RequestAt, EventOf, History, Requests;
    ghost var hist, rs := History(acts, log), Requests(s, acts, log);
    var r := RequestNow(a, b, act);
    m := O.ServeNext(o, r, rs, log);
    ActsSnoc(s, acts, log, act, m);
    LinkEvent(a, b, act, m.block, s, hist);
  }

  /**
   The whole data path.  A modem and another end are connected, which brings them to `s`; then the
   terminal writes and the link runs, in any order and with any losses, timeouts and disconnections,
   and the link draws compressed blocks exactly when it asks for them.  `log` says how each act was
   served.  What has arrived at the other end by then is decoded without error, to a prefix of what was
   accepted from the terminal; and to all of that, when everything the link has taken has arrived and
   the last block was not full.
   */
  method Carry(l: Limits, size: nat, other: X.Sizes, offer: X.Comp, acts: seq<Act>)
    returns (log: seq<O.Moment>, decoded: Str, ghost s: S.Link, ghost calls: seq<T.Call>)
    requires l.Valid() && l.maxStr <= C.MAX_STRING && size > 0
    ensures S.Connected(s) && S.EndOk(s.a) && S.EndOk(s.b) && |log| == |acts|
    ensures (L.SizesOf(s.a.p), L.SizesOf(s.b.p)) == X.Settled(SHIPPED, other)
    ensures var rs := Requests(s, acts, log);
            var r := S.Run(s, History(acts, log));
            && O.Served(size, rs, log) && O.Encoded(l, calls, rs, log) && r.a.taken == O.Blocks(log)
            && O.Read(l, r.b.accepted).Ok? && decoded == O.Read(l, r.b.accepted).x
            && decoded <= O.Accepted(rs, log)
            && (r.b.accepted == r.a.taken && O.Flushed(rs, log) ==> decoded == O.Accepted(rs, log))
  {
    hide S.Run, S.EndOk, S.Connected, O.Came, O.Served, O.Encoded, O.Accepted, O.Flushed, O.Blocks, O.Read,
         O.Outgoing.Inv, A.LapmEnd.Inv, A.LapmEnd.Value, Joined, Tied, History, Requests, L.SizesOf, X.Settled;
    var o := new O.Outgoing(l, size);
    var a, b := A.Connect(SHIPPED, offer, other, offer);
    s := A.Both(a, b);
    A.SizesThere(a);
    A.SizesThere(b);
    A.ConnectedFresh(s);
    A.Parts(a);
    log := [];
    Starts(o, a, b, s);
    while |log| < |acts|
      invariant |log| <= |acts| && Joined(o, a, b, s, acts[..|log|], log) && o.l == l && o.xmit.buf.Length == size
      invariant fresh(o) && fresh(o.xmit) && fresh(o.xmit.buf) && fresh(o.enc)
      invariant fresh(o.enc.dict) && fresh(o.enc.dict.dict) && fresh(o.enc.strData)
      invariant fresh(a) && fresh(a.peer) && fresh(a.peer.info) && fresh(a.peer.ctrl)
      invariant fresh(b) && fresh(b.peer) && fresh(b.peer.info) && fresh(b.peer.ctrl)
    {
      var m := Do(o, a, b, acts[|log|], s, acts[..|log|], log);
      assert acts[..|log|] + [acts[|log|]] == acts[..|log| + 1];
      log := log + [m];
    }
    assert acts[..|log|] == acts;
    Outcome(o, a, b, s, acts, log);
    calls := o.calls;
    decoded := DecodeAll(l, b.accepted);
  }

  lemma Starts(o: O.Outgoing, a: A.LapmEnd, b: A.LapmEnd, s: S.Link)
    requires o.Inv() && o.xmit.Inv() && o.enc.obuf == o.given == o.taken == o.xmit.Contents() == []
    requires o.l.maxStr <= C.MAX_STRING && a.taken == []
    requires a.Inv() && b.Inv() && A.Apart(a, b) && s == A.Both(a, b) && S.Connected(s)
    ensures Joined(o, a, b, s, [], [])
  {
    hide O.Outgoing.Inv, O.Came, A.LapmEnd.Inv, L.PeerInv, S.Connected;
    BothOk(a, b);
    R.RunNone(s);
    O.CameToNothing(o);
  }

  /** What has arrived by now. */
  lemma Outcome(o: O.Outgoing, a: A.LapmEnd, b: A.LapmEnd, s: S.Link, acts: seq<Act>, log: seq<O.Moment>)
    requires Joined(o, a, b, s, acts, log)
    ensures S.Connected(s) && S.EndOk(s.a) && S.EndOk(s.b) && |log| == |acts| && o.l.Valid()
    ensures var rs := Requests(s, acts, log);
            var r := S.Run(s, History(acts, log));
            && O.Served(o.xmit.buf.Length, rs, log) && O.Encoded(o.l, o.calls, rs, log)
            && r.a.taken == O.Blocks(log) && r.b.accepted == b.accepted
            && O.Read(o.l, r.b.accepted).Ok? && O.Read(o.l, r.b.accepted).x <= O.Accepted(rs, log)
            && (r.b.accepted == r.a.taken && O.Flushed(rs, log) ==> O.Read(o.l, r.b.accepted).x == O.Accepted(rs, log))
  {
    hide S.Run, S.EndOk, S.Connected, O.Came, O.Served, O.Encoded, O.Accepted, O.Flushed, O.Blocks, O.Read,
         A.LapmEnd.Inv, History, Requests, O.Carried;
    var rs, hist := Requests(s, acts, log), History(acts, log);
    A.ConnectedFresh(s);
    A.Parts(a);
    A.Parts(b);
    O.CameServed(o, rs, log);
    O.CameMeans(o, rs, log);
    ArrivedPrefix(o, rs, log, s, hist);
  }

  lemma ArrivedPrefix(o: O.Outgoing, rs: seq<O.Request>, log: seq<O.Moment>, s: S.Link, hist: seq<(bool, S.Event)>)
    requires O.Came(o, rs, log) && S.Fresh(s.a) && S.Fresh(s.b) && S.EndOk(s.a) && S.EndOk(s.b)
    requires S.Run(s, hist).a.taken == o.given
    ensures o.l.Valid() && |rs| == |log| && o.given == O.Blocks(log)
    ensures var accepted := S.Run(s, hist).b.accepted;
            && O.Read(o.l, accepted).Ok? && O.Read(o.l, accepted).x <= O.Accepted(rs, log)
            && (accepted == o.given && O.Flushed(rs, log) ==> O.Read(o.l, accepted).x == O.Accepted(rs, log))
  {
    hide S.Run, S.EndOk, S.Fresh, O.Served, O.Accepted, O.Flushed, O.Blocks, O.Read, O.Carried, O.Made,
         O.X.Xmit.Contents, C.Compressor.E;
    O.CameCarried(o, rs, log);
    DecodedPrefix(o.l, o.enc.E(), o.enc.obuf, o.taken, s, hist);
  }
}
