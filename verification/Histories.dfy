/**
 Dictionary lockstep at every point of every history: after any calls on a fresh encoder, and any
 number of turns of its loop on one more buffer, compared with a fresh decoder of what it emitted.
 */
module Histories {
  import opened Words
  import opened Bits
  import opened Codec
  import opened Transport
  import opened Lockstep
  import opened Lossless

  /** The first `n` turns of encoding `s`, or all of them if there are fewer. */
  ghost function Turns(e: Enc, s: Str, choices: seq<bool>, n: nat): (r: Turn)
    requires EncInv(e)
    ensures EncInv(r.e)
    decreases n
  {
    if n == 0 || s == [] then Turn(e, [], s, choices)
    else
      var t := Round(e, s, choices);
      var u := Turns(t.e, t.rest, t.choices, n - 1);
      u.(out := t.out + u.out)
  }

  /** These are points of the encoding: from each of them the rest of it goes on. */
  lemma {:induction false} TurnsEncode(e: Enc, s: Str, choices: seq<bool>, n: nat)
    requires EncInv(e)
    ensures var t := Turns(e, s, choices, n);
            var r := Encode(t.e, t.rest, t.choices);
            Encode(e, s, choices) == (r.0, t.out + r.1)
    decreases n
  {
    hide Round, EncInv;
    var t := Turns(e, s, choices, n);
    var r := Encode(t.e, t.rest, t.choices);
    if n == 0 || s == [] {
      assert [] + r.1 == r.1;
    } else {
      var t1 := Round(e, s, choices);
      var u := Turns(t1.e, t1.rest, t1.choices, n - 1);
      TurnsEncode(t1.e, t1.rest, t1.choices, n - 1);
      assert t1.out + (u.out + r.1) == (t1.out + u.out) + r.1;
    }
  }

  /** One more turn. */
  lemma {:induction false} TurnsSnoc(e: Enc, s: Str, choices: seq<bool>, n: nat)
    requires EncInv(e)
    ensures var t := Turns(e, s, choices, n);
            Turns(e, s, choices, n + 1) ==
            if t.rest == [] then t else var u := Round(t.e, t.rest, t.choices); u.(out := t.out + u.out)
    decreases n
  {
    hide Round, EncInv;
    if s == [] {
    } else if n == 0 {
      var u := Round(e, s, choices);
      assert Turns(u.e, u.rest, u.choices, 0) == Turn(u.e, [], u.rest, u.choices);
      assert u.out + [] == u.out && [] + u.out == u.out;
    } else {
      var t1 := Round(e, s, choices);
      TurnsSnoc(t1.e, t1.rest, t1.choices, n - 1);
      var t := Turns(t1.e, t1.rest, t1.choices, n - 1);
      if t.rest != [] {
        var u := Round(t.e, t.rest, t.choices);
        assert t1.out + (t.out + u.out) == (t1.out + t.out) + u.out;
      }
    }
  }

  /** A point of a history: what a fresh encoder has come to and has emitted. */
  ghost function Reach(l: Limits, calls: seq<Call>, s: Str, choices: seq<bool>, n: nat): (r: Turn)
    requires l.Valid()
    ensures EncInv(r.e)
  {
    var (e, out) := Run(EncInit(l), calls);
    var t := Turns(e, s, choices, n);
    t.(out := out + t.out)
  }

  /** The decoder of what has been emitted by then. */
  ghost function Heard(l: Limits, t: Turn): DecResult
    requires l.Valid()
  {
    Decode(DecInit(l), t.out)
  }

  lemma {:induction false} TurnsReady(e: Enc, d: Dec, s: Str, choices: seq<bool>, n: nat)
    requires EncInv(e) && DecInv(d) && Ready(e, d, s)
    ensures var t := Turns(e, s, choices, n); var r := Decode(d, t.out);
            r.Ok? && Ready(t.e, r.d, t.rest)
    decreases n
  {
    hide Decode, MatcherInv, Ready, Round, EncInv;
    if n == 0 || s == [] {
      EmptyDecode(d);
    } else {
      RoundAgrees(e, d, s, choices);
      var t := Round(e, s, choices);
      var r := Decode(d, t.out);
      TurnsReady(t.e, r.d, t.rest, t.choices, n - 1);
      DecodeThen(d, t.out, Turns(t.e, t.rest, t.choices, n - 1).out);
    }
  }

  lemma ReachReady(l: Limits, calls: seq<Call>, s: Str, choices: seq<bool>, n: nat)
    requires l.Valid()
    ensures var t := Reach(l, calls, s, choices, n); var r := Heard(l, t);
            r.Ok? && Ready(t.e, r.d, t.rest)
  {
    hide Decode, MatcherInv, Ready, Agree, EncInv, Run, Turns;
    InitAgrees(l);
    RunAgrees(EncInit(l), DecInit(l), calls);
    var (e, out) := Run(EncInit(l), calls);
    var r := Decode(DecInit(l), out);
    AgreeReady(e, r.d, s);
    TurnsReady(e, r.d, s, choices, n);
    DecodeThen(DecInit(l), out, Turns(e, s, choices, n).out);
  }

  lemma AgreeReady(e: Enc, d: Dec, s: Str)
    requires Agree(e, d)
    ensures Ready(e, d, s)
  {}

  /**
   In compressed mode, at any point: the dictionaries are equal, or the encoder's is the decoder's
   with the one insertion that the decoder makes when the string being collected arrives, and the
   entry inserted is not the one matched so far.
   */
  lemma OnePendingAlways(l: Limits, calls: seq<Call>, s: Str, choices: seq<bool>, n: nat)
    requires l.Valid() && Reach(l, calls, s, choices, n).e.mode.Compressed?
    ensures var t := Reach(l, calls, s, choices, n); var r := Heard(l, t);
            && r.Ok? && Lagging(r.d, t.e.p.bits) && CaughtUp(r.d, t.e.p.bits).Ok?
            && var u := CaughtUp(r.d, t.e.p.bits).d.k;
               || t.e.k.w == u.w
               || (&& t.e.str != [] && u.updateAt != 0 && CanAdd(u.w, u.l, u.updateAt, t.e.str[0])
                   && t.e.k.w == Add(u.w, u.l, u.updateAt, t.e.str[0]) && t.e.k.lastMatched != u.w.nextFree)
  {
    hide Decode, MatcherInv, Reach, CaughtUp, EncInv, Valid, CanAdd, Lagging;
    ReachReady(l, calls, s, choices, n);
    var t := Reach(l, calls, s, choices, n);
    var d := Heard(l, t).d;
    CompressedReady(t.e, d, t.rest);
    if SyncC(t.e, d) {
      OnePending(t.e, d);
    }
  }

  /** The ways to be ready in compressed mode. */
  lemma CompressedReady(e: Enc, d: Dec, s: Str)
    requires Ready(e, d, s) && e.mode.Compressed?
    ensures SyncC(e, d) || (s != [] && CutC(e, d, s[0]))
    ensures BothCompressed(e, d) && Lagging(d, e.p.bits) && CaughtUp(d, e.p.bits).Ok?
    ensures SyncC(e, d) || e.k.w == CaughtUp(d, e.p.bits).d.k.w
  {
    hide CaughtUp, MatcherInv, Follows, EncInv;
  }

  /** At every change of mode in any history, the dictionaries and the escape characters are equal. */
  lemma ModeChangeEqualizes(l: Limits, calls: seq<Call>, s: Str, choices: seq<bool>, n: nat)
    requires l.Valid()
    requires Reach(l, calls, s, choices, n).e.mode != Reach(l, calls, s, choices, n + 1).e.mode
    ensures var t := Reach(l, calls, s, choices, n + 1); var r := Heard(l, t);
            r.Ok? && r.d.k.w == t.e.k.w && r.d.esc == t.e.esc && r.d.q == []
  {
    hide Decode, MatcherInv, Ready, EncInv, Run, Turns, Round;
    ReachReady(l, calls, s, choices, n);
    var t := Reach(l, calls, s, choices, n);
    var (e, out) := Run(EncInit(l), calls);
    TurnsSnoc(e, s, choices, n);
    var d := Heard(l, t).d;
    HeardInv(l, t);
    RoundEqualizes(t.e, d, t.rest, t.choices);
    var u := Round(t.e, t.rest, t.choices);
    DecodeThen(DecInit(l), t.out, u.out);
    assert out + (Turns(e, s, choices, n).out + u.out) == t.out + u.out;
  }

  lemma HeardInv(l: Limits, t: Turn)
    requires l.Valid() && Heard(l, t).Ok?
    ensures DecInv(Heard(l, t).d)
  {}

  lemma RoundEqualizes(e: Enc, d: Dec, s: Str, choices: seq<bool>)
    requires EncInv(e) && DecInv(d) && Ready(e, d, s) && s != [] && Round(e, s, choices).e.mode != e.mode
    ensures var t := Round(e, s, choices); var r := Decode(d, t.out);
            r.Ok? && r.d.k.w == t.e.k.w && r.d.esc == t.e.esc && r.d.q == []
  {
    hide Decode, MatcherInv, InFlight, Sync, SyncNext, CutT, CutC, Step, Switch, EncInv;
    var o := Step(e, s[0]);
    var r := Decode(d, o.out);
    StepMode(e, s[0]);
    StepAgrees(e, d, s[0]);
    var rest := if o.taken then s[1..] else s;
    assert (o.ended || rest == []) && choices != [] && choices[0];
    SwitchEqualizes(o.e, r.d, rest);
    DecodeThen(d, o.out, Switch(o.e).1);
  }

  lemma StepMode(e: Enc, c: byte)
    requires EncInv(e)
    ensures Step(e, c).e.mode == e.mode
  {
    hide MatcherInv, PutData;
  }

  /** At every FLUSH in any history, the dictionaries, the pending entry and the escape characters are equal. */
  lemma FlushEqualizesAlways(l: Limits, calls: seq<Call>)
    requires l.Valid() && Run(EncInit(l), calls).0.mode.Compressed?
    ensures var (e, out) := Run(EncInit(l), calls);
            var (e1, flushed) := FlushEnc(e);
            var r := Decode(DecInit(l), out + flushed);
            r.Ok? && r.d.k.w == e1.k.w && r.d.k.updateAt == e1.k.updateAt && r.d.esc == e1.esc && r.d.q == []
  {
    hide Decode, MatcherInv, Agree, EncInv, Run, FlushEnc;
    InitAgrees(l);
    RunAgrees(EncInit(l), DecInit(l), calls);
    var (e, out) := Run(EncInit(l), calls);
    var d := Decode(DecInit(l), out).d;
    FlushEqualizes(e, d);
    DecodeThen(DecInit(l), out, FlushEnc(e).1);
  }

  /**
   Every codeword that the encoder may send at any point of any history stands for the same string
   at the decoder, before and after the decoder's own insertion, and is never its free slot: the
   codeword matched so far, and the one matched with any next character.
   */
  lemma CodewordsKnownAlways(l: Limits, calls: seq<Call>, s: Str, choices: seq<bool>, n: nat, c: byte)
    requires l.Valid() && Reach(l, calls, s, choices, n).e.mode.Compressed?
    ensures var t := Reach(l, calls, s, choices, n); var r := Heard(l, t);
            && r.Ok? && Lagging(r.d, t.e.p.bits) && CaughtUp(r.d, t.e.p.bits).Ok?
            && var u := CaughtUp(r.d, t.e.p.bits).d.k;
               && (t.e.str != [] ==> Known(u, t.e.k.lastMatched, t.e.str))
               && var k := Resolve(t.e.k, c);
                  !Ends(k, c) ==> Known(u, Match(k.w, k.lastMatched, c), t.e.str + [c])
  {
    hide Decode, MatcherInv, Reach, CaughtUp, EncInv, Valid, Lagging, Known, Resolve, Ends;
    ReachReady(l, calls, s, choices, n);
    var t := Reach(l, calls, s, choices, n);
    var d := Heard(l, t).d;
    CompressedReady(t.e, d, t.rest);
    EncMatcher(t.e);
    if t.e.str != [] {
      CollectedKnown(t.e, d);
      if !Ends(Resolve(t.e.k, c), c) {
        ExtendedKnown(t.e, d, c);
      }
    } else {
      StartKnown(t.e, CaughtUp(d, t.e.p.bits).d.k, c);
    }
  }

  /** `cw` stands for `s` in the decoder's dictionary, and still does after its insertion for `s`. */
  ghost predicate Known(u: Matcher, cw: nat, s: Str)
    requires MatcherInv(u)
  {
    && s != [] && Has(u.w, cw) && StrOf(u.w, cw) == s && cw != u.w.nextFree
    && var w := Resolve(u, s[0]).w; Has(w, cw) && StrOf(w, cw) == s && cw != w.nextFree
  }

  lemma CollectedKnown(e: Enc, d: Dec)
    requires SyncC(e, d) && e.str != []
    ensures Known(CaughtUp(d, e.p.bits).d.k, e.k.lastMatched, e.str)
  {
    hide CaughtUp, Valid, Resolve, Receive, Lagging;
    CodewordKnown(CaughtUp(d, e.p.bits).d, e.k.w, e.str, e.k.lastMatched);
  }

  lemma ExtendedKnown(e: Enc, d: Dec, c: byte)
    requires SyncC(e, d) && e.str != [] && !Ends(Resolve(e.k, c), c)
    ensures var k := Resolve(e.k, c);
            Known(CaughtUp(d, e.p.bits).d.k, Match(k.w, k.lastMatched, c), e.str + [c])
  {
    hide CaughtUp, Valid, Receive, Lagging;
    ContinuesInside(e.k, c);
    MatchSpec(e.k.w, e.k.l, e.k.lastMatched, c);
    hide Resolve, Match;
    CodewordKnown(CaughtUp(d, e.p.bits).d, e.k.w, e.str + [c], Match(e.k.w, e.k.lastMatched, c));
  }

  /** The one-character strings are known from the start. */
  lemma StartKnown(e: Enc, u: Matcher, c: byte)
    requires EncInv(e) && e.mode.Compressed? && e.str == [] && MatcherInv(u)
    ensures var k := Resolve(e.k, c);
            Known(u, Match(k.w, k.lastMatched, c), e.str + [c])
  {
    hide Valid;
    assert [] + [c] == [c];
    FreeSlot(u);
    FreeSlot(Resolve(u, c));
    assert e.k.lastMatched == 0 by { NothingCollected(e); }
  }

  lemma FreeSlot(k: Matcher)
    requires MatcherInv(k)
    ensures k.w.nextFree >= FIRST_FREE
  {}

  lemma EncMatcher(e: Enc)
    requires EncInv(e)
    ensures MatcherInv(e.k)
  {}

  lemma NothingCollected(e: Enc)
    requires EncInv(e) && e.mode.Compressed? && e.str == []
    ensures e.k.lastMatched == 0
  {}
}
