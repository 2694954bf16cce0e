/** V.42bis is lossless: for every history of calls and every outcome of the compression test. */
module Lossless {
  import opened Words
  import opened Bits
  import opened Codec
  import opened Transport
  import opened Lockstep

  /** Encoder and decoder between two calls. */
  ghost predicate Agree(e: Enc, d: Dec)
  {
    Sync(e, d) && Rested(e)
  }

  /** Encoder and decoder inside a call, with `s` still to be encoded. */
  ghost predicate Ready(e: Enc, d: Dec, s: Str)
  {
    if s == [] then Agree(e, d) else Sync(e, d) || SyncNext(e, d, s[0])
  }

  /** One offered character keeps the agreement, and no character is lost, repeated or reordered. */
  lemma StepAgrees(e: Enc, d: Dec, c: byte)
    requires EncInv(e) && DecInv(d) && (Sync(e, d) || SyncNext(e, d, c))
    ensures var o := Step(e, c); var r := Decode(d, o.out);
            && r.Ok?
            && (o.taken ==> Sync(o.e, r.d) && o.e.k.updateAt == 0 && r.x + InFlight(o.e, r.d) == InFlight(e, d) + [c])
            && (!o.taken ==> (CutT(o.e, r.d, c) || CutC(o.e, r.d, c)) && r.x + InFlight(o.e, r.d) == InFlight(e, d))
  {
    hide Decode, MatcherInv, InFlight, CaughtUp, FeedAll, Ends, Resolve, Send;
    var o := Step(e, c);
    var r := Decode(d, o.out);
    if SyncT(e, d) {
      NothingInFlightT(e, d);
      if Ends(Resolve(e.k, c), c) {
        EndT(e, d, c);
        NothingInFlightT(o.e, r.d);
        assert r.x + [] == r.x;
      } else {
        TakeT(e, d, c);
        NothingInFlightT(o.e, r.d);
      }
    } else if SyncC(e, d) && e.str != [] {
      if Ends(Resolve(e.k, c), c) {
        EndC(e, d, c);
      } else {
        ContinuesInside(e.k, c);
        TakeC(e, d, c);
      }
    } else if SyncC(e, d) || CutC(e, d, c) {
      StartC(e, d, c);
    } else {
      NothingInFlightT(e, d);
      StartT(e, d, c);
      NothingInFlightT(o.e, r.d);
      assert [] + [c] == [c];
    }
  }

  lemma ContinuesInside(k: Matcher, c: byte)
    requires MatcherInv(k) && k.lastMatched != 0
    ensures Resolve(k, c) == k
  {}

  /** A mode change keeps the agreement, at any point where the code may make one. */
  lemma SwitchAgrees(e: Enc, d: Dec, s: Str)
    requires EncInv(e) && DecInv(d)
    requires (Sync(e, d) && e.k.updateAt == 0) || (s != [] && (CutT(e, d, s[0]) || CutC(e, d, s[0])))
    ensures var (e1, out) := Switch(e); var r := Decode(d, out);
            r.Ok? && Ready(e1, r.d, s) && r.x + InFlight(e1, r.d) == InFlight(e, d)
  {
    hide Decode, MatcherInv, InFlight, CaughtUp, FeedAll;
    SwitchRests(e);
    if SyncT(e, d) && e.k.updateAt == 0 {
      SwitchT(e, d);
    } else if SyncC(e, d) && e.k.updateAt == 0 {
      SwitchC(e, d);
    } else if CutT(e, d, s[0]) {
      SwitchCutT(e, d, s[0]);
    } else {
      SwitchCutC(e, d, s[0]);
    }
  }

  lemma SwitchRests(e: Enc)
    requires EncInv(e)
    ensures Switch(e).0.p.bits == []
  {}

  lemma CutIsNext(e: Enc, d: Dec, c: byte)
    ensures CutT(e, d, c) || CutC(e, d, c) ==> SyncNext(e, d, c)
  {}

  /** One turn of the encoder's loop. */
  lemma RoundAgrees(e: Enc, d: Dec, s: Str, choices: seq<bool>)
    requires EncInv(e) && DecInv(d) && s != [] && Ready(e, d, s)
    ensures var t := Round(e, s, choices); var r := Decode(d, t.out);
            r.Ok? && Ready(t.e, r.d, t.rest) && r.x + (InFlight(t.e, r.d) + t.rest) == InFlight(e, d) + s
  {
    hide Decode, MatcherInv, InFlight, Sync, SyncNext, CutT, CutC, Step, Switch, EncInv;
    var o := Step(e, s[0]);
    var r := Decode(d, o.out);
    StepAgrees(e, d, s[0]);
    var rest := if o.taken then s[1..] else s;
    TakenOrNot(r.x, InFlight(o.e, r.d), InFlight(e, d), s, o.taken);
    CutIsNext(o.e, r.d, s[0]);
    if (o.ended || rest == []) && choices != [] && choices[0] {
      var (e1, out1) := Switch(o.e);
      SwitchAgrees(o.e, r.d, rest);
      DecodeThen(d, o.out, out1);
      var r1 := Decode(r.d, out1);
      assert (r.x + r1.x) + (InFlight(e1, r1.d) + rest) == r.x + ((r1.x + InFlight(e1, r1.d)) + rest);
    } else {
      assert o.out + [] == o.out;
    }
  }

  lemma TakenOrNot(x: Str, after: Str, before: Str, s: Str, taken: bool)
    requires s != [] && x + after == before + (if taken then [s[0]] else [])
    ensures x + (after + (if taken then s[1..] else s)) == before + s
  {
    var rest := if taken then s[1..] else s;
    assert x + (after + rest) == (x + after) + rest;
    assert (if taken then [s[0]] else []) + rest == s;
    assert before + ((if taken then [s[0]] else []) + rest) == (before + (if taken then [s[0]] else [])) + rest;
  }

  /** Encoding a buffer keeps the agreement: what comes out decodes to what went in. */
  lemma {:induction false} EncodeAgrees(e: Enc, d: Dec, s: Str, choices: seq<bool>)
    requires EncInv(e) && DecInv(d) && Ready(e, d, s)
    ensures var (e1, out) := Encode(e, s, choices); var r := Decode(d, out);
            r.Ok? && Agree(e1, r.d) && r.x + InFlight(e1, r.d) == InFlight(e, d) + s
    decreases |s|, e.k.lastMatched != 0
  {
    hide Decode, MatcherInv, InFlight, Sync, SyncNext, Round, EncInv;
    if s == [] {
      EmptyDecode(d);
      assert [] + InFlight(e, d) == InFlight(e, d) + [];
    } else {
      RoundAgrees(e, d, s, choices);
      var t := Round(e, s, choices);
      var r := Decode(d, t.out);
      EncodeAgrees(t.e, r.d, t.rest, t.choices);
      var (e1, out) := Encode(t.e, t.rest, t.choices);
      DecodeThen(d, t.out, out);
      var r1 := Decode(r.d, out);
      assert (r.x + r1.x) + InFlight(e1, r1.d) == r.x + (r1.x + InFlight(e1, r1.d));
    }
  }

  /** A flush keeps the agreement and leaves nothing in flight. */
  lemma FlushAgrees(e: Enc, d: Dec)
    requires EncInv(e) && DecInv(d) && Agree(e, d)
    ensures var (e1, out) := FlushEnc(e); var r := Decode(d, out);
            r.Ok? && Agree(e1, r.d) && r.x == InFlight(e, d) && InFlight(e1, r.d) == []
  {
    hide Decode, MatcherInv, InFlight, CaughtUp, FeedAll, Send, SendPending;
    if SyncT(e, d) {
      FlushT(e, d);
      var (e1, out) := FlushEnc(e);
      NothingInFlightT(e, d);
      NothingInFlightT(e1, Decode(d, out).d);
    } else {
      FlushC(e, d);
    }
  }

  // ----- the two dictionaries -----

  /**
   In compressed mode the dictionaries are equal, or the encoder is ahead by exactly the entry
   that the decoder adds when it sees the string being collected, and has not matched that entry.
   */
  lemma OnePending(e: Enc, d: Dec)
    requires SyncC(e, d)
    ensures var u := CaughtUp(d, e.p.bits).d.k;
            || e.k.w == u.w
            || (&& e.str != [] && u.updateAt != 0 && CanAdd(u.w, u.l, u.updateAt, e.str[0])
                && e.k.w == Add(u.w, u.l, u.updateAt, e.str[0]) && e.k.lastMatched != u.w.nextFree)
  {
    hide CaughtUp, StrOf;
  }

  /** At every ECM and ETM the dictionaries are equal. */
  lemma SwitchEqualizes(e: Enc, d: Dec, s: Str)
    requires EncInv(e) && DecInv(d)
    requires (Sync(e, d) && e.k.updateAt == 0) || (s != [] && (CutT(e, d, s[0]) || CutC(e, d, s[0])))
    ensures var (e1, out) := Switch(e); var r := Decode(d, out);
            r.Ok? && r.d.k.w == e1.k.w && r.d.esc == e1.esc && r.d.q == []
  {
    hide Decode, Switch, MatcherInv, InFlight;
    SwitchAgrees(e, d, s);
    SwitchRests(e);
    SwitchEmpties(e);
    var (e1, out) := Switch(e);
    EqualWhenIdle(e1, Decode(d, out).d, s);
  }

  lemma SwitchEmpties(e: Enc)
    requires EncInv(e)
    ensures Switch(e).0.str == [] && Switch(e).0.k.lastMatched == 0
  {}

  /** Nothing collected and nothing in the packer: decoder and encoder have the same dictionary. */
  lemma EqualWhenIdle(e: Enc, d: Dec, s: Str)
    requires EncInv(e) && DecInv(d) && e.str == [] && e.k.lastMatched == 0 && e.p.bits == []
    requires Sync(e, d) || (s != [] && (EnteredT(e, d, s[0]) || CutC(e, d, s[0]) || CutT(e, d, s[0])))
    ensures d.k.w == e.k.w && d.esc == e.esc && d.q == []
  {
    hide MatcherInv, Resolve;
    FeedNothing(d.k);
  }

  /** At every FLUSH the dictionaries are equal. */
  lemma FlushEqualizes(e: Enc, d: Dec)
    requires EncInv(e) && DecInv(d) && Agree(e, d) && e.mode.Compressed?
    ensures var (e1, out) := FlushEnc(e); var r := Decode(d, out);
            r.Ok? && r.d.k.w == e1.k.w && r.d.k.updateAt == e1.k.updateAt && r.d.esc == e1.esc && r.d.q == []
  {
    hide Decode, FlushEnc, MatcherInv, InFlight;
    FlushAgrees(e, d);
    FlushIdles(e);
    var (e1, out) := FlushEnc(e);
    EqualWhenIdle(e1, Decode(d, out).d, []);
  }

  lemma FlushIdles(e: Enc)
    requires EncInv(e) && e.mode.Compressed? && Rested(e)
    ensures var e1 := FlushEnc(e).0;
            e1.str == [] && e1.k.lastMatched == 0 && e1.p.bits == [] && e1.mode.Compressed?
  {}

  // ----- whole histories -----

  /** A call on the encoder. */
  datatype Call = Data(s: Str, choices: seq<bool>) | Flush

  ghost function Run(e: Enc, calls: seq<Call>): (r: (Enc, Str))
    requires EncInv(e)
    ensures EncInv(r.0)
    decreases |calls|
  {
    if calls == [] then (e, [])
    else
      var (e1, out1) := match calls[0] case Data(s, choices) => Encode(e, s, choices) case Flush => FlushEnc(e);
      var (e2, out2) := Run(e1, calls[1..]);
      (e2, out1 + out2)
  }

  function Input(calls: seq<Call>): Str
  {
    if calls == [] then []
    else (match calls[0] case Data(s, _) => s case Flush => []) + Input(calls[1..])
  }

  /** One more call. */
  lemma {:induction false} RunSnoc(e: Enc, calls: seq<Call>, c: Call)
    requires EncInv(e)
    ensures var (e1, out1) := Run(e, calls);
            var (e2, out2) := match c case Data(s, choices) => Encode(e1, s, choices) case Flush => FlushEnc(e1);
            Run(e, calls + [c]) == (e2, out1 + out2)
    ensures Input(calls + [c]) == Input(calls) + (match c case Data(s, _) => s case Flush => [])
    decreases |calls|
  {
    hide EncInv, Encode, FlushEnc;
    if calls == [] {
      assert [] + [c] == [c] && [c][1..] == [];
      var (e2, out2) := match c case Data(s, choices) => Encode(e, s, choices) case Flush => FlushEnc(e);
      assert Run(e2, []) == (e2, []);
      assert out2 + [] == out2 == [] + out2;
      var s := match c case Data(s, _) => s case Flush => [];
      assert Input([]) == [];
      assert s + [] == s == [] + s;
    } else {
      assert (calls + [c])[0] == calls[0] && (calls + [c])[1..] == calls[1..] + [c];
      var (e1, out1) := match calls[0] case Data(s, choices) => Encode(e, s, choices) case Flush => FlushEnc(e);
      RunSnoc(e1, calls[1..], c);
      var (e2, out2) := Run(e1, calls[1..]);
      var (e3, out3) := match c case Data(s, choices) => Encode(e2, s, choices) case Flush => FlushEnc(e2);
      assert out1 + (out2 + out3) == (out1 + out2) + out3;
      var s := match calls[0] case Data(s, _) => s case Flush => [];
      var t := match c case Data(s, _) => s case Flush => [];
      assert s + (Input(calls[1..]) + t) == (s + Input(calls[1..])) + t;
    }
  }

  lemma InitAgrees(l: Limits)
    requires l.Valid()
    ensures Agree(EncInit(l), DecInit(l)) && InFlight(EncInit(l), DecInit(l)) == []
  {}

  lemma CallAgrees(e: Enc, d: Dec, c: Call)
    requires EncInv(e) && DecInv(d) && Agree(e, d)
    ensures var (e1, out) := match c case Data(s, choices) => Encode(e, s, choices) case Flush => FlushEnc(e);
            var r := Decode(d, out);
            r.Ok? && Agree(e1, r.d)
            && r.x + InFlight(e1, r.d) == InFlight(e, d) + (match c case Data(s, _) => s case Flush => [])
            && (c.Flush? ==> InFlight(e1, r.d) == [])
  {
    hide Decode, Encode, FlushEnc, MatcherInv, InFlight, Sync, SyncNext, EncInv;
    match c
    case Data(s, choices) => EncodeAgrees(e, d, s, choices);
    case Flush =>
      FlushAgrees(e, d);
      assert InFlight(e, d) + [] == InFlight(e, d);
  }

  /** Over any history, the decoder never fails and its output is the input short of what is in flight. */
  lemma {:induction false} RunAgrees(e: Enc, d: Dec, calls: seq<Call>)
    requires EncInv(e) && DecInv(d) && Agree(e, d)
    ensures var (e1, out) := Run(e, calls); var r := Decode(d, out);
            && r.Ok? && Agree(e1, r.d)
            && r.x + InFlight(e1, r.d) == InFlight(e, d) + Input(calls)
            && (calls != [] && calls[|calls| - 1].Flush? ==> InFlight(e1, r.d) == [])
    decreases |calls|
  {
    hide Decode, Encode, FlushEnc, MatcherInv, InFlight, Agree, EncInv;
    if calls == [] {
      EmptyDecode(d);
      assert [] + InFlight(e, d) == InFlight(e, d) + [];
    } else {
      var c := calls[0];
      CallAgrees(e, d, c);
      var (e1, out1) := match c case Data(s, choices) => Encode(e, s, choices) case Flush => FlushEnc(e);
      var r1 := Decode(d, out1);
      RunAgrees(e1, r1.d, calls[1..]);
      var (e2, out2) := Run(e1, calls[1..]);
      var r2 := Decode(r1.d, out2);
      DecodeThen(d, out1, out2);
      var s := match c case Data(s, _) => s case Flush => [];
      assert (r1.x + r2.x) + InFlight(e2, r2.d) == r1.x + (r2.x + InFlight(e2, r2.d));
      assert r1.x + (InFlight(e1, r1.d) + Input(calls[1..])) == (r1.x + InFlight(e1, r1.d)) + Input(calls[1..]);
      assert (InFlight(e, d) + s) + Input(calls[1..]) == InFlight(e, d) + (s + Input(calls[1..]));
    }
  }

  /**
   Losslessness.  From a fresh pair, whatever the calls on the encoder and whatever the outcomes
   of its compression test, the decoder accepts every octet emitted, its output is at all times
   a prefix of the input, and it is the whole input after a flush.
   */
  lemma Lossless(l: Limits, calls: seq<Call>)
    requires l.Valid()
    ensures var r := Decode(DecInit(l), Run(EncInit(l), calls).1);
            && r.Ok? && r.x <= Input(calls)
            && (calls != [] && calls[|calls| - 1].Flush? ==> r.x == Input(calls))
  {
    hide Decode, Run, MatcherInv, InFlight, EncInv;
    InitAgrees(l);
    RunAgrees(EncInit(l), DecInit(l), calls);
    assert [] + Input(calls) == Input(calls);
  }
}
