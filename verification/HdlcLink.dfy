/** Transmitter and receiver objects back to back, with groups of different sizes at the two ends. */
module HdlcLink {
  import opened Fcs
  import opened Hdlc
  import opened HdlcRoundTrip
  import opened HdlcPacker
  import opened HdlcSound

  lemma {:induction false} FlattenLength(gs: seq<nat>, n: nat)
    ensures |Flatten(Groups(gs, n))| == n * |gs|
    decreases |gs|
  {
    if gs == [] {
      assert Groups(gs, n) == [];
    } else {
      FlattenLength(gs[1..], n);
      assert Groups(gs, n)[1..] == Groups(gs[1..], n);
      assert n * |gs| == n + n * (|gs| - 1);
    }
  }

  /** The answers of a transmitter that started with `answers` are these, from the first on, then Idle. */
  lemma AskedInOrder(answers: seq<Answer>, asked: seq<Answer>, source: seq<Answer>)
    requires Drawn([], answers, asked, source)
    ensures |asked| <= |answers| ==> answers == asked + answers[|asked|..]
    ensures |answers| <= |asked| ==> asked == answers + asked[|answers|..] && asked[..|answers|] == answers
    ensures forall i :: |answers| <= i < |asked| ==> asked[i] == Idle
  {
    var all := asked + source;
    assert [] + answers == answers;
    assert all[..|answers|] == answers;
    if |asked| <= |answers| {
      assert answers[..|asked|] == asked by {
        assert all[..|answers|][..|asked|] == asked;
      }
    } else {
      assert asked[..|answers|] == answers;
    }
    assert forall i :: |answers| <= i < |asked| ==> all[i] == asked[i];
  }

  lemma AskedFits(answers: seq<Answer>, asked: seq<Answer>, source: seq<Answer>)
    requires Drawn([], answers, asked, source) && forall a :: a in answers ==> Fits(a)
    ensures forall a :: a in asked ==> Fits(a)
    ensures |answers| <= |asked| ==> asked[..|answers|] == answers
  {
    hide Drawn;
    AskedInOrder(answers, asked, source);
    forall i | 0 <= i < |asked|
      ensures Fits(asked[i])
    {
      if i < |answers| {
        assert asked[i] == answers[i];
      }
    }
  }

  lemma AskedFrames(answers: seq<Answer>, asked: seq<Answer>, source: seq<Answer>)
    requires Drawn([], answers, asked, source)
    ensures Frames(asked) <= Frames(answers)
  {
    hide Drawn, Frames;
    AskedInOrder(answers, asked, source);
    if |asked| <= |answers| {
      FramesConcat(asked, answers[|asked|..]);
    } else {
      FramesConcat(answers, asked[|answers|..]);
      OnlyIdle(asked[|answers|..]);
      assert Frames(answers) + [] == Frames(answers);
    }
  }

  lemma {:induction false} OnlyIdle(answers: seq<Answer>)
    requires forall i :: 0 <= i < |answers| ==> answers[i] == Idle
    ensures Frames(answers) == []
    decreases |answers|
  {
    if answers != [] {
      OnlyIdle(answers[1..]);
    }
  }

  /** Enough bits have been sent for all the answers and the lookahead after them. */
  lemma EnoughAsked(answers: seq<Answer>, asked: seq<Answer>, source: seq<Answer>, bits: seq<bool>)
    requires Drawn([], answers, asked, source) && bits <= Line(asked) && |bits| >= |Line(answers)| + LOOKAHEAD
    ensures |answers| <= |asked|
  {
    if |asked| < |answers| {
      var all := asked + source;
      assert [] + answers == answers;
      assert answers[..|asked|] == asked by {
        assert all[..|answers|][..|asked|] == asked;
      }
      LineShorter(answers, |asked|);
    }
  }

  lemma {:induction false} LineShorter(answers: seq<Answer>, n: nat)
    requires n <= |answers|
    ensures |Line(answers[..n])| <= |Line(answers)|
    decreases n
  {
    hide Piece;
    if n > 0 {
      assert answers[..n][1..] == answers[1..][..n - 1];
      LineShorter(answers[1..], n - 1);
    }
  }

  /**
   Frames of 1 to 510 octets, sent in groups of `txN` bits and received in groups of `rxN` bits:
   what the receiver hands over are the frames sent, from the first on and in order, and all of
   them once the flag after the last frame and ten more bits have arrived.
   */
  method Relay(answers: seq<Answer>, txN: nat, cnt: nat, rxN: nat) returns (got: seq<Octets>)
    requires forall a :: a in answers ==> Fits(a)
    requires 1 <= txN <= 8 && 1 <= rxN <= 8
    ensures got <= Frames(answers)
    ensures txN * cnt >= |Line(answers)| + LOOKAHEAD + rxN ==> got == Frames(answers)
  {
    hide Line, Frames, Flatten, Groups, Pass, PutAll, Drawn, Fits;
    var tx := new Transmitter(answers);
    var rx := new Receiver();
    var groups := tx.GetBits(txN, cnt);
    var bits := Flatten(Groups(groups, txN));
    FlattenLength(groups, txN);
    assert [] + bits == bits;
    var regrouped := Cut(bits, rxN);
    rx.PutBits(rxN, regrouped);
    got := rx.got;
    assert got[0..] == got;
    Delivered(answers, tx.asked, tx.source, tx.emitted, regrouped, rxN);
  }

  /** What the round trip says about the objects. */
  lemma Delivered(answers: seq<Answer>, asked: seq<Answer>, source: seq<Answer>, bits: seq<bool>, regrouped: seq<nat>,
      rxN: nat)
    requires forall a :: a in answers ==> Fits(a)
    requires Drawn([], answers, asked, source) && bits <= Line(asked) && 1 <= rxN <= 8 && regrouped == Cut(bits, rxN)
    ensures var got := PutAll(RX_INIT, Groups(regrouped, rxN)).frames;
            && got <= Frames(answers)
            && (|bits| >= |Line(answers)| + LOOKAHEAD + rxN ==> got == Frames(answers))
  {
    hide Line, Frames, Flatten, Groups, PutAll, Drawn, Fits;
    AskedFits(answers, asked, source);
    AskedFrames(answers, asked, source);
    CutBits(bits, rxN);
    var gs := Groups(regrouped, rxN);
    GroupSizes(regrouped, rxN);
    RoundTrip(asked, gs, 0);
    if |bits| >= |Line(answers)| + LOOKAHEAD + rxN {
      EnoughAsked(answers, asked, source, bits);
      RoundTrip(asked, gs, |answers|);
    }
  }

  lemma GroupSizes(gs: seq<nat>, n: nat)
    requires n <= 8
    ensures forall g :: g in Groups(gs, n) ==> |g| <= 8
  {}

  /** Whatever comes over the line, a new receiver hands over only frames that stand on it, in order. */
  method Hear(gs: seq<nat>, n: nat) returns (got: seq<Octets>)
    requires 1 <= n <= 8
    ensures exists end :: Carries(Flatten(Groups(gs, n)), got, end)
  {
    hide Carries, Flatten, Groups, PutAll;
    var rx := new Receiver();
    rx.PutBits(n, gs);
    got := rx.got;
    assert got[0..] == got;
    GroupSizes(gs, n);
    OnlyGoodFrames(Groups(gs, n));
  }
}
