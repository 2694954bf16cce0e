/**
 The relation between an encoder and the decoder that has received everything it emitted, and
 the proof that each encoder step keeps it.
 */
module Lockstep {
  import opened Words
  import opened Bits
  import opened Codec
  import opened Transport

  /**
   Compressed mode, between strings or inside one.  The decoder's dictionary equals the
   encoder's but for the insertion that the decoder makes when it sees the first character of
   the string being collected; until then the encoder has not matched that new entry.
   */
  ghost predicate Follows(ek: Matcher, str: Str, dk: Matcher)
    requires MatcherInv(ek) && MatcherInv(dk)
  {
    && ek.l == dk.l
    && if str == [] then ek.lastMatched == 0 && ek.w == dk.w && ek.updateAt == dk.updateAt
       else
         && str == Matched(ek) && ek.w == Resolve(dk, str[0]).w
         && (ek.w != dk.w ==> ek.lastAdded == dk.w.nextFree && ek.lastMatched != dk.w.nextFree)
  }

  /**
   Compressed mode, a string just ended because `c` comes next: either both sides wait for the
   same extension, or the encoder knows that the extension by `c` exists already.
   */
  ghost predicate FollowsNext(ek: Matcher, dk: Matcher, c: byte)
    requires MatcherInv(ek) && MatcherInv(dk)
  {
    && ek.l == dk.l && ek.lastMatched == 0 && ek.w == dk.w
    && (ek.updateAt == dk.updateAt || (ek.updateAt == 0 && dk.updateAt != 0 && Match(dk.w, dk.updateAt, c) != 0))
  }

  /** What the decoder knows once it has caught up, apart from the matcher. */
  ghost predicate Aligned(e: Enc, u: Dec)
  {
    u.esc == e.esc && u.k.l == e.k.l && u.cwSize == e.p.cwSize && u.threshold == e.p.threshold
  }

  ghost predicate BothTransparent(e: Enc, d: Dec)
  {
    EncInv(e) && e.mode.Transparent? && Listening(d) && Aligned(e, d)
  }

  ghost predicate BothCompressed(e: Enc, d: Dec)
  {
    EncInv(e) && e.mode.Compressed? && InStep(d, e.p) && Aligned(e, CaughtUp(d, e.p.bits).d)
  }

  ghost predicate SyncT(e: Enc, d: Dec)
  {
    BothTransparent(e, d) && FeedAll(d.k, e.str) == e.k
  }

  ghost predicate SyncC(e: Enc, d: Dec)
  {
    BothCompressed(e, d) && Follows(e.k, e.str, CaughtUp(d, e.p.bits).d.k)
  }

  /** Transparent mode, a string just ended because `c` comes next. */
  ghost predicate CutT(e: Enc, d: Dec, c: byte)
  {
    && BothTransparent(e, d) && e.str == []
    && d.k.updateAt == 0 && Ends(d.k, c) && e.k == Cut(d.k, c)
  }

  /** The same, after a change to transparent mode. */
  ghost predicate EnteredT(e: Enc, d: Dec, c: byte)
  {
    && BothTransparent(e, d) && e.str == []
    && e.k.lastMatched == 0 && d.k.lastMatched == 0 && e.k.w == d.k.w && Resolve(e.k, c) == Resolve(d.k, c)
  }

  ghost predicate CutC(e: Enc, d: Dec, c: byte)
  {
    BothCompressed(e, d) && e.str == [] && FollowsNext(e.k, CaughtUp(d, e.p.bits).d.k, c)
  }

  /** Encoder and decoder agree. */
  ghost predicate Sync(e: Enc, d: Dec)
  {
    SyncT(e, d) || SyncC(e, d)
  }

  /** Encoder and decoder agree given that the next character is `c`. */
  ghost predicate SyncNext(e: Enc, d: Dec, c: byte)
  {
    CutT(e, d, c) || EnteredT(e, d, c) || CutC(e, d, c)
  }

  /** Characters that the encoder has taken and the decoder has not produced. */
  ghost function InFlight(e: Enc, d: Dec): Str
  {
    (if Lagging(d, e.p.bits) && CaughtUp(d, e.p.bits).Ok? then CaughtUp(d, e.p.bits).x else []) + e.str
  }

  // ----- dictionary lockstep -----

  /**
   Every codeword that the encoder sends is known to the decoder, for the same string, both
   before and after the decoder's own insertion; afterwards the dictionaries are equal.
   */
  lemma CodewordKnown(d: Dec, w: Words, s: Str, cw: nat)
    requires DecInv(d) && d.mode.Compressed?
    requires Valid(w, d.k.l) && Has(w, cw) && StrOf(w, cw) == s && s != []
    requires w == Resolve(d.k, s[0]).w && (w != d.k.w ==> cw != d.k.w.nextFree)
    ensures cw != d.k.w.nextFree && cw != w.nextFree && Has(d.k.w, cw) && StrOf(d.k.w, cw) == s
    ensures var r := Receive(d, cw);
            && r.Ok? && r.x == s
            && r.d.k.w == w && r.d.k.updateAt == (if |s| == d.k.l.maxStr then 0 else cw)
            && r.d.esc == EscAfter(s, d.esc) && r.d.mode.Compressed? && r.d.q == d.q
            && r.d.cwSize == d.cwSize && r.d.threshold == d.threshold
  {
    if w != d.k.w {
      AddKeeps(d.k.w, d.k.l, d.k.updateAt, s[0], cw);
    }
  }

  // ----- transparent mode -----

  lemma SendT(e: Enc, d: Dec)
    requires SyncT(e, d)
    ensures Decode(d, Escaped(e.str, e.esc)) == Ok(d.(k := e.k, esc := EscAfter(e.str, e.esc)), e.str)
  {
    hide Decode, MatcherInv;
    EscapedString(d, e.str);
  }

  /** A first character never completes a string. */
  lemma StartString(k: Matcher, c: byte)
    requires MatcherInv(k) && k.lastMatched == 0 && k.updateAt == 0
    ensures !Ends(k, c) && Push(k, c).lastMatched != 0 && Matched(Push(k, c)) == [c]
    ensures Push(k, c) == k.(lastMatched := c + FIRST_ENTRY)
  {}

  lemma NothingInFlightT(e: Enc, d: Dec)
    requires BothTransparent(e, d)
    ensures InFlight(e, d) == e.str
  {
    assert [] + e.str == e.str;
  }

  lemma EmptyDecode(d: Dec)
    requires DecInv(d)
    ensures Decode(d, []) == Ok(d, [])
  {}

  /** A character that continues the string. */
  lemma TakeT(e: Enc, d: Dec, c: byte)
    requires SyncT(e, d) && !Ends(Resolve(e.k, c), c)
    ensures var o := Step(e, c); var r := Decode(d, o.out);
            o.taken && r.Ok? && SyncT(o.e, r.d) && r.x + o.e.str == e.str + [c] && o.e.k.updateAt == 0
  {
    hide Decode, MatcherInv, Escaped, FeedAll;
    FeedAllSnoc(d.k, e.str, c);
    var e1 := e.(k := Feed(e.k, c), str := e.str + [c]);
    if e1.k.lastMatched != 0 {
      EmptyDecode(d);
      assert [] + e1.str == e1.str;
    } else {
      EscapedString(d, e1.str);
      FeedNothing(e1.k);
      assert e1.str + [] == e1.str;
    }
  }

  lemma FeedNothing(k: Matcher)
    requires MatcherInv(k)
    ensures FeedAll(k, []) == k
  {}

  lemma FeedOne(k: Matcher, c: byte)
    requires MatcherInv(k)
    ensures FeedAll(k, [c]) == Feed(k, c)
  {
    FeedAllSnoc(k, [], c);
    assert [] + [c] == [c];
  }

  lemma EndedInside(k: Matcher, c: byte)
    requires MatcherInv(k) && Ends(Resolve(k, c), c)
    ensures k.updateAt == 0 && k.lastMatched != 0 && Resolve(k, c) == k
  {
    if k.lastMatched == 0 {
      RootGoesOn(Resolve(k, c), c);
    }
  }

  /** A character that ends the string. */
  lemma EndT(e: Enc, d: Dec, c: byte)
    requires SyncT(e, d) && Ends(Resolve(e.k, c), c)
    ensures var o := Step(e, c); var r := Decode(d, o.out);
            !o.taken && r.Ok? && CutT(o.e, r.d, c) && r.x == e.str
  {
    hide Decode, MatcherInv, Escaped, FeedAll;
    EndedInside(e.k, c);
    SendT(e, d);
    FeedNothing(e.k);
  }

  /** The character that ended a string starts the next one. */
  lemma StartT(e: Enc, d: Dec, c: byte)
    requires CutT(e, d, c) || EnteredT(e, d, c)
    ensures var o := Step(e, c); var r := Decode(d, o.out);
            o.taken && r.Ok? && SyncT(o.e, r.d) && r.x + o.e.str == [c] && o.e.k.updateAt == 0
  {
    hide Decode, MatcherInv, FeedAll;
    StartString(Resolve(e.k, c), c);
    FeedOne(d.k, c);
    EmptyDecode(d);
    if CutT(e, d, c) {
      assert Resolve(d.k, c) == d.k;
    }
    assert [] + [c] == [c];
  }

  // ----- compressed mode -----

  /** What sending the codeword `cw` for the string `s` does at the other end. */
  lemma SendC(d: Dec, p: Packer, w: Words, s: Str, cw: nat)
    requires InStep(d, p) && CCW_STEPUP < cw < 32768
    requires var u := CaughtUp(d, p.bits).d;
             && Valid(w, u.k.l) && Has(w, cw) && StrOf(w, cw) == s && s != []
             && w == Resolve(u.k, s[0]).w && (w != u.k.w ==> cw != u.k.w.nextFree)
    ensures var u := CaughtUp(d, p.bits);
            var (p1, out) := PutData(p, cw);
            var r := Decode(d, out);
            && r.Ok? && InStep(r.d, p1)
            && var u1 := CaughtUp(r.d, p1.bits);
               && u1.d.k.w == w && u1.d.k.updateAt == (if |s| == u.d.k.l.maxStr then 0 else cw)
               && u1.d.k.l == u.d.k.l && u1.d.esc == EscAfter(s, u.d.esc)
               && r.x + u1.x == u.x + s
  {
    hide Decode, DecByte, Receive, MatcherInv, Resolve, Valid, PutData, CaughtUp;
    var u := CaughtUp(d, p.bits);
    CodewordKnown(u.d, w, s, cw);
    DataArrives(d, p, cw);
    ReceiveKeepsLimits(u.d, cw);
  }

  lemma ReceiveKeepsLimits(d: Dec, cw: nat)
    requires DecInv(d) && d.mode.Compressed? && Receive(d, cw).Ok?
    ensures Receive(d, cw).d.k.l == d.k.l
  {}

  lemma InFlightC(e: Enc, d: Dec)
    requires BothCompressed(e, d)
    ensures InFlight(e, d) == CaughtUp(d, e.p.bits).x + e.str
  {}

  lemma IdleC(d: Dec)
    requires DecInv(d) && d.mode.Compressed?
    ensures d.k.lastMatched == 0
  {}

  /** A first character in compressed mode: both dictionaries make the same insertion, the decoder's later. */
  lemma StartC(e: Enc, d: Dec, c: byte)
    requires (SyncC(e, d) && e.str == []) || CutC(e, d, c)
    ensures var o := Step(e, c); var r := Decode(d, o.out);
            o.taken && r.Ok? && SyncC(o.e, r.d) && r.x + InFlight(o.e, r.d) == InFlight(e, d) + [c]
              && o.e.k.updateAt == 0
  {
    hide Decode, MatcherInv, CaughtUp;
    var u := CaughtUp(d, e.p.bits);
    StartString(Resolve(e.k, c), c);
    EmptyDecode(d);
    SameInsertion(e.k, u.d.k, c);
    var o := Step(e, c);
    assert o.e == e.(k := Push(Resolve(e.k, c), c), str := [c]);
    InFlightC(e, d);
    InFlightC(o.e, d);
    assert [] + (u.x + [c]) == (u.x + []) + [c];
  }

  lemma SameInsertion(ek: Matcher, dk: Matcher, c: byte)
    requires MatcherInv(ek) && MatcherInv(dk) && FollowsNext(ek, dk, c)
    ensures var r := Resolve(ek, c);
            r.w == Resolve(dk, c).w
            && (r.w != dk.w ==> r.lastAdded == dk.w.nextFree && c + FIRST_ENTRY != dk.w.nextFree)
  {}

  /** A character that continues a string in compressed mode. */
  lemma TakeC(e: Enc, d: Dec, c: byte)
    requires SyncC(e, d) && e.str != [] && !Ends(e.k, c)
    ensures var o := Step(e, c); var r := Decode(d, o.out);
            o.taken && r.Ok? && SyncC(o.e, r.d) && r.x + InFlight(o.e, r.d) == InFlight(e, d) + [c]
              && o.e.k.updateAt == 0
  {
    hide Decode, MatcherInv, CaughtUp, PutData, Resolve;
    var u := CaughtUp(d, e.p.bits);
    Extension(e.k, c);
    InsideString(e.k);
    var cw := Match(e.k.w, e.k.lastMatched, c);
    InFlightC(e, d);
    var o := Step(e, c);
    if o.e.k.lastMatched != 0 {
      EmptyDecode(d);
      InFlightC(o.e, d);
      assert [] + (u.x + (e.str + [c])) == (u.x + e.str) + [c];
    } else {
      SendC(d, e.p, e.k.w, e.str + [c], cw);
      var r := Decode(d, o.out);
      InFlightC(o.e, r.d);
      assert u.x + (e.str + [c]) == (u.x + e.str) + [c];
      assert r.x + (CaughtUp(r.d, o.e.p.bits).x + []) == (r.x + CaughtUp(r.d, o.e.p.bits).x);
    }
  }

  /** The entry by which the match goes on. */
  lemma Extension(k: Matcher, c: byte)
    requires MatcherInv(k) && k.lastMatched != 0 && !Ends(k, c)
    ensures var cw := Match(k.w, k.lastMatched, c);
            && k.updateAt == 0 && Resolve(k, c) == k
            && Has(k.w, cw) && StrOf(k.w, cw) == Matched(k) + [c]
            && FIRST_FREE <= cw < 32768 && cw != k.lastAdded
            && Push(k, c) == k.(lastMatched := if |Matched(k)| + 1 == k.l.maxStr then 0 else cw)
            && |Matched(k)| + 1 <= k.l.maxStr
            && Valid(k.w, k.l)
  {}

  /** The string matched so far, sent as a codeword. */
  lemma SendMatched(e: Enc, d: Dec)
    requires SyncC(e, d) && e.k.lastMatched != 0
    ensures var u := CaughtUp(d, e.p.bits);
            var (e1, out) := Send(e, e.k.lastMatched);
            var r := Decode(d, out);
            && e1.k == e.k && e1.mode.Compressed? && r.Ok? && InStep(r.d, e1.p)
            && var u1 := CaughtUp(r.d, e1.p.bits);
               && u1.d.k.w == e.k.w && u1.d.k.updateAt == e.k.lastMatched
               && Aligned(e1, u1.d) && r.x + u1.x == u.x + e.str
  {
    hide Decode, MatcherInv, CaughtUp, PutData, Resolve;
    InsideString(e.k);
    SendC(d, e.p, e.k.w, e.str, e.k.lastMatched);
  }

  lemma InsideString(k: Matcher)
    requires MatcherInv(k) && k.lastMatched != 0
    ensures k.updateAt == 0 && Matched(k) != [] && |Matched(k)| < k.l.maxStr
    ensures CCW_STEPUP < k.lastMatched < 32768 && Has(k.w, k.lastMatched) && Valid(k.w, k.l)
  {}

  /** A character that ends a string in compressed mode. */
  lemma EndC(e: Enc, d: Dec, c: byte)
    requires SyncC(e, d) && Ends(Resolve(e.k, c), c)
    ensures var o := Step(e, c); var r := Decode(d, o.out);
            !o.taken && r.Ok? && CutC(o.e, r.d, c) && r.x + InFlight(o.e, r.d) == InFlight(e, d)
  {
    hide Decode, MatcherInv, CaughtUp, PutData, Resolve;
    EndedInside(e.k, c);
    InsideString(e.k);
    SendMatched(e, d);
    InFlightC(e, d);
    var o := Step(e, c);
    var r := Decode(d, o.out);
    InFlightC(o.e, r.d);
    assert r.x + (CaughtUp(r.d, o.e.p.bits).x + []) == r.x + CaughtUp(r.d, o.e.p.bits).x;
  }

  // ----- mode changes -----

  /** The two octets that announce compressed mode. */
  lemma EnterCompressed(d: Dec)
    requires Listening(d)
    ensures Decode(d, [d.esc, CC_ECM]) ==
            Ok(d.(mode := Compressed, k := d.k.(updateAt := d.k.lastMatched, lastMatched := 0)), [])
  {
    OneByte(d, d.esc);
    var d1 := DecByte(d, d.esc).d;
    OneByte(d1, CC_ECM);
    DecodeThen(d, [d.esc], [CC_ECM]);
    assert [d.esc] + [CC_ECM] == [d.esc, CC_ECM];
  }

  ghost function Entered(d: Dec): Dec
  {
    d.(mode := Compressed, k := d.k.(updateAt := d.k.lastMatched, lastMatched := 0))
  }

  lemma EnteredInStep(d: Dec, p: Packer)
    requires Listening(d) && PackerInv(p) && p.bits == [] && d.cwSize == p.cwSize && d.threshold == p.threshold
    ensures InStep(Entered(d), p) && CaughtUp(Entered(d), p.bits) == Ok(Entered(d), [])
  {}

  /** From transparent to compressed mode, inside a string or at its end. */
  lemma SwitchT(e: Enc, d: Dec)
    requires SyncT(e, d) && e.k.updateAt == 0
    ensures var (e1, out) := Switch(e); var r := Decode(d, out);
            r.Ok? && SyncC(e1, r.d) && r.x + InFlight(e1, r.d) == InFlight(e, d)
  {
    hide Decode, DecByte, MatcherInv, Escaped, FeedAll, InStep;
    var (e1, out) := SendPending(e);
    SendPendingT(e, d);
    var r := Decode(d, out);
    EnterCompressed(r.d);
    DecodeThen(d, out, [r.d.esc, CC_ECM]);
    EnteredInStep(r.d, e1.p);
    NothingInFlightT(e, d);
    InFlightC(Switch(e).0, Entered(r.d));
    assert r.x + [] == r.x;
    assert r.x + ([] + []) == r.x;
  }

  /** Sending the pending string leaves the decoder where the encoder was. */
  lemma SendPendingT(e: Enc, d: Dec)
    requires SyncT(e, d)
    ensures var (e1, out) := SendPending(e); var r := Decode(d, out);
            && r.Ok? && BothTransparent(e1, r.d) && r.d.k == e.k && r.x == e.str && e1.str == []
  {
    hide Decode, MatcherInv, Escaped, FeedAll;
    SendT(e, d);
    if e.k.lastMatched == 0 {
      EmptyDecode(d);
      FeedNothing(d.k);
    }
  }

  lemma SwitchCutT(e: Enc, d: Dec, c: byte)
    requires CutT(e, d, c)
    ensures var (e1, out) := Switch(e); var r := Decode(d, out);
            r.Ok? && CutC(e1, r.d, c) && r.x + InFlight(e1, r.d) == InFlight(e, d)
  {
    hide Decode, DecByte, MatcherInv, InStep;
    EnterCompressed(d);
    assert [] + [e.esc, CC_ECM] == [e.esc, CC_ECM];
    EnteredInStep(d, e.p);
    NothingInFlightT(e, d);
    InFlightC(Switch(e).0, Entered(d));
    CutFollows(d.k, c);
    assert [] + InFlight(e, d) == InFlight(e, d);
  }

  lemma CutFollows(k: Matcher, c: byte)
    requires MatcherInv(k) && k.updateAt == 0 && Ends(k, c)
    ensures var dk := k.(updateAt := k.lastMatched, lastMatched := 0);
            MatcherInv(dk) && FollowsNext(Cut(k, c), dk, c)
  {}

  /** Sending the pending codeword leaves the decoder waiting for the same extension. */
  lemma SendPendingC(e: Enc, d: Dec)
    requires SyncC(e, d)
    ensures var (e1, out) := SendPending(e); var r := Decode(d, out);
            r.Ok? && SyncC(e1, r.d) && e1.str == [] && r.x + InFlight(e1, r.d) == InFlight(e, d)
  {
    hide Decode, MatcherInv, CaughtUp, PutData, Resolve;
    if e.k.lastMatched == 0 {
      EmptyDecode(d);
      assert [] + InFlight(e, d) == InFlight(e, d);
    } else {
      SendMatched(e, d);
      InsideString(e.k);
      InFlightC(e, d);
      var (e1, out) := SendPending(e);
      var r := Decode(d, out);
      InFlightC(e1, r.d);
      assert r.x + (CaughtUp(r.d, e1.p.bits).x + []) == r.x + CaughtUp(r.d, e1.p.bits).x;
    }
  }

  /** The aligned ETM. */
  lemma LeaveCompressed(e: Enc, d: Dec)
    requires BothCompressed(e, d)
    ensures var u := CaughtUp(d, e.p.bits);
            var (p, out) := PutAligned(e.p, CCW_ETM);
            && Decode(d, out) == Ok(u.d.(mode := Transparent, k := u.d.k.(lastAdded := 0)), u.x)
            && Listening(Decode(d, out).d) && PackerInv(p) && p.cwSize == e.p.cwSize && p.threshold == e.p.threshold
            && p.bits == []
  {
    hide Decode, MatcherInv, CaughtUp;
    AlignedArrives(d, e.p, CCW_ETM);
    var u := CaughtUp(d, e.p.bits);
    IdleC(u.d);
    assert u.d.k.(lastMatched := 0) == u.d.k;
  }

  /** From compressed to transparent mode, inside a string or at its end. */
  lemma SwitchC(e: Enc, d: Dec)
    requires SyncC(e, d)
    ensures var (e1, out) := Switch(e); var r := Decode(d, out);
            r.Ok? && SyncT(e1, r.d) && r.x + InFlight(e1, r.d) == InFlight(e, d)
  {
    hide Decode, MatcherInv, CaughtUp, PutAligned;
    SendPendingC(e, d);
    var (e1, out) := SendPending(e);
    var r := Decode(d, out);
    LeaveCompressed(e1, r.d);
    var (e2, all) := Switch(e);
    DecodeThen(d, out, PutAligned(e1.p, CCW_ETM).1);
    InFlightC(e1, r.d);
    var d2 := Decode(d, all).d;
    IdleC(CaughtUp(r.d, e1.p.bits).d);
    FeedNothing(d2.k);
    NothingInFlightT(e2, d2);
    assert (r.x + CaughtUp(r.d, e1.p.bits).x) + [] == r.x + (CaughtUp(r.d, e1.p.bits).x + []);
  }

  lemma SwitchCutC(e: Enc, d: Dec, c: byte)
    requires CutC(e, d, c)
    ensures var (e1, out) := Switch(e); var r := Decode(d, out);
            r.Ok? && EnteredT(e1, r.d, c) && r.x + InFlight(e1, r.d) == InFlight(e, d)
  {
    hide Decode, MatcherInv, CaughtUp, PutAligned;
    LeaveCompressed(e, d);
    var (e1, all) := Switch(e);
    assert [] + PutAligned(e.p, CCW_ETM).1 == PutAligned(e.p, CCW_ETM).1;
    InFlightC(e, d);
    var u := CaughtUp(d, e.p.bits);
    IdleC(u.d);
    NothingInFlightT(e1, Decode(d, all).d);
    SameResolution(e1.k, Decode(d, all).d.k, c);
    assert u.x + [] == u.x;
  }

  lemma SameResolution(ek: Matcher, dk: Matcher, c: byte)
    requires MatcherInv(ek) && MatcherInv(dk) && FollowsNext(ek, dk, c)
    requires dk.lastMatched == 0 && ek.lastAdded == dk.lastAdded
    ensures Resolve(ek, c) == Resolve(dk, c)
  {}

  // ----- flush -----

  lemma FlushT(e: Enc, d: Dec)
    requires SyncT(e, d)
    ensures var (e1, out) := FlushEnc(e); var r := Decode(d, out);
            r.Ok? && SyncT(e1, r.d) && r.x == e.str && e1.str == []
  {
    hide Decode, MatcherInv, Escaped, FeedAll;
    if e.k.updateAt != 0 || e.k.lastMatched == 0 {
      EmptyDecode(d);
      NothingMatched(e.k);
    } else {
      SendT(e, d);
      FeedNothing(e.k);
    }
  }

  lemma NothingMatched(k: Matcher)
    requires MatcherInv(k) && (k.updateAt != 0 || k.lastMatched == 0)
    ensures Matched(k) == []
  {}

  /** A pending extension between calls goes with an empty packer. */
  ghost predicate Rested(e: Enc)
  {
    e.k.updateAt != 0 ==> e.p.bits == []
  }

  /** The aligned FLUSH. */
  lemma FlushArrives(e: Enc, d: Dec)
    requires BothCompressed(e, d)
    ensures var u := CaughtUp(d, e.p.bits);
            var (p, out) := PutAligned(e.p, CCW_FLUSH);
            && Decode(d, out) == Ok(u.d, u.x)
            && InStep(u.d, p) && p.bits == [] && CaughtUp(u.d, p.bits) == Ok(u.d, [])
  {
    hide Decode, MatcherInv;
    AlignedArrives(d, e.p, CCW_FLUSH);
  }

  lemma FlushC(e: Enc, d: Dec)
    requires SyncC(e, d) && Rested(e)
    ensures var (e1, out) := FlushEnc(e); var r := Decode(d, out);
            r.Ok? && SyncC(e1, r.d) && Rested(e1) && r.x == InFlight(e, d) && InFlight(e1, r.d) == []
  {
    hide Decode, MatcherInv, CaughtUp, PutAligned, Follows;
    if e.k.updateAt != 0 {
      EmptyDecode(d);
      AllArrived(e, d);
    } else {
      SendPendingC(e, d);
      var (e1, out) := SendPending(e);
      var r := Decode(d, out);
      InStepDec(d, e.p);
      InStepDec(r.d, e1.p);
      FlushTail(e1, r.d);
      DecodeThen(d, out, PutAligned(e1.p, CCW_FLUSH).1);
      InFlightC(e1, r.d);
      assert r.x + CaughtUp(r.d, e1.p.bits).x == r.x + (CaughtUp(r.d, e1.p.bits).x + []);
    }
  }

  /** The FLUSH after the pending codeword. */
  lemma FlushTail(e: Enc, d: Dec)
    requires SyncC(e, d) && e.str == []
    ensures var (p, out) := PutAligned(e.p, CCW_FLUSH);
            var e1 := e.(p := p); var r := Decode(d, out); var u := CaughtUp(d, e.p.bits);
            r == Ok(u.d, u.x) && SyncC(e1, r.d) && Rested(e1) && InFlight(e1, r.d) == []
  {
    hide Decode, MatcherInv, Follows;
    FlushArrives(e, d);
    var e1 := e.(p := PutAligned(e.p, CCW_FLUSH).0);
    InFlightC(e1, CaughtUp(d, e.p.bits).d);
  }

  lemma InStepDec(d: Dec, p: Packer)
    requires InStep(d, p)
    ensures DecInv(d)
  {}

  lemma AllArrived(e: Enc, d: Dec)
    requires SyncC(e, d) && e.k.updateAt != 0 && e.p.bits == []
    ensures InFlight(e, d) == []
  {}
}
