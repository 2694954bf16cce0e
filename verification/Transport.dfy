/**
 How the octets that the packer emits reach the decoder's codeword buffer: decoding what has
 been emitted so far leaves the decoder behind by at most the codeword that is still in part
 in the packer.
 */
module Transport {
  import opened Words
  import opened Bits
  import opened Codec

  /** Decoding a concatenation is decoding piece after piece. */
  lemma {:induction false} DecodeConcat(d: Dec, a: Str, b: Str)
    requires DecInv(d) && Decode(d, a).Ok?
    ensures Decode(d, a + b) == Join(Decode(d, a).x, Decode(Decode(d, a).d, b))
    decreases |a|
  {
    hide DecByte, Decode, DecInv;
    if a == [] {
      assert a + b == b;
      DecodeNothing(d);
    } else {
      assert (a + b)[0] == a[0] && (a + b)[1..] == a[1..] + b;
      DecodeUnfolds(d, a);
      DecodeUnfolds(d, a + b);
      var r := DecByte(d, a[0]);
      DecodeConcat(r.d, a[1..], b);
      JoinTwice(r.x, Decode(r.d, a[1..]).x, Decode(Decode(d, a).d, b));
    }
  }

  lemma DecodeUnfolds(d: Dec, s: Str)
    requires DecInv(d) && s != []
    ensures var r := DecByte(d, s[0]);
            (r.Ok? ==> DecInv(r.d)) && Decode(d, s) == if r.Ok? then Join(r.x, Decode(r.d, s[1..])) else r
  {
    hide DecByte;
  }

  lemma DecodeNothing(d: Dec)
    requires DecInv(d)
    ensures Decode(d, []) == Ok(d, []) && forall r: DecResult :: Join([], r) == r
  {
    forall r: DecResult
      ensures Join([], r) == r
    {
      if r.Ok? {
        assert [] + r.x == r.x;
      }
    }
  }

  lemma JoinTwice(x: Str, y: Str, r: DecResult)
    ensures Join(x, Join(y, r)) == Join(x + y, r)
  {
    if r.Ok? {
      assert x + (y + r.x) == (x + y) + r.x;
    }
  }

  lemma DecodeThen(d: Dec, a: Str, b: Str)
    requires DecInv(d) && Decode(d, a).Ok? && Decode(Decode(d, a).d, b).Ok?
    ensures var r := Decode(d, a); var r2 := Decode(r.d, b);
            Decode(d, a + b) == Ok(r2.d, r.x + r2.x)
  {
    DecodeConcat(d, a, b);
  }

  // ----- transparent mode -----

  /** A string through the matcher. */
  ghost function FeedAll(k: Matcher, s: Str): (r: Matcher)
    requires MatcherInv(k)
    ensures MatcherInv(r) && r.l == k.l
    decreases |s|
  {
    if s == [] then k else FeedAll(Feed(k, s[0]), s[1..])
  }

  lemma {:induction false} FeedAllSnoc(k: Matcher, s: Str, c: byte)
    requires MatcherInv(k)
    ensures FeedAll(k, s + [c]) == Feed(FeedAll(k, s), c)
    decreases |s|
  {
    if s == [] {
      assert s + [c] == [c];
      assert FeedAll(Feed(k, c), []) == Feed(k, c);
    } else {
      assert (s + [c])[1..] == s[1..] + [c];
      FeedAllSnoc(Feed(k, s[0]), s[1..], c);
    }
  }

  ghost predicate Listening(d: Dec)
  {
    DecInv(d) && d.mode.Transparent? && !d.escaped
  }

  lemma EscapedChar(d: Dec, c: byte)
    requires Listening(d)
    ensures var bs := if c == d.esc then [c, CC_EID] else [c];
            Decode(d, bs) == Ok(d.(k := Feed(d.k, c), esc := if c == d.esc then Bump(d.esc) else d.esc), [c])
  {
    if c == d.esc {
      var d1 := DecByte(d, c).d;
      assert Decode(d1, [CC_EID]) == DecByte(d1, CC_EID) by {
        assert [CC_EID][1..] == [];
        assert [c] + [] == [c];
      }
      assert [c, CC_EID][1..] == [CC_EID];
      assert [] + [c] == [c];
    } else {
      assert [c][1..] == [];
      assert [c] + [] == [c];
    }
  }

  /** The decoder recovers an escaped string, and moves its escape character as the encoder did. */
  lemma {:induction false} EscapedString(d: Dec, s: Str)
    requires Listening(d)
    ensures Decode(d, Escaped(s, d.esc)) == Ok(d.(k := FeedAll(d.k, s), esc := EscAfter(s, d.esc)), s)
    decreases |s|
  {
    if s != [] {
      var c := s[0];
      var bs := if c == d.esc then [c, CC_EID] else [c];
      var d1 := d.(k := Feed(d.k, c), esc := if c == d.esc then Bump(d.esc) else d.esc);
      EscapedChar(d, c);
      EscapedString(d1, s[1..]);
      DecodeThen(d, bs, Escaped(s[1..], d1.esc));
      assert [c] + s[1..] == s;
    }
  }

  // ----- compressed mode -----

  /** Nothing, or the end of one data or STEPUP codeword, is still in the packer. */
  ghost predicate Lagging(d: Dec, bits: seq<bool>)
  {
    && DecInv(d) && d.mode.Compressed?
    && (bits == [] ==> d.q == [])
    && (bits != [] ==> |bits| < 8 && |d.q| + |bits| == d.cwSize && Value(d.q + bits) >= CCW_STEPUP)
  }

  /** The decoder once the bits still in the packer have arrived. */
  ghost function CaughtUp(d: Dec, bits: seq<bool>): (r: DecResult)
    requires Lagging(d, bits)
    ensures r.Ok? ==> DecInv(r.d) && r.d.k.l == d.k.l
  {
    if bits == [] then Ok(d, []) else Codeword(d.(q := []), Value(d.q + bits))
  }

  /** Data and STEPUP codewords leave the bits that follow them alone. */
  lemma CodewordLeaves(d: Dec, cw: nat, q: seq<bool>)
    requires DecInv(d) && d.mode.Compressed? && d.q == [] && cw >= CCW_STEPUP && |q| < d.cwSize
    requires Codeword(d, cw).Ok?
    ensures var r := Codeword(d, cw);
            r.d.mode.Compressed? && r.d.q == [] && r.d.cwSize >= d.cwSize
            && Codeword(d.(q := q), cw) == Ok(r.d.(q := q), r.x)
  {}

  lemma OneByte(d: Dec, b: byte)
    requires DecInv(d)
    ensures Decode(d, [b]) == DecByte(d, b)
  {
    assert [b][1..] == [];
    var r := DecByte(d, b);
    if r.Ok? {
      assert r.x + [] == r.x;
    }
  }

  /** The first octet completes the codeword that lagged behind and starts the next one. */
  lemma FirstOctet(d: Dec, bits: seq<bool>, next: seq<bool>)
    requires Lagging(d, bits) && CaughtUp(d, bits).Ok? && |next| == 8 - |bits|
    ensures var u := CaughtUp(d, bits);
            DecInv(u.d.(q := next)) && DecByte(d, ByteOf(bits + next)) == Ok(u.d.(q := next), u.x)
  {
    ByteOfBits(bits + next);
    if bits == [] {
      assert bits + next == next;
      assert d.q + next == next;
    } else {
      var all := d.q + (bits + next);
      assert all[..d.cwSize] == d.q + bits;
      assert all[d.cwSize..] == next;
      CodewordLeaves(d.(q := []), Value(d.q + bits), next);
    }
  }

  /** The octets of a queue that starts with a whole octet. */
  lemma OctetsStep(p: seq<bool>)
    requires |p| >= 8
    ensures Octets(p) == [ByteOf(p[..8])] + Octets(p[8..]) && Rest(p) == Rest(p[8..])
  {
    hide Octets, ByteOf;
    var k := |p| - 8 - |p| % 8;
    assert (|p| - 8) % 8 == |p| % 8;
    assert p[8..][k..] == p[8 + k..];
    FirstOctetOf(p);
  }

  lemma FirstOctetOf(p: seq<bool>)
    requires |p| >= 8
    ensures Octets(p) == [ByteOf(p[..8])] + Octets(p[8..])
  {
    hide ByteOf;
  }

  /** The octet that completes a codeword, with what follows it in that octet. */
  lemma LastOctet(d: Dec, code: seq<bool>, j: nat, pad: seq<bool>)
    requires DecInv(d) && d.mode.Compressed? && d.q == [] && |code| == d.cwSize && j < |code|
    requires |code| - j + |pad| == 8
    ensures var u := d.(q := code[..j]);
            DecInv(d.(q := pad)) && DecByte(u, ByteOf(code[j..] + pad)) == Codeword(d.(q := pad), Value(code))
  {
    ByteOfBits(code[j..] + pad);
    var all := code[..j] + (code[j..] + pad);
    assert all[..d.cwSize] == code;
    assert all[d.cwSize..] == pad;
  }

  /** An octet that leaves the codeword incomplete. */
  lemma MiddleOctet(d: Dec, code: seq<bool>, j: nat)
    requires DecInv(d) && d.mode.Compressed? && d.q == [] && |code| == d.cwSize && j + 8 < |code|
    ensures var u := d.(q := code[..j]);
            Decode(u, [ByteOf(code[j..j + 8])]) == Ok(d.(q := code[..j + 8]), [])
  {
    var u := d.(q := code[..j]);
    ByteOfBits(code[j..j + 8]);
    assert code[..j] + code[j..j + 8] == code[..j + 8];
    OneByte(u, ByteOf(code[j..j + 8]));
  }

  /** Octets `out` and then the bits `bits` bring a decoder from `u` to the result `goal`. */
  ghost predicate Arrives(u: Dec, out: Str, bits: seq<bool>, goal: DecResult)
    requires DecInv(u)
  {
    var r := Decode(u, out);
    && goal.Ok? && r.Ok? && Lagging(r.d, bits)
    && CaughtUp(r.d, bits).Ok? && CaughtUp(r.d, bits).d == goal.d
    && r.x + CaughtUp(r.d, bits).x == goal.x
  }

  lemma ArrivesAfter(u: Dec, first: Str, mid: DecResult, out: Str, bits: seq<bool>, goal: DecResult)
    requires DecInv(u) && Decode(u, first) == mid && mid.Ok?
    requires Arrives(mid.d, out, bits, goal)
    ensures Arrives(u, first + out, bits, Ok(goal.d, mid.x + goal.x))
  {
    hide Decode, DecByte, Codeword, MatcherInv;
    var r := Decode(mid.d, out);
    DecodeThen(u, first, out);
    assert mid.x + (r.x + CaughtUp(r.d, bits).x) == (mid.x + r.x) + CaughtUp(r.d, bits).x;
  }

  lemma ArrivesNow(u: Dec, bits: seq<bool>)
    requires Lagging(u, bits) && CaughtUp(u, bits).Ok?
    ensures Arrives(u, [], bits, CaughtUp(u, bits))
  {
    hide DecByte, Codeword, MatcherInv;
    assert [] + CaughtUp(u, bits).x == CaughtUp(u, bits).x;
  }

  /** The rest of a codeword of which the first `j` bits are in the buffer. */
  lemma {:induction false} RestOfCode(d: Dec, code: seq<bool>, j: nat)
    requires DecInv(d) && d.mode.Compressed? && d.q == [] && |code| == d.cwSize && 0 < j < |code|
    requires Value(code) >= CCW_STEPUP && Codeword(d, Value(code)).Ok?
    ensures Arrives(d.(q := code[..j]), Octets(code[j..]), Rest(code[j..]), Codeword(d, Value(code)))
    decreases |code| - j
  {
    hide Decode, DecByte, Codeword, MatcherInv, Arrives, Octets, Value;
    var u := d.(q := code[..j]);
    var r := code[j..];
    var goal := Codeword(d, Value(code));
    if |r| < 8 {
      assert Rest(r) == r;
      assert code[..j] + r == code;
      assert u.(q := []) == d;
      ArrivesNow(u, r);
    } else {
      OctetsStep(r);
      assert r[..8] == code[j..j + 8];
      assert r[8..] == code[j + 8..];
      if j + 8 < |code| {
        MiddleOctet(d, code, j);
        RestOfCode(d, code, j + 8);
        ArrivesAfter(u, [ByteOf(r[..8])], Ok(d.(q := code[..j + 8]), []), Octets(r[8..]), Rest(r), goal);
        assert [] + goal.x == goal.x;
      } else {
        LastOctet(d, code, j, []);
        assert r + [] == r[..8];
        assert d.(q := []) == d;
        OneByte(u, ByteOf(r[..8]));
        CodewordLeaves(d, Value(code), []);
        ArrivesNow(goal.d, []);
        ArrivesAfter(u, [ByteOf(r[..8])], goal, [], [], Ok(goal.d, []));
        assert goal.x + [] == goal.x;
      }
    }
  }

  /** A data or STEPUP codeword sent by the packer takes effect at the decoder. */
  lemma CodeArrives(d: Dec, p: Packer, cw: nat)
    requires Lagging(d, p.bits) && CaughtUp(d, p.bits).Ok? && PackerInv(p)
    requires var u := CaughtUp(d, p.bits).d;
             && u.mode.Compressed? && u.q == [] && u.cwSize == p.cwSize
             && CCW_STEPUP <= cw < p.threshold && Codeword(u, cw).Ok?
    ensures var u := CaughtUp(d, p.bits);
            var (p1, out) := PutCode(p, cw);
            Arrives(d, out, p1.bits, Ok(Codeword(u.d, cw).d, u.x + Codeword(u.d, cw).x))
  {
    hide DecByte, Codeword;
    var u := CaughtUp(d, p.bits);
    var code := BitsOf(cw, p.cwSize);
    ValueBits(cw, p.cwSize);
    var all := p.bits + code;
    var j := 8 - |p.bits|;
    OctetsStep(all);
    assert all[..8] == p.bits + code[..j];
    assert all[8..] == code[j..];
    FirstOctet(d, p.bits, code[..j]);
    OneByte(d, ByteOf(all[..8]));
    RestOfCode(u.d, code, j);
    ArrivesAfter(d, [ByteOf(all[..8])], Ok(u.d.(q := code[..j]), u.x), Octets(code[j..]), Rest(code[j..]),
      Codeword(u.d, cw));
  }

  /** ETM and FLUSH drop the padding. */
  lemma CodewordDrops(d: Dec, cw: nat, pad: seq<bool>)
    requires DecInv(d) && d.mode.Compressed? && d.q == [] && cw < CCW_STEPUP && |pad| < 8 && AllZero(pad)
    ensures Codeword(d.(q := pad), cw) == Codeword(d, cw) && Codeword(d, cw).Ok? && Codeword(d, cw).x == []
  {}

  /** The rest of an aligned ETM or FLUSH of which the first `j` bits are in the buffer. */
  lemma {:induction false} RestOfAligned(d: Dec, code: seq<bool>, j: nat, pad: seq<bool>)
    requires DecInv(d) && d.mode.Compressed? && d.q == [] && |code| == d.cwSize && j < |code|
    requires Value(code) < CCW_STEPUP
    requires |pad| < 8 && AllZero(pad) && (|code| - j + |pad|) % 8 == 0
    ensures Decode(d.(q := code[..j]), Octets(code[j..] + pad)) == Codeword(d, Value(code))
    decreases |code| - j
  {
    hide Decode, DecByte, Codeword, MatcherInv, Octets, Value;
    var u := d.(q := code[..j]);
    var r := code[j..] + pad;
    CodewordDrops(d, Value(code), pad);
    OctetsStep(r);
    if j + 8 < |code| {
      assert r[..8] == code[j..j + 8];
      assert r[8..] == code[j + 8..] + pad;
      MiddleOctet(d, code, j);
      RestOfAligned(d, code, j + 8, pad);
      DecodeThen(u, [ByteOf(r[..8])], Octets(r[8..]));
    } else {
      assert r[..8] == r;
      LastOctet(d, code, j, pad);
      OneByte(u, ByteOf(r));
      OctetsNone(r[8..]);
      assert Octets(r) == [ByteOf(r)];
    }
  }

  lemma OctetsNone(p: seq<bool>)
    requires p == []
    ensures Octets(p) == []
  {}

  /** An aligned ETM or FLUSH takes effect at the decoder, and leaves nothing in the packer. */
  lemma AlignedArrives(d: Dec, p: Packer, cw: nat)
    requires Lagging(d, p.bits) && CaughtUp(d, p.bits).Ok? && PackerInv(p) && cw < CCW_STEPUP
    requires var u := CaughtUp(d, p.bits).d;
             u.mode.Compressed? && u.q == [] && u.cwSize == p.cwSize
    ensures var u := CaughtUp(d, p.bits);
            Codeword(u.d, cw).Ok? && Decode(d, PutAligned(p, cw).1) == Ok(Codeword(u.d, cw).d, u.x)
  {
    hide Decode, DecByte, Codeword, MatcherInv, Octets;
    var u := CaughtUp(d, p.bits);
    var code := BitsOf(cw, p.cwSize);
    ValueSmall(cw, p.cwSize);
    var pad := Padding(|p.bits| + |code|);
    var all := p.bits + (code + pad);
    var j := 8 - |p.bits|;
    OctetsStep(all);
    assert all[..8] == p.bits + code[..j];
    assert all[8..] == code[j..] + pad;
    FirstOctet(d, p.bits, code[..j]);
    OneByte(d, ByteOf(all[..8]));
    RestOfAligned(u.d, code, j, pad);
    CodewordDrops(u.d, cw, pad);
    DecodeThen(d, [ByteOf(all[..8])], Octets(all[8..]));
    assert u.x + [] == u.x;
  }

  lemma ValueSmall(cw: nat, n: nat)
    requires cw < CCW_STEPUP && 9 <= n
    ensures Value(BitsOf(cw, n)) == cw
  {
    assert Pow2(n) == 4 * Pow2(n - 2);
    ValueBits(cw, n);
  }

  /** The decoder can be brought up to date by what the packer still holds. */
  ghost predicate InStep(d: Dec, p: Packer)
  {
    && PackerInv(p) && Lagging(d, p.bits) && CaughtUp(d, p.bits).Ok?
    && var u := CaughtUp(d, p.bits).d;
       u.mode.Compressed? && u.q == [] && u.cwSize == p.cwSize && u.threshold == p.threshold
  }

  lemma StepUpFits(d: Dec)
    requires DecInv(d) && d.mode.Compressed? && d.cwSize < 15
    ensures Codeword(d, CCW_STEPUP) == Ok(d.(cwSize := d.cwSize + 1, threshold := 2 * d.threshold), [])
  {}

  /** A STEPUP widens the codewords on both sides and changes nothing else. */
  lemma StepUpArrives(d: Dec, p: Packer)
    requires InStep(d, p) && p.cwSize < 15
    ensures var u := CaughtUp(d, p.bits);
            var (p1, out) := StepUp(p);
            var r := Decode(d, out);
            && r.Ok? && InStep(r.d, p1)
            && CaughtUp(r.d, p1.bits).d == u.d.(cwSize := p1.cwSize, threshold := p1.threshold)
            && r.x + CaughtUp(r.d, p1.bits).x == u.x
  {
    hide Decode, DecByte, Receive, MatcherInv, Octets, CaughtUp;
    var u := CaughtUp(d, p.bits);
    Pow2Small();
    Pow2Grows(9, p.cwSize);
    StepUpFits(u.d);
    CodeArrives(d, p, CCW_STEPUP);
    assert u.x + [] == u.x;
  }

  /** A data codeword with the STEPUPs before it takes effect at the decoder. */
  lemma {:induction false} DataArrives(d: Dec, p: Packer, cw: nat)
    requires InStep(d, p) && CCW_STEPUP < cw < 32768
    requires Receive(CaughtUp(d, p.bits).d, cw).Ok?
    ensures var u := CaughtUp(d, p.bits);
            var (p1, out) := PutData(p, cw);
            var goal := Receive(u.d, cw);
            Arrives(d, out, p1.bits, Ok(goal.d.(cwSize := p1.cwSize, threshold := p1.threshold), u.x + goal.x))
    decreases cw - p.threshold
  {
    hide Decode, DecByte, Receive, MatcherInv, Octets, Arrives, CaughtUp;
    var u := CaughtUp(d, p.bits);
    Pow2Small();
    if cw < p.threshold {
      CodeArrives(d, p, cw);
      ReceiveKeepsWidth(u.d, cw);
    } else {
      Pow2Room(p.cwSize);
      var (p1, out1) := StepUp(p);
      StepUpArrives(d, p);
      var r := Decode(d, out1);
      var u1 := CaughtUp(r.d, p1.bits);
      ReceiveOtherWidth(u.d, cw, p1.cwSize, p1.threshold);
      DataArrives(r.d, p1, cw);
      var (p2, out2) := PutData(p1, cw);
      var goal := Receive(u1.d, cw);
      ArrivesAfter(d, out1, r, out2, p2.bits,
        Ok(goal.d.(cwSize := p2.cwSize, threshold := p2.threshold), u1.x + goal.x));
      assert r.x + (u1.x + goal.x) == (r.x + u1.x) + goal.x;
    }
  }

  lemma ReceiveKeepsWidth(d: Dec, cw: nat)
    requires DecInv(d) && d.mode.Compressed? && Receive(d, cw).Ok?
    ensures var r := Receive(d, cw).d;
            r.cwSize == d.cwSize && r.threshold == d.threshold && r.q == d.q && r.mode == d.mode
  {}

  lemma ReceiveOtherWidth(d: Dec, cw: nat, size: nat, threshold: nat)
    requires DecInv(d) && d.mode.Compressed? && Receive(d, cw).Ok? && d.cwSize <= size <= 15 && threshold == Pow2(size)
    ensures var r := Receive(d, cw);
            var d1 := d.(cwSize := size, threshold := threshold);
            Receive(d1, cw) == Ok(r.d.(cwSize := size, threshold := threshold), r.x)
  {}

  lemma {:induction false} Pow2Room(n: nat)
    requires 9 <= n && Pow2(n) < 32768
    ensures n < 15
  {
    Pow2Small();
    Pow2Grows(15, n);
  }

}
