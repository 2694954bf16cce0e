/** Octets of the V.42bis encoder for inputs that can be followed by hand. */
module Vectors {
  import opened Words
  import opened Bits
  import opened Codec
  import opened Lossless
  import opened Histories
  import opened Learning

  /** The escape character is 0, then 51, then 102, each time that it is sent. */
  lemma EscapedOctets()
    ensures Escaped([0, 51, 102, 0], 0) == [0, 1, 51, 1, 102, 1, 0]
  {
    var s: Str := [0, 51, 102, 0];
    assert s[1..][1..] == [102, 0] && s[1..][1..][1..] == [0] && s[1..][1..][1..][1..] == [];
    assert Escaped([0], 153) == [0];
    assert Escaped([102, 0], 102) == [102, 1, 0];
    assert Escaped([51, 102, 0], 51) == [51, 1, 102, 1, 0];
  }

  /** One octet off the front of a bit queue. */
  lemma OctetOff(v: nat, low: byte, high: nat, n: nat)
    requires v == low + high * 256
    ensures Octets(BitsOf(v, 8 + n)) == [low] + Octets(BitsOf(high, n))
    ensures Rest(BitsOf(v, 8 + n)) == Rest(BitsOf(high, n))
  {
    hide BitsOf, Value, Pow2;
    Pow2Eight();
    SplitValue(v, low, high, 8, n);
    ValueBits(low, 8);
    var b, rest := BitsOf(low, 8), BitsOf(high, n);
    assert (b + rest)[..8] == b && (b + rest)[8..] == rest;
    assert (8 + n) % 8 == n % 8;
  }

  lemma FewBits(b: seq<bool>)
    requires |b| < 8
    ensures Octets(b) == [] && Rest(b) == b
  {}

  lemma Put(p: Packer, b: seq<bool>, q: seq<bool>)
    requires q == p.bits + b
    ensures PutBits(p, b) == (p.(bits := Rest(q)), Octets(q))
  {}

  /** The first codeword is nine bits wide, lowest bit first. */
  lemma FirstCode(cw: nat)
    requires cw < 512
    ensures PutCode(START, cw) == (Packer(9, 512, BitsOf(cw / 256, 1)), [cw % 256])
  {
    hide BitsOf, Octets, Rest, PutBits;
    var q := BitsOf(cw, 9);
    assert START.bits + q == q;
    Put(START, q, q);
    OctetOff(cw, cw % 256, cw / 256, 1);
    FewBits(BitsOf(cw / 256, 1));
    assert [cw % 256] + [] == [cw % 256];
  }

  /** STEPUP is codeword 2. */
  lemma StepUpOctet()
    ensures StepUp(START) == (Packer(10, 1024, BitsOf(0, 1)), [2])
  {
    FirstCode(2);
  }

  lemma AlignedBits(cw: nat)
    requires cw <= 1
    ensures BitsOf(0, 1) + (BitsOf(cw, 9) + Padding(10)) == BitsOf(2 * cw, 16)
  {
    hide BitsOf, Pow2;
    SmallPowers();
    BitsPad(cw, 9, 6);
    BitsAppend(0, 1, cw, 15);
    assert Padding(10) == Zeros(6);
  }

  lemma SmallPowers()
    ensures Pow2(1) == 2 && Pow2(9) == 512
  {
    Pow2Small();
  }

  /** ETM is codeword 0 and FLUSH codeword 1, filled up with zeros: here behind one bit that is 0. */
  lemma AlignedOctets(cw: nat)
    requires cw == CCW_ETM || cw == CCW_FLUSH
    ensures PutAligned(Packer(9, 512, BitsOf(0, 1)), cw) == (START, [if cw == CCW_ETM then 0 else 2, 0])
  {
    hide BitsOf, Octets, Rest, PutBits, Padding;
    var p := Packer(9, 512, BitsOf(0, 1));
    var b := BitsOf(cw, 9) + Padding(10);
    AlignedBits(cw);
    Put(p, b, BitsOf(2 * cw, 16));
    OctetOff(2 * cw, 2 * cw, 0, 8);
    OctetOff(0, 0, 0, 0);
    FewBits(BitsOf(0, 0));
    assert [0] + [] == [0] && [2 * cw] + [0] == [2 * cw, 0];
  }

  /** In transparent mode the first character, and then the change to compressed mode. */
  lemma FirstCharacter(l: Limits)
    requires l.Valid()
    ensures var (e, out) := Encode(EncInit(l), [97], [true]);
            && out == [97, 0, 0] && e.mode.Compressed? && e.p == START && e.esc == 0 && e.str == []
            && e.k == Matcher(l, EMPTY, 100, 0, 0)
  {
    hide PutData, PutAligned;
    EmptyValid(l);
    var e := EncInit(l);
    var o := Step(e, 97);
    assert o.e.k == Matcher(l, EMPTY, 0, 100, 0) && o.e.str == [97] && o.taken && !o.ended && o.out == [];
    assert [97][1..] == [];
    assert Escaped([97], 0) == [97] by {
      assert Escaped([97][1..], 0) == [];
    }
    var t := Round(e, [97], [true]);
    assert SendPending(o.e).1 == [97];
    assert t.out == [97, 0, 0];
    assert t.rest == [] && t.choices == [];
    assert Encode(t.e, [], []) == (t.e, []);
    assert t.out + [] == t.out;
  }

  /** In compressed mode the second: the string of both is learned, at entry 259. */
  lemma SecondCharacter(e: Enc, l: Limits)
    requires EncInv(e) && e == Enc(Matcher(l, EMPTY, 100, 0, 0), Compressed, 0, [], START)
    ensures var (e1, out) := Encode(e, [97], []);
            && out == [] && e1.mode.Compressed? && e1.p == START && e1.str == [97]
            && e1.k.lastMatched == 100 && e1.k.updateAt == 0 && e1.k.lastAdded == 259
            && [97, 97] in e1.k.w.codes && e1.k.w.codes[[97, 97]] == 259
  {
    hide PutData, PutAligned, Learned, MatcherInv, Resolve;
    var s: Str := [97];
    EncMatcher(e);
    assert StrOf(e.k.w, 100) + [97] == [97, 97];
    var o := FirstTaken(e, s);
    assert s[1..] == [];
    LearnedMeans(EMPTY, o.e.k.w);
    SingleMatch(o.e.k, 97);
    var t := Round(e, s, []);
    assert t == Turn(o.e, [], [], []);
    assert Encode(t.e, [], []) == (t.e, []);
  }

  lemma LearnedMeans(w: Words, w1: Words)
    requires w == EMPTY && Has(w, 100) && Learned(w, 100, 97, w1)
    ensures [97, 97] in w1.codes && w1.codes[[97, 97]] == 259
  {
    assert StrOf(w, 100) + [97] == [97, 97];
  }

  lemma SingleMatch(k: Matcher, c: byte)
    requires MatcherInv(k) && Matched(k) == [c]
    ensures k.lastMatched == c + FIRST_ENTRY
  {}

  /** And then a flush: the codeword of the second character, and FLUSH. */
  lemma ThenFlush(e: Enc)
    requires EncInv(e) && e.mode.Compressed? && e.p == START && e.str == [97]
    requires e.k.lastMatched == 100 && e.k.updateAt == 0
    ensures FlushEnc(e).1 == [100, 2, 0]
  {
    hide PutAligned, MatcherInv, PutCode;
    FirstCode(100);
    AlignedOctets(CCW_FLUSH);
    assert PutData(START, 100) == PutCode(START, 100);
    assert [100] + [2, 0] == [100, 2, 0];
  }

  /** Two characters with a change of mode between them and a flush behind them. */
  lemma TwoCharacters(l: Limits)
    requires l.Valid()
    ensures Run(EncInit(l), [Data([97], [true]), Data([97], []), Flush]).1 == [97, 0, 0, 100, 2, 0]
  {
    hide Encode, FlushEnc, EncInv, EncInit;
    FirstCharacter(l);
    var e0 := EncInit(l);
    var (e1, out1) := Encode(e0, [97], [true]);
    assert EncInv(e1);
    SecondCharacter(e1, l);
    var (e2, out2) := Encode(e1, [97], []);
    ThenFlush(e2);
    var (e3, out3) := FlushEnc(e2);
    var a, b: Call := Data([97], [true]), Data([97], []);
    assert [a, b, Flush][1..] == [b, Flush] && [b, Flush][1..] == [Flush];
    var last: seq<Call> := [Flush];
    assert last[1..] == [] && Run(e3, []) == (e3, []);
    assert Run(e2, last) == (e3, out3 + []);
    assert out3 + [] == out3 && [] + out3 == out3;
    assert Run(e1, [b, Flush]) == (e3, out2 + out3);
    assert [97, 0, 0] + [100, 2, 0] == [97, 0, 0, 100, 2, 0];
  }

  // ----- what the decoder makes of control codes -----

  /** After the escape character: 0 enters compressed mode, 1 stands for the escape character, 2 starts afresh. */
  lemma EscapeCommands(d: Dec, b: byte)
    requires DecInv(d) && d.mode.Transparent? && d.escaped
    ensures var r := DecByte(d, b);
            && (b == 0 ==> r.Ok? && r.x == [] && r.d.mode.Compressed? && r.d.k.updateAt == d.k.lastMatched
                           && r.d.k.w == d.k.w)
            && (b == 1 ==> r.Ok? && r.x == [d.esc] && r.d.mode.Transparent? && r.d.esc == (d.esc + 51) % 256)
            && (b == 2 ==> r.Ok? && r.x == [] && r.d == DecInit(d.k.l))
            && (b > 2 ==> r.CError?)
  {
    hide Feed, MatcherInv;
  }

  /** The decoder's own errors: a width that the dictionary cannot need, and the two slots that are free. */
  lemma DecoderRejects(d: Dec, cw: nat)
    requires DecInv(d) && d.mode.Compressed?
    ensures Codeword(d, cw) == CError <==>
            || (cw == 2 && d.cwSize + 1 > d.k.l.size / 8)
            || (cw > 2 && (cw == d.k.w.nextFree || FreedBy(d.k, cw)))
  {
    hide MatcherInv, Resolve;
    if cw > 2 && Has(d.k.w, cw) {
      StrBounds(d.k, cw);
      var c := StrOf(d.k.w, cw)[0];
      ResolveLearns(d.k, c);
      FreedMeans(d.k, c, cw);
    }
  }

  /** Learning from the string of `cw` frees the slot of that very string. */
  ghost predicate FreedBy(k: Matcher, cw: nat)
    requires MatcherInv(k)
  {
    && Has(k.w, cw) && k.updateAt != 0 && StrOf(k.w, cw) != []
    && CanAdd(k.w, k.l, k.updateAt, StrOf(k.w, cw)[0])
    && cw == Add(k.w, k.l, k.updateAt, StrOf(k.w, cw)[0]).nextFree
  }

  lemma FreedMeans(k: Matcher, c: byte, cw: nat)
    requires MatcherInv(k) && Has(k.w, cw) && StrOf(k.w, cw) != [] && c == StrOf(k.w, cw)[0]
    ensures Resolve(k, c).w != k.w && cw == Resolve(k, c).w.nextFree <==> FreedBy(k, cw)
  {
    if k.updateAt != 0 && Match(k.w, k.updateAt, c) == 0 {
      CanAddPending(k, c);
      AddSpec(k.w, k.l, k.updateAt, c);
    }
  }
}
