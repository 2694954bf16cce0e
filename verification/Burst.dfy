/** How much one call of the encoder can emit. */
module Burst {
  import opened Words
  import opened Bits
  import opened Codec

  lemma {:induction false} EscapedBound(s: Str, esc: byte)
    ensures |Escaped(s, esc)| <= 2 * |s|
  {
    if s != [] {
      EscapedBound(s[1..], if s[0] == esc then Bump(esc) else esc);
    }
  }

  /** Widths of 9 to 15 bits: at most six STEPUPs and the codeword, two octets each. */
  lemma {:induction false} DataBound(p: Packer, cw: nat)
    requires PackerInv(p) && cw < 32768
    ensures |PutData(p, cw).1| <= 2 * (16 - p.cwSize) <= 14
    decreases cw - p.threshold
  {
    hide BitsOf, Octets, Rest;
    Pow2Small();
    if cw >= p.threshold {
      DataBound(StepUp(p).0, cw);
    }
  }

  lemma AlignedBound(p: Packer, cw: nat)
    requires PackerInv(p)
    ensures |PutAligned(p, cw).1| <= 3
  {
    hide BitsOf, Octets, Rest, Padding, Pow2;
  }

  lemma SendBound(e: Enc, cw: nat, n: nat)
    requires PackerInv(e.p) && cw < 32768 && |e.str| <= n
    ensures |Send(e, cw).1| <= 2 * n + 14 && (n >= 6 ==> |Send(e, cw).1| <= 2 * n + 2)
    ensures e.mode.Transparent? ==> |Send(e, cw).1| <= 2 * n
    ensures e.mode.Compressed? ==> |Send(e, cw).1| <= 14
  {
    hide PutData, Escaped, Pow2;
    EscapedBound(e.str, e.esc);
    DataBound(e.p, cw);
  }

  /** Room in the string that is being collected. */
  lemma StrBound(e: Enc)
    requires EncInv(e)
    ensures |e.str| < e.k.l.maxStr && 6 <= e.k.l.maxStr && (e.k.lastMatched == 0 ==> e.str == []) && PackerInv(e.p)
            && MatcherInv(e.k)
    ensures e.k.lastMatched < 32768 && (e.k.lastMatched == 0 || Has(e.k.w, e.k.lastMatched))
  {}

  /** A string that ends is sent; from the root no string ends. */
  lemma StepBound(e: Enc, c: byte)
    requires EncInv(e)
    ensures var o := Step(e, c);
            && |o.out| <= 2 * e.k.l.maxStr + 2 && (!o.ended ==> o.out == [])
            && (e.k.lastMatched == 0 ==> o.out == [] && |o.e.str| == 1)
  {
    hide Send, EncInv, Valid, Resolve, Cut, Push;
    StrBound(e);
    var k := Resolve(e.k, c);
    RootGoesOn(k, c);
    StepMatch(k, c);
    var cw := Match(k.w, k.lastMatched, c);
    if Ends(k, c) {
      SendBound(e.(k := k), k.lastMatched, e.k.l.maxStr);
    } else {
      SendBound(e.(k := Push(k, c), str := e.str + [c]), cw, e.k.l.maxStr);
    }
  }

  lemma StepMatch(k: Matcher, c: byte)
    requires MatcherInv(k)
    ensures k.lastMatched < 32768 && Match(k.w, k.lastMatched, c) < 32768
  {
    MatchSpec(k.w, k.l, k.lastMatched, c);
  }

  lemma SwitchBound(e: Enc)
    requires EncInv(e)
    ensures |Switch(e).1| <= (if e.k.lastMatched == 0 then 3 else if |e.str| <= 1 then 17 else 2 * e.k.l.maxStr + 5)
  {
    hide Send, EncInv, Valid, PutAligned, PackerInv, MatcherInv;
    StrBound(e);
    if e.k.lastMatched != 0 {
      SendBound(e, e.k.lastMatched, |e.str|);
    }
    AlignedBound(SendPending(e).0.p, CCW_ETM);
  }

  lemma RoundBound(e: Enc, s: Str, choices: seq<bool>)
    requires EncInv(e) && |s| == 1
    ensures var t := Round(e, s, choices);
            |t.out| <= (if e.k.lastMatched == 0 then 17 else 2 * e.k.l.maxStr + 5)
  {
    hide Step, Switch, EncInv;
    StrBound(e);
    StepBound(e, s[0]);
    SwitchBound(Step(e, s[0]).e);
  }

  /** The most that encoding one character, or flushing, can emit. */
  function Most(l: Limits): nat
  {
    2 * l.maxStr + 22
  }

  /** Encoding one character takes at most two turns, the second of them from the root. */
  lemma EncodeBound(e: Enc, c: byte, choices: seq<bool>)
    requires EncInv(e)
    ensures |Encode(e, [c], choices).1| <= Most(e.k.l)
  {
    hide Round, EncInv;
    StrBound(e);
    RoundBound(e, [c], choices);
    var t := Round(e, [c], choices);
    var r := Encode(t.e, t.rest, t.choices);
    if t.rest == [] {
      assert r.1 == [];
    } else {
      RoundBound(t.e, [c], t.choices);
      var t2 := Round(t.e, [c], t.choices);
      assert t2.rest == [];
      assert Encode(t2.e, t2.rest, t2.choices).1 == [];
    }
  }

  lemma FlushBound(e: Enc)
    requires EncInv(e)
    ensures |FlushEnc(e).1| <= Most(e.k.l)
  {
    hide Send, EncInv, Valid, PutAligned, PackerInv, MatcherInv;
    StrBound(e);
    if e.k.lastMatched != 0 {
      SendBound(e, e.k.lastMatched, |e.str|);
    }
    AlignedBound(SendPending(e).0.p, CCW_FLUSH);
  }
}
