/**
 The compressor object: its fields, and the loops that update them.  Each method is proved to do
 to the fields what the corresponding function of Codec.dfy does to the values they stand for.
 */
module Compressor {
  import opened Words
  import opened Bits
  import opened Codec
  import D = Dictionary
  import R = Links

  const MAX_STRING := 34
  const TEST_SLICE := 256

  class Compressor {
    const dict: D.Dictionary
    var mode: Mode
    var escape: bool
    var updateAt: nat
    var lastMatched: nat
    var lastAdded: nat
    var cwSize: nat
    var threshold: nat
    var escapeChar: byte
    var bitLen: nat
    var bitData: nat
    var flushedLen: nat
    var strLen: nat
    const strData: array<byte>
    var cmpLast: nat
    var obuf: Str

    /** The fields are well formed. */
    ghost predicate Shape()
      reads this, dict, dict.dict, strData
    {
      && dict.Inv() && dict.l.maxStr <= MAX_STRING == strData.Length
      && strLen <= MAX_STRING && bitData < Pow2(bitLen)
    }

    /** The matcher that the fields stand for. */
    ghost function K(): Matcher
      reads this, dict
    {
      Matcher(dict.l, dict.w, updateAt, lastMatched, lastAdded)
    }

    ghost function P(): Packer
      reads this
    {
      Packer(cwSize, threshold, BitsOf(bitData, bitLen))
    }

    ghost function Str(): Str
      reads this, strData
      requires strLen <= strData.Length
    {
      strData[..strLen]
    }

    /** The encoder that the fields stand for. */
    ghost function E(): Enc
      reads this, dict, strData
      requires strLen <= strData.Length
    {
      Enc(K(), mode, escapeChar, Str(), P())
    }

    ghost predicate EncOk()
      reads this, dict, dict.dict, strData
    {
      Shape() && EncInv(E()) && strLen + flushedLen == |Matched(K())|
    }

    /** A fresh encoder or decoder. */
    constructor (l: Limits)
      requires l.Valid() && l.maxStr <= MAX_STRING
      ensures EncOk() && E() == EncInit(l) && obuf == []
      ensures fresh(dict) && fresh(dict.dict) && fresh(strData) && !escape && flushedLen == 0
    {
      hide Valid, Has, StrOf, R.Rep, EncInv, MatcherInv, Pow2, BitsOf, EncInit;
      FreshEncoder(l);
      dict := new D.Dictionary(l);
      strData := new byte[MAX_STRING](i => 0);
      mode, escape, updateAt, lastMatched, lastAdded := Transparent, false, 0, 0, 0;
      cwSize, threshold, escapeChar, bitLen, bitData := 9, 512, 0, 0, 0;
      flushedLen, strLen, cmpLast, obuf := 0, 0, TEST_SLICE * 8, [];
      new;
      assert Str() == [];
    }

    // ----- bits -----

    /** Put a codeword above the bits collected so far. */
    method SendCw(cw: nat)
      requires bitData < Pow2(bitLen) && bitLen < 8 && cwSize <= 15 && cw < Pow2(cwSize)
      modifies `bitData, `bitLen
      ensures bitData < Pow2(bitLen) && bitLen == old(bitLen) + cwSize <= 32
      ensures BitsOf(bitData, bitLen) == old(BitsOf(bitData, bitLen)) + BitsOf(cw, cwSize)
    {
      hide BitsOf, Pow2, R.Rep;
      var v := bitData + cw * Pow2(bitLen);
      PushCode(bitData, bitLen, cw, cwSize, v);
      bitData := v;
      bitLen := bitLen + cwSize;
    }

    /** Zeros up to the next octet boundary. */
    method AlignBits()
      requires bitData < Pow2(bitLen)
      modifies `bitLen
      ensures bitData < Pow2(bitLen) && bitLen % 8 == 0
      ensures BitsOf(bitData, bitLen) == old(BitsOf(bitData, bitLen)) + Padding(old(bitLen))
    {
      if bitLen % 8 != 0 {
        BitsPad(bitData, bitLen, 8 - bitLen % 8);
        WiderBound(bitData, bitLen, 8 - bitLen % 8);
        bitLen := bitLen + 8 - bitLen % 8;
      } else {
        assert Padding(bitLen) == [];
      }
    }

    /** Emit the whole octets collected. */
    method SendBits()
      requires bitData < Pow2(bitLen)
      modifies `bitData, `bitLen, `obuf
      ensures bitData < Pow2(bitLen) && bitLen < 8
      ensures BitsOf(bitData, bitLen) == Rest(old(BitsOf(bitData, bitLen)))
      ensures obuf == old(obuf) + Octets(old(BitsOf(bitData, bitLen)))
    {
      hide BitsOf, Pow2, Octets, Rest;
      ghost var bits := BitsOf(bitData, bitLen);
      while bitLen >= 8
        invariant bitData < Pow2(bitLen)
        invariant old(obuf) + Octets(bits) == obuf + Octets(BitsOf(bitData, bitLen))
        invariant Rest(bits) == Rest(BitsOf(bitData, bitLen))
        decreases bitLen
      {
        TakeOctet(bitData, bitLen);
        ghost var more := Octets(BitsOf(bitData / 256, bitLen - 8));
        assert obuf + ([bitData % 256] + more) == (obuf + [bitData % 256]) + more;
        obuf := obuf + [bitData % 256];
        bitData := bitData / 256;
        bitLen := bitLen - 8;
      }
      FewBits(BitsOf(bitData, bitLen));
    }

    /** A codeword, as far as it fills octets. */
    method PutCodeword(cw: nat)
      requires PackerInv(P()) && bitData < Pow2(bitLen) && cw < Pow2(cwSize)
      modifies `bitData, `bitLen, `obuf
      ensures bitData < Pow2(bitLen)
      ensures P() == PutCode(old(P()), cw).0 && obuf == old(obuf) + PutCode(old(P()), cw).1
    {
      hide BitsOf, Pow2, Octets, Rest, R.Rep;
      SendCw(cw);
      SendBits();
    }

    /** A codeword and zeros up to an octet boundary. */
    method PutAlignedCodeword(cw: nat)
      requires PackerInv(P()) && bitData < Pow2(bitLen) && cw < Pow2(cwSize)
      modifies `bitData, `bitLen, `obuf
      ensures bitData < Pow2(bitLen)
      ensures P() == PutAligned(old(P()), cw).0 && obuf == old(obuf) + PutAligned(old(P()), cw).1
    {
      hide BitsOf, Pow2, Octets, Rest, R.Rep;
      ghost var b := BitsOf(bitData, bitLen);
      SendCw(cw);
      AlignBits();
      assert (b + BitsOf(cw, cwSize)) + Padding(|b| + cwSize) == b + (BitsOf(cw, cwSize) + Padding(|b| + cwSize));
      SendBits();
    }

    // ----- encoder -----

    /** The collected string as characters, with escapes. */
    method SendTransparent()
      requires strLen <= strData.Length
      modifies `obuf, `escapeChar
      ensures obuf == old(obuf) + Escaped(Str(), old(escapeChar)) && escapeChar == EscAfter(Str(), old(escapeChar))
    {
      ghost var s := Str();
      assert s[0..] == s;
      var i := 0;
      while i < strLen
        invariant i <= strLen
        invariant old(obuf) + Escaped(s, old(escapeChar)) == obuf + Escaped(s[i..], escapeChar)
        invariant EscAfter(s, old(escapeChar)) == EscAfter(s[i..], escapeChar)
      {
        assert s[i..][0] == strData[i] && s[i..][1..] == s[i + 1..];
        obuf := obuf + [strData[i]];
        if strData[i] == escapeChar {
          obuf := obuf + [CC_EID];
          escapeChar := (escapeChar + ESCAPE_STEP) % 256;
        }
        i := i + 1;
      }
      assert s[strLen..] == [];
    }

    /** Move the escape character past the collected string. */
    method CycleEscape()
      requires strLen <= strData.Length
      modifies `escapeChar
      ensures escapeChar == EscAfter(Str(), old(escapeChar))
    {
      ghost var s := Str();
      assert s[0..] == s;
      var i := 0;
      while i < strLen
        invariant i <= strLen && EscAfter(s, old(escapeChar)) == EscAfter(s[i..], escapeChar)
      {
        assert s[i..][0] == strData[i] && s[i..][1..] == s[i + 1..];
        if strData[i] == escapeChar {
          escapeChar := (escapeChar + ESCAPE_STEP) % 256;
        }
        i := i + 1;
      }
      assert s[strLen..] == [];
    }

    /** The codeword of the collected string, after the STEPUPs that its width needs. */
    method SendCodeword(cw: nat)
      requires PackerInv(P()) && bitData < Pow2(bitLen) && cw < 32768
      modifies `bitData, `bitLen, `obuf, `cwSize, `threshold
      ensures bitData < Pow2(bitLen)
      ensures P() == PutData(old(P()), cw).0 && obuf == old(obuf) + PutData(old(P()), cw).1
    {
      hide BitsOf, Pow2, Octets, Rest, PutCode, R.Rep;
      ghost var p0 := P();
      while cw >= threshold
        invariant PackerInv(P()) && bitData < Pow2(bitLen)
        invariant PutData(p0, cw).0 == PutData(P(), cw).0
        invariant old(obuf) + PutData(p0, cw).1 == obuf + PutData(P(), cw).1
        decreases cw - threshold
      {
        ghost var p, out := P(), obuf;
        StepUpRoom(p, cw);
        PutCodeword(CCW_STEPUP);
        threshold := 2 * threshold;
        cwSize := cwSize + 1;
        assert (out + StepUp(p).1) + PutData(P(), cw).1 == out + (StepUp(p).1 + PutData(P(), cw).1);
      }
      CodeFits(P(), cw);
      PutCodeword(cw);
    }

    /** The compression ratio over the last characters; unsigned and 16 bits wide. */
    method UpdateRatio()
      modifies `cmpLast
    {
      cmpLast := (cmpLast + cwSize - cmpLast * strLen / TEST_SLICE) % 65536;
    }

    /** Send the collected string. */
    method SendData(cw: nat)
      requires Shape() && PackerInv(P()) && cw < 32768
      modifies this
      ensures Shape() && PackerInv(P()) && flushedLen == 0 && escape == old(escape)
      ensures E() == Send(old(E()), cw).0 && obuf == old(obuf) + Send(old(E()), cw).1
    {
      hide BitsOf, Pow2, PutData, Escaped, EscAfter, R.Rep, PackerInv;
      UpdateRatio();
      ghost var e := E();
      PutDataInv(P(), cw);
      match mode {
        case Transparent => SendTransparent();
        case Compressed =>
          CycleEscape();
          SendCodeword(cw);
      }
      strLen := 0;
      flushedLen := 0;
      assert Str() == [];
    }

    /** Add the pending entry extended by `c`, unless it is there already. */
    method ResolveUpdate(c: byte)
      requires Shape() && MatcherInv(K())
      modifies `updateAt, `lastAdded, dict, dict.dict
      ensures Shape() && K() == Resolve(old(K()), c)
    {
      hide Valid, Match, StrOf, BitsOf, Pow2, R.Rep;
      UpdateReady(K(), c);
      if updateAt != 0 {
        var n := dict.MatchChar(updateAt, c);
        if n == 0 {
          lastAdded := dict.AddChar(updateAt, c);
        }
        updateAt := 0;
      }
    }

    /** Send the collected string and start a new one. */
    method EndString(cw: nat)
      requires Shape() && PackerInv(P()) && cw < 32768
      modifies this
      ensures Shape() && strLen + flushedLen == 0 && escape == old(escape)
      ensures E() == Send(old(E()), cw).0.(k := old(K()).(lastMatched := 0)) && obuf == old(obuf) + Send(old(E()), cw).1
    {
      hide PackerInv, Send, BitsOf, Pow2, R.Rep;
      SendData(cw);
      SendIgnoresMatcher(old(E()), old(K()), cw);
      lastMatched := 0;
    }

    /** Add one character to the collected string, which `cw` now stands for. */
    method Collect(c: byte, cw: nat)
      requires Shape() && strLen < MAX_STRING
      modifies `lastMatched, `strLen, strData
      ensures Shape() && strLen == old(strLen) + 1
      ensures E() == old(E()).(k := old(K()).(lastMatched := cw), str := old(Str()) + [c])
    {
      hide BitsOf, Pow2, R.Rep;
      lastMatched := cw;
      strData[strLen] := c;
      strLen := strLen + 1;
    }

    /** The string ends before `c`: `cw` is the entry that cannot be used. */
    method EndBefore(c: byte, cw: nat)
      requires EncOk() && updateAt == 0 && cw == Match(dict.w, lastMatched, c) && Ends(K(), c)
      modifies this
      ensures EncOk() && escape == old(escape)
      ensures old(obuf) <= obuf && Step(old(E()), c) == Offer(E(), obuf[|old(obuf)|..], false, true)
    {
      hide Valid, Match, StrOf, BitsOf, Send, Cut, PutData, EncInv, MatcherInv, PackerInv, Step, Pow2, Has, R.Rep;
      ghost var e := E();
      EncParts(e);
      OfferReady(e.k, c);
      StepUnfolds(e, c);
      EncParts(Step(e, c).e);
      if cw == 0 {
        updateAt := lastMatched;
      } else {
        lastAdded := 0;
      }
      SendIgnoresMatcher(e, K(), lastMatched);
      EndString(lastMatched);
    }

    /** The string goes on with `c`, as the entry `cw`. */
    method Take(c: byte, cw: nat) returns (ended: bool)
      requires EncOk() && updateAt == 0 && cw == Match(dict.w, lastMatched, c) && !Ends(K(), c)
      modifies this, strData
      ensures EncOk() && escape == old(escape)
      ensures old(obuf) <= obuf && Step(old(E()), c) == Offer(E(), obuf[|old(obuf)|..], true, ended)
    {
      hide Valid, Match, StrOf, BitsOf, Send, Push, PutData, EncInv, MatcherInv, PackerInv, Step, Pow2, Has, R.Rep;
      ghost var e := E();
      EncParts(e);
      OfferReady(e.k, c);
      StepUnfolds(e, c);
      EncParts(Step(e, c).e);
      PushMatches(e.k, c);
      Collect(c, cw);
      ended := strLen + flushedLen == dict.l.maxStr;
      if ended {
        SendIgnoresMatcher(e.(k := Push(e.k, c), str := e.str + [c]), K(), cw);
        EndString(cw);
      }
    }

    /** Offer one character to the string being collected. */
    method OfferChar(c: byte) returns (taken: bool, ended: bool)
      requires EncOk() && updateAt == 0
      modifies this, strData
      ensures EncOk() && escape == old(escape)
      ensures old(obuf) <= obuf && Step(old(E()), c) == Offer(E(), obuf[|old(obuf)|..], taken, ended)
    {
      hide Valid, Match, BitsOf, EncInv, PackerInv, Step, Pow2, R.Rep;
      EncParts(E());
      OfferReady(K(), c);
      var cw := dict.MatchChar(lastMatched, c);
      taken := cw != 0 && cw != lastAdded;
      if taken {
        ended := Take(c, cw);
      } else {
        EndBefore(c, cw);
        ended := true;
      }
    }

    /** Send what is pending and leave it waiting for its extension. */
    method SendPendingString()
      requires EncOk()
      modifies this
      ensures EncOk() && escape == old(escape) && strLen + flushedLen == 0 && lastMatched == 0
      ensures old(obuf) <= obuf && SendPending(old(E())) == (E(), obuf[|old(obuf)|..])
    {
      hide Valid, StrOf, BitsOf, Send, PutData, EncInv, MatcherInv, PackerInv, Pow2, Has, R.Rep;
      ghost var e := E();
      EncParts(e);
      PendingReady(e.k);
      EncParts(SendPending(e).0);
      if lastMatched != 0 {
        updateAt := lastMatched;
        SendIgnoresMatcher(e, K(), lastMatched);
        EndString(lastMatched);
      } else {
        assert obuf[|old(obuf)|..] == [];
      }
    }

    /** Change to compressed mode. */
    method EnterCompressed()
      requires EncOk() && mode.Transparent?
      modifies this
      ensures EncOk() && escape == old(escape) && old(obuf) <= obuf
      ensures Switch(old(E())) == (E(), obuf[|old(obuf)|..])
    {
      hide Valid, StrOf, BitsOf, EncInv, MatcherInv, Pow2, Has, SendPending, R.Rep;
      SwitchParts(E());
      SendPendingString();
      TailOf(old(obuf), obuf, [escapeChar, CC_ECM]);
      obuf := obuf + [escapeChar, CC_ECM];
      mode := Compressed;
    }

    /** The aligned ETM. */
    method SendEtm()
      requires Shape() && PackerInv(P())
      modifies this
      ensures Shape() && escape == old(escape) && strLen + flushedLen == old(strLen + flushedLen)
      ensures E() == old(E()).(mode := Transparent, p := PutAligned(old(P()), CCW_ETM).0,
              k := old(K()).(lastAdded := 0))
      ensures obuf == old(obuf) + PutAligned(old(P()), CCW_ETM).1
    {
      hide BitsOf, PutAligned, Pow2, R.Rep;
      lastAdded := 0;
      CcwFits(cwSize);
      PutAlignedCodeword(CCW_ETM);
      mode := Transparent;
    }

    /** Change to transparent mode. */
    method LeaveCompressed()
      requires EncOk() && mode.Compressed?
      modifies this
      ensures EncOk() && escape == old(escape) && old(obuf) <= obuf
      ensures Switch(old(E())) == (E(), obuf[|old(obuf)|..])
    {
      hide Valid, StrOf, BitsOf, PutAligned, EncInv, MatcherInv, PackerInv, Pow2, Has, SendPending, Switch, R.Rep;
      SwitchParts(E());
      SwitchUnfolds(E());
      SendPendingString();
      TailOf(old(obuf), obuf, PutAligned(P(), CCW_ETM).1);
      SendEtm();
    }

    /** Change mode when the compression ratio says so. */
    method TestMode() returns (ghost go: bool)
      requires EncOk()
      modifies this
      ensures EncOk() && escape == old(escape) && old(obuf) <= obuf
      ensures go == if old(mode).Transparent? then old(cmpLast) < TEST_SLICE * 8 - 11 else old(cmpLast) > TEST_SLICE * 8
      ensures (E(), obuf[|old(obuf)|..]) == if go then Switch(old(E())) else (old(E()), [])
    {
      hide Switch, BitsOf, EncInv, MatcherInv, Pow2, R.Rep;
      assert obuf[|old(obuf)|..] == [];
      go := if mode.Transparent? then cmpLast < TEST_SLICE * 8 - 11 else cmpLast > TEST_SLICE * 8;
      match mode {
        case Transparent =>
          if cmpLast < TEST_SLICE * 8 - 11 {
            EnterCompressed();
          }
        case Compressed =>
          if cmpLast > TEST_SLICE * 8 {
            LeaveCompressed();
          }
      }
    }

    /** Flush in compressed mode: the pending codeword, and an aligned FLUSH. */
    method FlushCompressed()
      requires EncOk() && mode.Compressed? && updateAt == 0
      modifies this
      ensures EncOk() && escape == old(escape) && old(obuf) <= obuf
      ensures FlushEnc(old(E())) == (E(), obuf[|old(obuf)|..])
    {
      hide Valid, StrOf, BitsOf, PutAligned, EncInv, MatcherInv, Pow2, Has, SendPending, Send, R.Rep;
      ghost var e := E();
      FlushParts(e);
      SendPendingString();
      CcwFits(cwSize);
      ghost var mid, p := obuf, P();
      PutAlignedCodeword(CCW_FLUSH);
      TailOf(old(obuf), mid, PutAligned(p, CCW_FLUSH).1);
    }

    /** Flush in transparent mode: the characters collected; the match goes on. */
    method FlushTransparent()
      requires EncOk() && mode.Transparent? && updateAt == 0 && lastMatched != 0
      modifies this
      ensures EncOk() && escape == old(escape) && old(obuf) <= obuf
      ensures FlushEnc(old(E())) == (E(), obuf[|old(obuf)|..])
    {
      hide Valid, StrOf, BitsOf, EncInv, MatcherInv, Pow2, Has, Send, R.Rep;
      ghost var e := E();
      EncParts(e);
      FlushParts(e);
      var total := flushedLen + strLen;
      SendData(lastMatched);
      flushedLen := total;
    }

    /** Flush the encoder; while an extension is pending there is nothing to flush. */
    method FlushEncoder()
      requires EncOk()
      modifies this
      ensures EncOk() && escape == old(escape) && old(obuf) <= obuf
      ensures FlushEnc(old(E())) == (E(), obuf[|old(obuf)|..])
    {
      hide Valid, StrOf, BitsOf, EncInv, MatcherInv, Pow2, Has, Send, SendPending, PutAligned, R.Rep;
      assert obuf[|old(obuf)|..] == [];
      EncParts(E());
      FlushParts(E());
      if updateAt == 0 {
        if mode.Compressed? {
          FlushCompressed();
        } else if lastMatched != 0 {
          FlushTransparent();
        }
      }
    }

    /** Settle the pending update, then offer the character. */
    method SettleAndOffer(c: byte) returns (taken: bool, ended: bool)
      requires EncOk()
      modifies this, strData, dict, dict.dict
      ensures EncOk() && escape == old(escape) && old(obuf) <= obuf
      ensures Step(old(E()), c) == Offer(E(), obuf[|old(obuf)|..], taken, ended)
    {
      hide EncInv, MatcherInv, Step, BitsOf, Pow2, Resolve, R.Rep;
      ghost var e := E();
      StepResolved(e, c);
      EncParts(e);
      if updateAt != 0 {
        ResolveUpdate(c);
      }
      taken, ended := OfferChar(c);
    }

    /**
     One turn of the encoding loop: the character, and the compression test when a string ended
     or the character was the last.
     */
    method EncodeTurn(c: byte, last: bool) returns (taken: bool, tested: bool, ghost go: bool)
      requires EncOk()
      modifies this, strData, dict, dict.dict
      ensures EncOk() && escape == old(escape) && old(obuf) <= obuf
      ensures var o := Step(old(E()), c);
              && taken == o.taken && tested == (o.ended || (o.taken && last))
              && (E(), obuf[|old(obuf)|..])
                 == if tested && go then (Switch(o.e).0, o.out + Switch(o.e).1) else (o.e, o.out)
    {
      hide EncInv, MatcherInv, Step, Switch, BitsOf, Pow2, Resolve, R.Rep;
      ghost var e := E();
      var ended: bool;
      taken, ended := SettleAndOffer(c);
      ghost var mid, o := obuf, Step(e, c);
      go := false;
      tested := ended || (taken && last);
      if tested {
        go := TestMode();
        TailOf(old(obuf), mid, obuf[|mid|..]);
        assert mid + obuf[|mid|..] == obuf;
        assert o.out + [] == o.out;
      }
    }

    /**
     Encode a buffer; `choices` records the outcomes of the compression test.  The characters of
     one string need no update between them, so one loop over the characters serves for both.
     */
    method Encode(input: Str) returns (ghost choices: seq<bool>)
      requires EncOk()
      modifies this, strData, dict, dict.dict
      ensures EncOk() && escape == old(escape) && old(obuf) <= obuf
      ensures Codec.Encode(old(E()), input, choices) == (E(), obuf[|old(obuf)|..])
    {
      hide EncInv, MatcherInv, Step, Switch, BitsOf, Pow2, Path, R.Rep;
      ghost var e0, o0 := E(), obuf;
      choices := [];
      assert input[0..] == input && obuf[|o0|..] == [];
      PathStart(e0, input);
      var i := 0;
      while i < |input|
        invariant i <= |input| && EncOk() && escape == old(escape) && o0 <= obuf
        invariant EncInv(e0) && Path(e0, input, choices, obuf[|o0|..], E(), input[i..])
        decreases |input| - i, lastMatched != 0
      {
        ghost var e, s, mid := E(), input[i..], obuf;
        var taken, tested: bool;
        ghost var go: bool;
        RoundShape(e, s);
        taken, tested, go := EncodeTurn(input[i], i + 1 == |input|);
        TailOf(o0, mid, obuf[|mid|..]);
        assert mid + obuf[|mid|..] == obuf;
        assert s[1..] == input[i + 1..];
        PathRound(e0, input, choices, mid[|o0|..], e, s, go);
        if tested {
          choices := choices + [go];
        }
        if taken {
          i := i + 1;
        }
      }
      assert input[i..] == [];
      PathEnd(e0, input, choices, obuf[|o0|..], E());
    }

    // ----- decoder -----

    /** The decoder that the fields stand for; the string being held back is apart. */
    ghost function DV(): Dec
      reads this, dict
    {
      Dec(K(), mode, escapeChar, escape, cwSize, threshold, BitsOf(bitData, bitLen))
    }

    ghost predicate DecOk()
      reads this, dict, dict.dict, strData
    {
      Shape() && DecInv(DV()) && strLen + flushedLen == |Matched(K())|
    }

    /** What has been decoded and not been taken away: delivered, and held back. */
    ghost function Decoded(): Str
      reads this, strData
      requires strLen <= strData.Length
    {
      obuf + Str()
    }

    /** Deliver the string held back. */
    method SendString()
      requires Shape()
      modifies `obuf, `strLen, `flushedLen
      ensures Shape() && strLen == 0 && flushedLen == 0 && obuf == old(Decoded())
    {
      obuf := obuf + strData[..strLen];
      strLen := 0;
      flushedLen := 0;
    }

    /** Deliver what is held back without ending the string. */
    method FlushDecoder()
      requires DecOk()
      modifies `obuf, `strLen, `flushedLen
      ensures DecOk() && DV() == old(DV()) && strLen == 0 && obuf == old(Decoded())
    {
      var total := flushedLen + strLen;
      SendString();
      flushedLen := total;
    }

    /** Spell out the string of a codeword, walking up the parents twice. */
    method ReceiveString(cw: nat)
      requires Shape() && strLen == 0 && Has(dict.w, cw) && |StrOf(dict.w, cw)| <= MAX_STRING
      modifies `strLen, strData
      ensures Shape() && Str() == StrOf(dict.w, cw)
    {
      hide StrOf, Has, BitsOf, Pow2, R.Rep;
      ghost var s := StrOf(dict.w, cw);
      WordsBound(dict.w, dict.l, cw);
      var p: nat, n: nat := cw, 0;
      while p != 0
        invariant Shape() && n <= |s| && (p == 0 <==> n == |s|)
        invariant p != 0 ==> Has(dict.w, p) && p < dict.l.size && s[..|s| - n] == StrOf(dict.w, p)
        decreases |s| - n
      {
        R.ParentStep(dict.dict[..], dict.w, dict.l, dict.kids, dict.nextFree, p);
        WalkUp(dict.dict[..], dict.w, s, n, p);
        p := dict.dict[p].parent;
        n := n + 1;
      }
      p := cw;
      var i: nat := n;
      assert s[..n] == s;
      while p != 0
        invariant i <= |s| && (p == 0 <==> i == 0) && n == |s|
        invariant p != 0 ==> Has(dict.w, p) && p < dict.l.size && s[..i] == StrOf(dict.w, p)
        invariant Shape() && strData[i..n] == s[i..]
        decreases i
      {
        R.ParentStep(dict.dict[..], dict.w, dict.l, dict.kids, dict.nextFree, p);
        WalkUp(dict.dict[..], dict.w, s, n - i, p);
        i := i - 1;
        ghost var done := strData[i + 1..n];
        strData[i] := dict.dict[p].ch;
        assert strData[i..n] == [strData[i]] + done;
        assert s[i..] == [s[i]] + s[i + 1..];
        p := dict.dict[p].parent;
      }
      strLen := n;
    }

    /** Settle the pending update with the first character of a received string. */
    method LearnUpdate(c: byte)
      requires Shape() && MatcherInv(K())
      modifies `lastAdded, dict, dict.dict
      ensures Shape()
      ensures K() == Learn(old(K()), c).(updateAt := old(updateAt))
    {
      hide Valid, Match, StrOf, BitsOf, Pow2, R.Rep;
      UpdateReady(K(), c);
      ghost var k := K();
      if updateAt != 0 {
        var n := dict.MatchChar(updateAt, c);
        if n == 0 {
          lastAdded := dict.AddChar(updateAt, c);
        } else if n == lastAdded {
          lastAdded := 0;
        }
      }
    }

    /** Deliver a received string, and wait for its extension at `at`. */
    method Deliver(at: nat)
      requires Shape()
      modifies this
      ensures Shape() && strLen == 0 && flushedLen == 0 && obuf == old(Decoded())
      ensures DV() == old(DV()).(k := old(K()).(updateAt := at), esc := EscAfter(old(Str()), old(escapeChar)))
    {
      hide EscAfter, BitsOf, Pow2, R.Rep;
      updateAt := at;
      CycleEscape();
      SendString();
    }

    /** A data codeword: false where the code reports an error. */
    method ReceiveCodeword(cw: nat) returns (ok: bool)
      requires DecOk() && mode.Compressed? && Receive(DV(), cw) != Outside
      modifies this, strData, dict, dict.dict
      ensures ok == Receive(old(DV()), cw).Ok?
      ensures ok ==> DecOk() && DV() == Receive(old(DV()), cw).d
                     && Decoded() == old(Decoded()) + Receive(old(DV()), cw).x
      ensures ok ==> old(obuf) <= obuf
    {
      hide Valid, Match, StrOf, Has, BitsOf, Pow2, Learn, MatcherInv, R.Rep;
      ghost var d := DV();
      if cw == dict.nextFree {
        return false;
      }
      ReceiveUnfolds(d, cw);
      ReceiveString(cw);
      var full := strLen + flushedLen == dict.l.maxStr;
      var next := dict.nextFree;
      LearnUpdate(strData[0]);
      if dict.nextFree != next && cw == dict.nextFree {
        return false;
      }
      Deliver(if full then 0 else cw);
      return true;
    }

    /** ETM and FLUSH drop the rest of the octet. */
    method DropPadding(cw: nat)
      requires DecOk() && mode.Compressed? && cw < CCW_STEPUP && Codeword(DV(), cw) != Outside
      modifies this
      ensures DecOk() && obuf == old(obuf) && strLen == old(strLen)
      ensures Codeword(old(DV()), cw) == Ok(DV(), [])
    {
      hide Receive, Pow2, MatcherInv, BitsOf, R.Rep;
      ghost var d := DV();
      CodewordParts(d, cw);
      PaddingIsZero(bitData, bitLen);
      bitLen := 0;
      if cw == CCW_ETM {
        mode := Transparent;
        lastMatched := 0;
        lastAdded := 0;
      }
    }

    /** STEPUP. */
    method WidenCodewords() returns (ok: bool)
      requires DecOk() && mode.Compressed? && Codeword(DV(), CCW_STEPUP) != Outside
      modifies this
      ensures ok == Codeword(old(DV()), CCW_STEPUP).Ok?
      ensures ok ==> DecOk() && obuf == old(obuf) && strLen == old(strLen)
                     && Codeword(old(DV()), CCW_STEPUP) == Ok(DV(), [])
    {
      hide Receive, Pow2, MatcherInv, BitsOf, R.Rep;
      ghost var d := DV();
      CodewordParts(d, CCW_STEPUP);
      cwSize := cwSize + 1;
      threshold := 2 * threshold;
      ok := cwSize <= dict.l.size / 8;
    }

    /** A complete codeword, control or data; the bits after it are in the buffer. */
    method ProcessCodeword(cw: nat) returns (ok: bool)
      requires DecOk() && mode.Compressed? && Codeword(DV(), cw) != Outside
      modifies this, strData, dict, dict.dict
      ensures ok == Codeword(old(DV()), cw).Ok?
      ensures ok ==> DecOk() && DV() == Codeword(old(DV()), cw).d
                     && Decoded() == old(Decoded()) + Codeword(old(DV()), cw).x
      ensures ok ==> old(obuf) <= obuf
    {
      hide Pow2, MatcherInv, BitsOf, Codeword, Receive, DecInv, R.Rep;
      assert Decoded() + [] == Decoded();
      if cw < CCW_STEPUP {
        DropPadding(cw);
        ok := true;
      } else if cw == CCW_STEPUP {
        ok := WidenCodewords();
      } else {
        DataCodeword(DV(), cw);
        ok := ReceiveCodeword(cw);
      }
    }

    /** Take the next codeword out of the bit buffer. */
    method TakeCodeword() returns (cw: nat)
      requires Shape() && bitLen >= cwSize
      modifies `bitData, `bitLen
      ensures Shape() && bitLen == old(bitLen) - cwSize
      ensures cw == Value(old(BitsOf(bitData, bitLen))[..cwSize])
      ensures BitsOf(bitData, bitLen) == old(BitsOf(bitData, bitLen))[cwSize..]
    {
      hide BitsOf, Pow2, Value, R.Rep;
      cw := bitData % Pow2(cwSize);
      TakeLow(bitData, cw, bitData / Pow2(cwSize), cwSize, bitLen);
      bitData := bitData / Pow2(cwSize);
      bitLen := bitLen - cwSize;
    }

    /** The string held back ends before `c`, for the reason that `cw` gives. */
    method CutBefore(c: byte, cw: nat)
      requires DecOk() && mode.Transparent? && updateAt == 0 && cw == Match(dict.w, lastMatched, c) && Ends(K(), c)
      modifies this
      ensures DecOk() && DV() == old(DV()).(k := Cut(old(K()), c)) && obuf == Decoded() == old(Decoded())
    {
      hide Valid, Match, StrOf, BitsOf, Cut, MatcherInv, Pow2, Has, R.Rep;
      ghost var k := K();
      OfferReady(k, c);
      CutDone(k, c);
      if cw == 0 {
        updateAt := lastMatched;
      } else {
        lastAdded := 0;
      }
      SendString();
      lastMatched := 0;
    }

    /** The string held back goes on with `c`, as the entry `cw`. */
    method HoldChar(c: byte, cw: nat)
      requires DecOk() && mode.Transparent? && updateAt == 0 && cw == Match(dict.w, lastMatched, c) && !Ends(K(), c)
      modifies this, strData
      ensures DecOk() && DV() == old(DV()).(k := Push(old(K()), c)) && Decoded() == old(Decoded()) + [c]
              && old(obuf) <= obuf
    {
      hide Valid, Match, StrOf, BitsOf, Push, MatcherInv, Pow2, Has, R.Rep;
      ghost var k, o, str := K(), obuf, Str();
      OfferReady(k, c);
      PushMatches(k, c);
      PushDone(k, c);
      Collect(c, cw);
      assert o + (str + [c]) == (o + str) + [c];
      if strLen + flushedLen == dict.l.maxStr {
        SendString();
        lastMatched := 0;
      }
    }

    /** One turn of the decoding loop for a transparent character. */
    method LiteralTurn(c: byte) returns (taken: bool)
      requires DecOk() && mode.Transparent?
      modifies this, strData, dict, dict.dict
      ensures DecOk() && DV() == old(DV()).(k := K()) && old(obuf) <= obuf
      ensures Feed(old(K()), c) == if taken then K() else Feed(K(), c)
      ensures Decoded() == if taken then old(Decoded()) + [c] else old(Decoded())
      ensures !taken ==> lastMatched == 0 && old(lastMatched) != 0
    {
      hide Valid, Match, StrOf, BitsOf, Push, Cut, MatcherInv, Pow2, Has, Resolve, R.Rep;
      ghost var k := K();
      FeedUnfolds(k, c);
      NothingLost(k, c);
      ResolveUpdate(c);
      OfferReady(K(), c);
      var cw := dict.MatchChar(lastMatched, c);
      taken := cw != 0 && cw != lastAdded;
      if taken {
        HoldChar(c, cw);
      } else {
        CutBefore(c, cw);
      }
    }

    /** Put one received octet into the bit buffer. */
    method TakeOctetIn(b: byte)
      requires Shape() && bitLen < 15
      modifies `bitData, `bitLen
      ensures Shape() && bitLen == old(bitLen) + 8
              && BitsOf(bitData, bitLen) == old(BitsOf(bitData, bitLen)) + BitsOf(b, 8)
    {
      hide BitsOf, Pow2, R.Rep;
      var v := bitData + b * Pow2(bitLen);
      Pow2Eight();
      PushCode(bitData, bitLen, b, 8, v);
      bitData := v;
      bitLen := bitLen + 8;
    }

    /** Read octets until a codeword is complete or the input is used up; `d` is the decoder before the last one. */
    method ReadOctets(s: Str, i: nat) returns (j: nat, ghost d: Dec)
      requires Shape() && DecInv(DV()) && mode.Compressed? && i < |s|
      modifies `bitData, `bitLen
      ensures Shape() && i < j <= |s| && DecInv(d) && d == old(DV()).(q := d.q)
      ensures bitLen < cwSize ==> j == |s| && d == DV() && Codec.Decode(old(DV()), s[i..]) == Codec.Decode(d, s[j..])
      ensures bitLen >= cwSize ==> BitsOf(bitData, bitLen) == d.q + BitsOf(s[j - 1], 8)
                                   && Codec.Decode(old(DV()), s[i..]) == Codec.Decode(d, s[j - 1..])
    {
      hide BitsOf, Pow2, Codec.Decode, MatcherInv, R.Rep;
      ghost var d0 := DV();
      j := i;
      d := d0;
      while bitLen < cwSize && j < |s|
        invariant Shape() && i <= j <= |s| && DecInv(d) && d == d0.(q := d.q) && (i == j ==> bitLen < cwSize)
        invariant bitLen < cwSize ==> d == DV() && Codec.Decode(d0, s[i..]) == Codec.Decode(d, s[j..])
        invariant bitLen >= cwSize ==> BitsOf(bitData, bitLen) == d.q + BitsOf(s[j - 1], 8)
                                       && Codec.Decode(d0, s[i..]) == Codec.Decode(d, s[j - 1..])
        decreases |s| - j
      {
        ReadOctet(d, s, j);
        TakeOctetIn(s[j]);
        j := j + 1;
        d := if bitLen < cwSize then DV() else d;
      }
    }

    /** One turn of the decoding loop in compressed mode. */
    method CompressedTurn(s: Str, i: nat) returns (j: nat, ok: bool)
      requires DecOk() && mode.Compressed? && i < |s| && Codec.Decode(DV(), s[i..]) != Outside
      modifies this, strData, dict, dict.dict
      ensures i < j <= |s|
      ensures !ok ==> Codec.Decode(old(DV()), s[i..]) == CError
      ensures ok ==> DecOk() && old(obuf) <= obuf && old(Decoded()) <= Decoded()
      ensures ok ==> Codec.Decode(old(DV()), s[i..]) == Join(Decoded()[|old(Decoded())|..], Codec.Decode(DV(), s[j..]))
    {
      hide BitsOf, Pow2, Codec.Decode, Codeword, MatcherInv, Value, R.Rep;
      ghost var d;
      j, d := ReadOctets(s, i);
      if bitLen < cwSize {
        assert Decoded()[|old(Decoded())|..] == [];
        JoinNothing(Codec.Decode(DV(), s[j..]));
        return j, true;
      }
      CompleteCodeword(d, s, j - 1);
      var cw := TakeCodeword();
      ok := ProcessCodeword(cw);
    }

    method ClearFields()
      modifies this
      ensures updateAt == lastMatched == lastAdded == bitLen == bitData == flushedLen == strLen == 0
              && obuf == old(obuf)
      ensures cwSize == 9 && threshold == 512 && escapeChar == 0 && mode == Transparent && !escape
    {
      updateAt, lastMatched, lastAdded := 0, 0, 0;
      cwSize, threshold, bitLen, bitData := 9, 512, 0, 0;
      flushedLen, strLen := 0, 0;
      escapeChar, cmpLast, mode, escape := 0, TEST_SLICE * 8, Transparent, false;
    }

    /** Forget everything, as after initialisation. */
    method DictInit()
      requires Shape()
      modifies this, dict, dict.dict
      ensures DecOk() && DV() == DecInit(dict.l) && obuf == old(obuf) && strLen == 0
    {
      hide BitsOf, Pow2, Valid, R.Rep, DecInv, DecInit, StrOf, Has;
      DictLimits(dict.w, dict.l);
      FreshDecoder(dict.l);
      dict.Clear();
      ClearFields();
    }

    /** ECM: deliver what is held back, and change to compressed mode. */
    method EnterDecoding()
      requires DecOk() && mode.Transparent?
      modifies this
      ensures DecOk() && obuf == Decoded() == old(Decoded())
      ensures DV() == old(DV()).(mode := Compressed, escaped := false,
              k := old(K()).(updateAt := old(lastMatched), lastMatched := 0))
    {
      hide BitsOf, Pow2, Valid, StrOf, Has, MatcherInv, R.Rep;
      EnterParts(DV());
      escape := false;
      SendString();
      mode := Compressed;
      updateAt := lastMatched;
      lastMatched := 0;
    }

    /** A transparent character at position `i`, already rid of its escape. */
    method LiteralAt(s: Str, i: nat) returns (j: nat)
      requires DecOk() && mode.Transparent? && !escape && i < |s| && s[i] != escapeChar
      modifies this, strData, dict, dict.dict
      ensures i <= j <= i + 1 && DecOk() && old(obuf) <= obuf && old(Decoded()) <= Decoded()
      ensures Codec.Decode(old(DV()), s[i..]) == Join(Decoded()[|old(Decoded())|..], Codec.Decode(DV(), s[j..]))
      ensures i == j ==> lastMatched == 0 && old(lastMatched) != 0
    {
      hide BitsOf, Pow2, Valid, StrOf, Has, MatcherInv, Feed, Codec.Decode, R.Rep;
      ghost var d := DV();
      var taken := LiteralTurn(s[i]);
      LiteralDecodes(d, s, i);
      if taken {
        j := i + 1;
        assert Decoded()[|old(Decoded())|..] == [s[i]];
      } else {
        j := i;
        LiteralDecodes(DV(), s, i);
        JoinNothing(Codec.Decode(d, s[i..]));
        assert Decoded()[|old(Decoded())|..] == [];
      }
    }

    /** The octet after an escape character. */
    method CommandAt(s: Str, i: nat) returns (t: Str, j: nat, ok: bool)
      requires DecOk() && mode.Transparent? && escape && i < |s|
      modifies this, strData, dict, dict.dict
      ensures |t| == |s| && i <= j <= i + 1
      ensures !ok ==> Codec.Decode(old(DV()), s[i..]) == CError
      ensures ok ==> DecOk() && old(obuf) <= obuf && old(Decoded()) <= Decoded()
                     && Codec.Decode(old(DV()), s[i..])
                        == Join(Decoded()[|old(Decoded())|..], Codec.Decode(DV(), t[j..]))
      ensures ok && i == j ==> lastMatched == 0 && old(lastMatched) != 0
    {
      hide BitsOf, Pow2, Valid, StrOf, Has, MatcherInv, Feed, Codec.Decode, DecInit, R.Rep;
      ghost var d := DV();
      CommandDecodes(d, s, i);
      t, j, ok := s, i + 1, true;
      assert Decoded()[|Decoded()|..] == [];
      if s[i] == CC_EID {
        t := s[i := escapeChar];
        escapeChar := (escapeChar + ESCAPE_STEP) % 256;
        escape := false;
        j := LiteralAt(t, i);
      } else if s[i] == CC_ECM {
        EnterDecoding();
        JoinNothing(Codec.Decode(DV(), s[i + 1..]));
      } else if s[i] == CC_RESET {
        SendString();
        DictInit();
        JoinNothing(Codec.Decode(DV(), s[i + 1..]));
      } else {
        ok := false;
      }
    }

    /** One turn of the decoding loop in transparent mode. */
    method TransparentTurn(s: Str, i: nat) returns (t: Str, j: nat, ok: bool)
      requires DecOk() && mode.Transparent? && i < |s|
      modifies this, strData, dict, dict.dict
      ensures |t| == |s| && i <= j <= i + 1
      ensures !ok ==> Codec.Decode(old(DV()), s[i..]) == CError
      ensures ok ==> DecOk() && old(obuf) <= obuf && old(Decoded()) <= Decoded()
                     && Codec.Decode(old(DV()), s[i..])
                        == Join(Decoded()[|old(Decoded())|..], Codec.Decode(DV(), t[j..]))
      ensures ok && i == j ==> lastMatched == 0 && old(lastMatched) != 0
    {
      hide BitsOf, Pow2, Valid, StrOf, Has, MatcherInv, Feed, Codec.Decode, R.Rep;
      t, ok := s, true;
      if escape {
        t, j, ok := CommandAt(s, i);
      } else if s[i] == escapeChar {
        EscapeDecodes(DV(), s, i);
        escape := true;
        j := i + 1;
        JoinNothing(Codec.Decode(DV(), s[i + 1..]));
        assert Decoded()[|Decoded()|..] == [];
      } else {
        j := LiteralAt(s, i);
      }
    }

    /** One turn of the decoding loop. */
    method DecodeTurn(s: Str, i: nat) returns (t: Str, j: nat, ok: bool)
      requires DecOk() && i < |s| && Codec.Decode(DV(), s[i..]) != Outside
      modifies this, strData, dict, dict.dict
      ensures |t| == |s| && i <= j <= |s|
      ensures !ok ==> Codec.Decode(old(DV()), s[i..]) == CError
      ensures ok ==> DecOk() && old(obuf) <= obuf && old(Decoded()) <= Decoded()
                     && Codec.Decode(old(DV()), s[i..])
                        == Join(Decoded()[|old(Decoded())|..], Codec.Decode(DV(), t[j..]))
      ensures ok && i == j ==> lastMatched == 0 && old(lastMatched) != 0
    {
      hide *;
      if mode.Compressed? {
        t := s;
        j, ok := CompressedTurn(s, i);
      } else {
        t, j, ok := TransparentTurn(s, i);
      }
    }

    /**
     Decode a buffer: false where the code reports an error.  Whatever has been decoded is
     delivered, or held back until its string ends or the decoder is flushed.
     */
    method Decode(input: Str) returns (ok: bool)
      requires DecOk() && Codec.Decode(DV(), input) != Outside
      modifies this, strData, dict, dict.dict
      ensures ok == Codec.Decode(old(DV()), input).Ok?
      ensures ok ==> DecOk() && old(obuf) <= obuf
                     && DV() == Codec.Decode(old(DV()), input).d
                     && Decoded() == old(Decoded()) + Codec.Decode(old(DV()), input).x
    {
      hide BitsOf, Pow2, Valid, StrOf, Has, MatcherInv, Codec.Decode, DecInv, R.Rep;
      ghost var d0, had := DV(), Decoded();
      var s, i := input, 0;
      assert s[0..] == s && Decoded()[|had|..] == [];
      JoinNothing(Codec.Decode(DV(), s));
      while i < |s|
        invariant i <= |s| && DecOk() && old(obuf) <= obuf && had <= Decoded() && DecInv(d0)
        invariant Codec.Decode(d0, input) == Join(Decoded()[|had|..], Codec.Decode(DV(), s[i..])) != Outside
        decreases |s| - i, lastMatched != 0
      {
        ghost var mid := Decoded();
        s, i, ok := DecodeTurn(s, i);
        if !ok {
          return;
        }
        JoinTail(had, mid, Decoded(), Codec.Decode(DV(), s[i..]));
      }
      ok := true;
      NothingLeft(DV(), s[i..]);
      Rejoin(had, Decoded());
    }
  }

  lemma Rejoin(a: Str, b: Str)
    requires a <= b
    ensures a + b[|a|..] == b
  {}

  /** Encoding `s0` from `e0` begins with the tests `cs` and the output `out`, and goes on as encoding `s` from `e`. */
  ghost predicate Path(e0: Enc, s0: Str, cs: seq<bool>, out: Str, e: Enc, s: Str)
    requires EncInv(e0) && EncInv(e)
  {
    forall more: seq<bool> :: EncodeFrom(e0, s0, cs, more)
      == (Codec.Encode(e, s, more).0, out + Codec.Encode(e, s, more).1)
  }

  ghost function EncodeFrom(e0: Enc, s0: Str, cs: seq<bool>, more: seq<bool>): (Enc, Str)
    requires EncInv(e0)
  {
    Codec.Encode(e0, s0, cs + more)
  }

  lemma PathStart(e0: Enc, s0: Str)
    requires EncInv(e0)
    ensures Path(e0, s0, [], [], e0, s0)
  {
    hide Codec.Encode;
    forall more: seq<bool>
      ensures EncodeFrom(e0, s0, [], more) == (Codec.Encode(e0, s0, more).0, [] + Codec.Encode(e0, s0, more).1)
    {
      assert [] + more == more;
      assert [] + Codec.Encode(e0, s0, more).1 == Codec.Encode(e0, s0, more).1;
    }
  }

  lemma PathEnd(e0: Enc, s0: Str, cs: seq<bool>, out: Str, e: Enc)
    requires EncInv(e0) && EncInv(e) && Path(e0, s0, cs, out, e, [])
    ensures Codec.Encode(e0, s0, cs) == (e, out)
  {
    hide EncInv, Codec.Encode;
    EncodeNothing(e);
    assert EncodeFrom(e0, s0, cs, []) == (Codec.Encode(e, [], []).0, out + Codec.Encode(e, [], []).1);
    assert cs + [] == cs;
    assert out + [] == out;
  }

  lemma EncodeNothing(e: Enc)
    requires EncInv(e)
    ensures Codec.Encode(e, [], []) == (e, [])
  {}

  /** Settling the update first does not change what a step does. */
  lemma StepResolved(e: Enc, c: byte)
    requires EncInv(e)
    ensures var e1 := e.(k := Resolve(e.k, c));
            EncInv(e1) && Step(e1, c) == Step(e, c) && (e.k.updateAt == 0 ==> e1 == e) && Matched(e1.k) == Matched(e.k)
  {
    hide Valid, PutData, Match, StrOf, Push, Cut, Send;
    ResolveAgain(e.k, c);
    NothingLost(e.k, c);
  }

  lemma ResolveAgain(k: Matcher, c: byte)
    requires MatcherInv(k)
    ensures Resolve(Resolve(k, c), c) == Resolve(k, c)
  {}

  lemma NothingLost(k: Matcher, c: byte)
    requires MatcherInv(k)
    ensures Matched(Resolve(k, c)) == Matched(k)
  {}

  /** A round in terms of the step it starts with. */
  lemma RoundShape(e: Enc, s: Str)
    requires EncInv(e) && s != []
    ensures var o := Step(e, s[0]);
            && EncInv(o.e) && (!o.taken ==> e.k.lastMatched != 0 && o.e.k.lastMatched == 0 && o.ended)
            && EncInv(Switch(o.e).0) && Switch(o.e).0.k.lastMatched == 0
  {}

  lemma PathAt(e0: Enc, s0: Str, cs: seq<bool>, out: Str, e: Enc, s: Str, more: seq<bool>)
    requires EncInv(e0) && EncInv(e) && Path(e0, s0, cs, out, e, s)
    ensures Codec.Encode(e0, s0, cs + more) == (Codec.Encode(e, s, more).0, out + Codec.Encode(e, s, more).1)
  {
    hide EncInv, Codec.Encode;
    assert EncodeFrom(e0, s0, cs, more) == Codec.Encode(e0, s0, cs + more);
  }

  lemma PathTested(e0: Enc, s0: Str, cs: seq<bool>, out: Str, e: Enc, s: Str, go: bool, more: seq<bool>)
    requires EncInv(e0) && EncInv(e) && Path(e0, s0, cs, out, e, s) && s != []
    ensures var o := Step(e, s[0]);
            var rest := if o.taken then s[1..] else s;
            o.ended || rest == [] ==>
              var (e1, out1) := if go then (Switch(o.e).0, o.out + Switch(o.e).1) else (o.e, o.out);
              EncodeFrom(e0, s0, cs + [go], more)
                == (Codec.Encode(e1, rest, more).0, (out + out1) + Codec.Encode(e1, rest, more).1)
  {
    hide EncInv, Step, Switch, Path, Codec.Encode;
    var o := Step(e, s[0]);
    var rest := if o.taken then s[1..] else s;
    PathAt(e0, s0, cs, out, e, s, [go] + more);
    TestedRound(e, s, go, more);
    assert (cs + [go]) + more == cs + ([go] + more);
    if o.ended || rest == [] {
      var (e1, out1) := if go then (Switch(o.e).0, o.out + Switch(o.e).1) else (o.e, o.out);
      assert out + (out1 + Codec.Encode(e1, rest, more).1) == (out + out1) + Codec.Encode(e1, rest, more).1;
    }
  }

  lemma PathUntested(e0: Enc, s0: Str, cs: seq<bool>, out: Str, e: Enc, s: Str, more: seq<bool>)
    requires EncInv(e0) && EncInv(e) && Path(e0, s0, cs, out, e, s) && s != []
    ensures var o := Step(e, s[0]);
            var rest := if o.taken then s[1..] else s;
            !(o.ended || rest == []) ==>
              EncodeFrom(e0, s0, cs, more)
                == (Codec.Encode(o.e, rest, more).0, (out + o.out) + Codec.Encode(o.e, rest, more).1)
  {
    hide EncInv, Step, Switch;
    var o := Step(e, s[0]);
    var rest := if o.taken then s[1..] else s;
    assert EncodeFrom(e0, s0, cs, more) == (Codec.Encode(e, s, more).0, out + Codec.Encode(e, s, more).1);
    if !(o.ended || rest == []) {
      assert Codec.Encode(e, s, more) == (Codec.Encode(o.e, rest, more).0, o.out + Codec.Encode(o.e, rest, more).1);
      assert out + (o.out + Codec.Encode(o.e, rest, more).1) == (out + o.out) + Codec.Encode(o.e, rest, more).1;
    }
  }

  /** One round further along the path. */
  lemma PathRound(e0: Enc, s0: Str, cs: seq<bool>, out: Str, e: Enc, s: Str, go: bool)
    requires EncInv(e0) && EncInv(e) && Path(e0, s0, cs, out, e, s) && s != []
    ensures var o := Step(e, s[0]);
            var rest := if o.taken then s[1..] else s;
            && EncInv(o.e)
            && (if o.ended || rest == [] then
                  var (e1, out1) := if go then (Switch(o.e).0, o.out + Switch(o.e).1) else (o.e, o.out);
                  EncInv(e1) && Path(e0, s0, cs + [go], out + out1, e1, rest)
                else Path(e0, s0, cs, out + o.out, o.e, rest))
  {
    hide EncInv, Step, Switch, Codec.Encode;
    var o := Step(e, s[0]);
    var rest := if o.taken then s[1..] else s;
    forall more: seq<bool> {
      PathTested(e0, s0, cs, out, e, s, go, more);
    }
    forall more: seq<bool> {
      PathUntested(e0, s0, cs, out, e, s, more);
    }
  }

  lemma TestedRound(e: Enc, s: Str, go: bool, more: seq<bool>)
    requires EncInv(e) && s != []
    ensures var o := Step(e, s[0]);
            var rest := if o.taken then s[1..] else s;
            o.ended || rest == [] ==>
              var (e1, out1) := if go then (Switch(o.e).0, o.out + Switch(o.e).1) else (o.e, o.out);
              EncInv(e1) && Codec.Encode(e, s, [go] + more)
                == (Codec.Encode(e1, rest, more).0, out1 + Codec.Encode(e1, rest, more).1)
  {
    hide EncInv, Step, Switch;
    var o := Step(e, s[0]);
    assert ([go] + more)[1..] == more && ([go] + more)[0] == go;
    assert o.out + [] == o.out;
  }

  lemma TailOf(a: Str, b: Str, x: Str)
    requires a <= b
    ensures (b + x)[|a|..] == b[|a|..] + x
  {}

  lemma PushCode(data: nat, n: nat, cw: nat, m: nat, v: nat)
    requires data < Pow2(n) && cw < Pow2(m) && v == data + cw * Pow2(n)
    ensures v < Pow2(n + m) && BitsOf(v, n + m) == BitsOf(data, n) + BitsOf(cw, m)
  {
    BitsAppend(data, n, cw, m);
    AppendBound(data, n, cw, m);
  }

  lemma WiderBound(v: nat, n: nat, m: nat)
    requires v < Pow2(n)
    ensures v < Pow2(n + m)
  {
    Pow2Add(n, m);
    MulMono(1, Pow2(m), Pow2(n));
  }

  /** The octet at the bottom of a bit buffer. */
  lemma TakeOctet(v: nat, n: nat)
    requires v < Pow2(n) && n >= 8
    ensures var b := BitsOf(v, n);
            && Octets(b) == [v % 256] + Octets(BitsOf(v / 256, n - 8))
            && Rest(b) == Rest(BitsOf(v / 256, n - 8)) && v / 256 < Pow2(n - 8)
  {
    Pow2Eight();
    BitsSplit(v, v % 256, v / 256, 8, n - 8);
    ShiftBound(v, 8, n - 8);
    OctetFirst(v, n);
  }

  lemma FewBits(b: seq<bool>)
    requires |b| < 8
    ensures Octets(b) == [] && Rest(b) == b
  {}

  lemma OctetFirst(v: nat, n: nat)
    requires n >= 8 && BitsOf(v, n) == BitsOf(v % 256, 8) + BitsOf(v / 256, n - 8)
    ensures var b := BitsOf(v, n);
            Octets(b) == [v % 256] + Octets(BitsOf(v / 256, n - 8)) && Rest(b) == Rest(BitsOf(v / 256, n - 8))
  {
    hide BitsOf;
    var b := BitsOf(v, n);
    Pow2Eight();
    ValueBits(v % 256, 8);
    assert b[..8] == BitsOf(v % 256, 8);
    assert b[8..] == BitsOf(v / 256, n - 8);
  }

  lemma StepUpRoom(p: Packer, cw: nat)
    requires PackerInv(p) && p.threshold <= cw < 32768
    ensures p.cwSize < 15 && CCW_STEPUP < Pow2(p.cwSize)
    ensures PackerInv(StepUp(p).0)
    ensures PutData(p, cw) == (PutData(StepUp(p).0, cw).0, StepUp(p).1 + PutData(StepUp(p).0, cw).1)
  {
    hide BitsOf, Octets, Rest, Pow2;
    Pow2Small();
    Pow2Grows(9, p.cwSize);
    Pow2Next(p.cwSize);
  }

  lemma CodeFits(p: Packer, cw: nat)
    requires PackerInv(p) && cw < p.threshold
    ensures cw < Pow2(p.cwSize) && cw < 32768 && PutData(p, cw) == PutCode(p, cw)
  {
    Pow2Small();
    Pow2Grows(p.cwSize, 15);
  }

  lemma PutDataInv(p: Packer, cw: nat)
    requires PackerInv(p) && cw < 32768
    ensures PackerInv(PutData(p, cw).0)
  {}

  /** What a pending update may rely on. */
  lemma UpdateReady(k: Matcher, c: byte)
    requires MatcherInv(k)
    ensures k.updateAt != 0 ==> Has(k.w, k.updateAt) && k.updateAt < k.l.size && k.lastMatched == 0
    ensures k.updateAt != 0 && Match(k.w, k.updateAt, c) == 0 ==> CanAdd(k.w, k.l, k.updateAt, c)
  {}

  /** What an offered character leads to. */
  lemma OfferReady(k: Matcher, c: byte)
    requires MatcherInv(k) && k.updateAt == 0
    ensures k.lastMatched == 0 || (Has(k.w, k.lastMatched) && k.lastMatched < k.l.size)
    ensures k.lastMatched < 32768 && Match(k.w, k.lastMatched, c) < 32768
    ensures |Matched(k)| < k.l.maxStr
    ensures Ends(k, c) ==>
              Cut(k, c) == if Match(k.w, k.lastMatched, c) == 0 then k.(updateAt := k.lastMatched, lastMatched := 0)
                           else k.(lastAdded := 0, lastMatched := 0)
    ensures !Ends(k, c) ==>
              Push(k, c)
              == k.(lastMatched := if |Matched(k)| + 1 == k.l.maxStr then 0 else Match(k.w, k.lastMatched, c))
  {
    MatchSpec(k.w, k.l, k.lastMatched, c);
  }

  lemma PushMatches(k: Matcher, c: byte)
    requires MatcherInv(k) && k.updateAt == 0 && !Ends(k, c)
    ensures |Matched(k)| + 1 < k.l.maxStr ==> Matched(Push(k, c)) == Matched(k) + [c]
  {}

  lemma EncParts(e: Enc)
    requires EncInv(e)
    ensures MatcherInv(e.k) && PackerInv(e.p) && |e.str| <= |Matched(e.k)|
  {}

  lemma SendIgnoresMatcher(e: Enc, k: Matcher, cw: nat)
    requires PackerInv(e.p) && cw < 32768
    ensures Send(e.(k := k), cw) == (Send(e, cw).0.(k := k), Send(e, cw).1)
  {
    hide PutData;
  }

  lemma StepUnfolds(e: Enc, c: byte)
    requires EncInv(e) && e.k.updateAt == 0
    ensures e.k.lastMatched < 32768 && Match(e.k.w, e.k.lastMatched, c) < 32768
    ensures Ends(e.k, c) ==>
              Step(e, c)
                == Offer(Send(e, e.k.lastMatched).0.(k := Cut(e.k, c)), Send(e, e.k.lastMatched).1, false, true)
    ensures !Ends(e.k, c) ==>
              var e1 := e.(k := Push(e.k, c), str := e.str + [c]);
              Step(e, c) == if e1.k.lastMatched != 0 then Offer(e1, [], true, false)
                            else Offer(Send(e1, Match(e.k.w, e.k.lastMatched, c)).0,
                              Send(e1, Match(e.k.w, e.k.lastMatched, c)).1, true, true)
  {
    OfferReady(e.k, c);
  }

  lemma PendingReady(k: Matcher)
    requires MatcherInv(k)
    ensures k.lastMatched < 32768 && (k.lastMatched == 0 ==> Matched(k) == [])
  {}

  lemma CcwFits(n: nat)
    requires 9 <= n
    ensures CCW_ETM < Pow2(n) && CCW_FLUSH < Pow2(n)
  {
    assert Pow2(n) == 2 * Pow2(n - 1);
  }

  /** The pieces of a mode change. */
  lemma SwitchParts(e: Enc)
    requires EncInv(e)
    ensures EncInv(SendPending(e).0) && EncInv(Switch(e).0)
    ensures var (e1, out) := SendPending(e);
            e1.mode == e.mode && e1.str == [] && e1.k.lastMatched == 0 && Matched(e1.k) == [] && PackerInv(e1.p)
            && Matched(Switch(e).0.k) == []
  {}

  lemma SwitchUnfolds(e: Enc)
    requires EncInv(e) && e.mode.Compressed?
    ensures var (e1, out) := SendPending(e);
            var (p, aligned) := PutAligned(e1.p, CCW_ETM);
            Switch(e) == (e1.(mode := Transparent, p := p, k := e1.k.(lastAdded := 0)), out + aligned)
  {}

  lemma FlushParts(e: Enc)
    requires EncInv(e)
    ensures EncInv(SendPending(e).0) && EncInv(FlushEnc(e).0) && e.k.lastMatched < 32768
            && PackerInv(SendPending(e).0.p)
    ensures e.mode.Compressed? && e.k.updateAt == 0 ==> Matched(FlushEnc(e).0.k) == []
    ensures e.mode.Transparent? ==> FlushEnc(e).0.k == e.k
  {}

  lemma WordsBound(w: Words, l: Limits, n: nat)
    requires Valid(w, l) && Has(w, n)
    ensures n < l.size && n != 0 && StrOf(w, n) != []
  {}

  lemma WalkUp(d: seq<R.Entry>, w: Words, s: Str, n: nat, p: nat)
    requires n < |s| && p < |d| && Has(w, p) && s[..|s| - n] == StrOf(w, p)
    requires if d[p].parent == 0 then StrOf(w, p) == [d[p].ch]
             else d[p].parent < |d| && Has(w, d[p].parent) && StrOf(w, p) == StrOf(w, d[p].parent) + [d[p].ch]
    requires d[p].parent != 0 ==> StrOf(w, d[p].parent) != []
    ensures s[|s| - n - 1] == d[p].ch
    ensures d[p].parent == 0 ==> n + 1 == |s|
    ensures d[p].parent != 0 ==> n + 1 < |s| && s[..|s| - n - 1] == StrOf(w, d[p].parent)
  {
    var t := s[..|s| - n];
    assert t[|t| - 1] == d[p].ch;
    assert s[..|s| - n - 1] == t[..|t| - 1];
  }

  /** The pieces of a received codeword. */
  lemma ReceiveUnfolds(d: Dec, cw: nat)
    requires DecInv(d) && d.mode.Compressed? && Receive(d, cw) != Outside && cw != d.k.w.nextFree
    ensures Has(d.k.w, cw) && d.k.lastMatched == 0 && Matched(d.k) == []
    ensures var s := StrOf(d.k.w, cw);
            && 1 <= |s| <= d.k.l.maxStr && MatcherInv(d.k)
            && var k := Learn(d.k, s[0]);
               && (k.w != d.k.w <==> k.w.nextFree != d.k.w.nextFree)
               && (k.w != d.k.w && cw == k.w.nextFree ==> Receive(d, cw) == CError)
               && (!(k.w != d.k.w && cw == k.w.nextFree) ==>
                     var r := Ok(d.(k := k.(updateAt := if |s| == k.l.maxStr then 0 else cw),
                       esc := EscAfter(s, d.esc)), s);
                     Receive(d, cw) == r && DecInv(r.d) && Matched(r.d.k) == [] && r.d.k.l == d.k.l)
  {
    hide Match, EscAfter;
    StrBounds(d.k, cw);
    LearnMoves(d.k, StrOf(d.k.w, cw)[0]);
  }

  lemma LearnMoves(k: Matcher, c: byte)
    requires MatcherInv(k)
    ensures Learn(k, c).w != k.w <==> Learn(k, c).w.nextFree != k.w.nextFree
  {
    if Learn(k, c).w != k.w {
      AddSpec(k.w, k.l, k.updateAt, c);
    }
  }

  lemma DataCodeword(d: Dec, cw: nat)
    requires DecInv(d) && d.mode.Compressed? && cw > CCW_STEPUP
    ensures Codeword(d, cw) == Receive(d, cw)
  {}

  lemma CodewordParts(d: Dec, cw: nat)
    requires DecInv(d) && d.mode.Compressed? && Codeword(d, cw) != Outside
    ensures cw < CCW_STEPUP ==> AllZero(d.q)
    ensures cw == CCW_STEPUP ==> d.cwSize < 15 || d.cwSize + 1 > d.k.l.size / 8
    ensures Matched(d.k) == [] && (cw == CCW_ETM ==> Matched(Codeword(d, cw).d.k) == [])
    ensures Codeword(d, cw).Ok? ==> DecInv(Codeword(d, cw).d)
  {}

  /** A buffer of zero bits holds the value 0, so that dropping it loses nothing. */
  lemma PaddingIsZero(v: nat, n: nat)
    requires v < Pow2(n) && AllZero(BitsOf(v, n))
    ensures v == 0 && BitsOf(0, 0) == [] && 0 < Pow2(0)
  {
    assert BitsOf(v, n) == Zeros(n);
    ZeroBits(n);
    ValueBits(v, n);
    ValueBits(0, n);
  }

  lemma TakeLow(v: nat, low: nat, high: nat, m: nat, n: nat)
    requires m <= n && v < Pow2(n) && low == v % Pow2(m) && high == v / Pow2(m)
    ensures low == Value(BitsOf(v, n)[..m]) && BitsOf(high, n - m) == BitsOf(v, n)[m..] && high < Pow2(n - m)
  {
    hide BitsOf, Value;
    BitsSplit(v, low, high, m, n - m);
    ShiftBound(v, m, n - m);
    DivMod(v, Pow2(m));
    ValueBits(low, m);
    assert BitsOf(v, n)[..m] == BitsOf(low, m);
    assert BitsOf(v, n)[m..] == BitsOf(high, n - m);
  }

  lemma CutDone(k: Matcher, c: byte)
    requires MatcherInv(k) && k.updateAt == 0
    ensures MatcherInv(Cut(k, c)) && Matched(Cut(k, c)) == []
  {}

  lemma PushDone(k: Matcher, c: byte)
    requires MatcherInv(k) && k.updateAt == 0 && !Ends(k, c)
    ensures MatcherInv(Push(k, c)) && (|Matched(k)| + 1 == k.l.maxStr ==> Matched(Push(k, c)) == [])
  {}

  /** Feeding a character, in terms of the turn that takes it or ends the string before it. */
  lemma FeedUnfolds(k: Matcher, c: byte)
    requires MatcherInv(k)
    ensures var k1 := Resolve(k, c);
            && MatcherInv(k1) && k1.updateAt == 0 && k1.lastMatched == k.lastMatched
            && (!Ends(k1, c) ==> Feed(k, c) == Push(k1, c))
            && (Ends(k1, c) ==> k.lastMatched != 0 && Feed(k, c) == Feed(Cut(k1, c), c))
  {
    var k1 := Resolve(k, c);
    if Ends(k1, c) {
      var k2 := Resolve(Cut(k1, c), c);
      RootGoesOn(k2, c);
    }
  }

  lemma JoinNothing(r: DecResult)
    ensures Join([], r) == r
  {
    if r.Ok? {
      assert [] + r.x == r.x;
    }
  }

  /** Decoding goes octet by octet. */
  lemma DecodeFirst(d: Dec, s: Str, j: nat)
    requires DecInv(d) && j < |s|
    ensures var r := DecByte(d, s[j]);
            Codec.Decode(d, s[j..]) == if r.Ok? then Join(r.x, Codec.Decode(r.d, s[j + 1..])) else r
  {
    hide DecByte;
    assert s[j..][1..] == s[j + 1..];
  }

  /** An octet that leaves the codeword incomplete. */
  lemma ReadOctet(d: Dec, s: Str, j: nat)
    requires DecInv(d) && d.mode.Compressed? && j < |s|
    ensures |d.q| + 8 < d.cwSize ==>
              var d1 := d.(q := d.q + BitsOf(s[j], 8));
              DecInv(d1) && Codec.Decode(d, s[j..]) == Codec.Decode(d1, s[j + 1..])
  {
    hide Codeword, BitsOf, Codec.Decode, Value;
    DecodeFirst(d, s, j);
    JoinNothing(Codec.Decode(d, s[j + 1..]));
    if |d.q| + 8 < d.cwSize {
      JoinNothing(Codec.Decode(d.(q := d.q + BitsOf(s[j], 8)), s[j + 1..]));
    }
  }

  /** An octet that completes it. */
  lemma CompleteCodeword(d: Dec, s: Str, j: nat)
    requires DecInv(d) && d.mode.Compressed? && j < |s| && |d.q| + 8 >= d.cwSize
    ensures var q := d.q + BitsOf(s[j], 8);
            var d1 := d.(q := q[d.cwSize..]);
            var r := Codeword(d1, Value(q[..d.cwSize]));
            && DecInv(d1)
            && Codec.Decode(d, s[j..]) == if r.Ok? then Join(r.x, Codec.Decode(r.d, s[j + 1..])) else r
  {
    hide Codeword, BitsOf, Codec.Decode, Value;
    DecodeFirst(d, s, j);
  }

  lemma DictLimits(w: Words, l: Limits)
    requires Valid(w, l)
    ensures l.Valid()
  {}

  lemma FreshEncoder(l: Limits)
    requires l.Valid()
    ensures EncInv(EncInit(l)) && Matched(EncInit(l).k) == [] && BitsOf(0, 0) == [] && 0 < Pow2(0)
    ensures EncInit(l) == Enc(Matcher(l, EMPTY, 0, 0, 0), Transparent, 0, [], Packer(9, 512, []))
  {}

  lemma FreshDecoder(l: Limits)
    requires l.Valid()
    ensures DecInv(DecInit(l)) && Matched(DecInit(l).k) == [] && BitsOf(0, 0) == [] && 0 < Pow2(0)
    ensures DecInit(l) == Dec(Matcher(l, EMPTY, 0, 0, 0), Transparent, 0, false, 9, 512, [])
  {}

  lemma EnterParts(d: Dec)
    requires DecInv(d) && d.mode.Transparent?
    ensures var k := d.k.(updateAt := d.k.lastMatched, lastMatched := 0);
            MatcherInv(k) && Matched(k) == []
  {}

  lemma LiteralDecodes(d: Dec, s: Str, i: nat)
    requires DecInv(d) && d.mode.Transparent? && !d.escaped && i < |s| && s[i] != d.esc
    ensures Codec.Decode(d, s[i..]) == Join([s[i]], Codec.Decode(d.(k := Feed(d.k, s[i])), s[i + 1..]))
  {
    hide Codec.Decode, Feed;
    DecodeFirst(d, s, i);
  }

  lemma EscapeDecodes(d: Dec, s: Str, i: nat)
    requires DecInv(d) && d.mode.Transparent? && !d.escaped && i < |s| && s[i] == d.esc
    ensures Codec.Decode(d, s[i..]) == Join([], Codec.Decode(d.(escaped := true), s[i + 1..]))
  {
    hide Codec.Decode, Feed;
    DecodeFirst(d, s, i);
  }

  lemma CommandDecodes(d: Dec, s: Str, i: nat)
    requires DecInv(d) && d.mode.Transparent? && d.escaped && i < |s|
    ensures var d1 := d.(escaped := false);
            && (s[i] == CC_ECM ==>
                  var d2 := d1.(mode := Compressed, k := d.k.(updateAt := d.k.lastMatched, lastMatched := 0));
                  DecInv(d2) && Codec.Decode(d, s[i..]) == Join([], Codec.Decode(d2, s[i + 1..])))
            && (s[i] == CC_EID ==>
                  var d2 := d1.(esc := Bump(d.esc));
                  DecInv(d2) && Codec.Decode(d, s[i..]) == Codec.Decode(d2, s[i := d.esc][i..]))
            && (s[i] == CC_RESET ==> Codec.Decode(d, s[i..]) == Join([], Codec.Decode(DecInit(d.k.l), s[i + 1..])))
            && (s[i] != CC_ECM && s[i] != CC_EID && s[i] != CC_RESET ==> Codec.Decode(d, s[i..]) == CError)
  {
    hide Codec.Decode, Feed, DecInit;
    DecodeFirst(d, s, i);
    if s[i] == CC_EID {
      var d2 := d.(escaped := false, esc := Bump(d.esc));
      var t := s[i := d.esc];
      LiteralDecodes(d2, t, i);
      assert t[i + 1..] == s[i + 1..];
    }
  }

  lemma JoinTail(a: Str, b: Str, c: Str, r: DecResult)
    requires a <= b <= c
    ensures Join(b[|a|..], Join(c[|b|..], r)) == Join(c[|a|..], r)
  {
    assert b[|a|..] + c[|b|..] == c[|a|..];
    if r.Ok? {
      assert b[|a|..] + (c[|b|..] + r.x) == (b[|a|..] + c[|b|..]) + r.x;
    }
  }

  lemma NothingLeft(d: Dec, s: Str)
    requires DecInv(d) && s == []
    ensures Codec.Decode(d, s) == Ok(d, [])
  {}
}
