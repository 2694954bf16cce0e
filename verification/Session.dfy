/** Two compressor objects joined by a line: what one is given comes out of the other. */
module Session {
  import opened Words
  import opened Codec
  import opened Transport
  import opened Lockstep
  import opened Lossless
  import C = Compressor

  /** A buffer to send, and whether encoder and decoder are flushed after it. */
  datatype Write = Write(s: Str, flushEnc: bool, flushDec: bool)

  function Sent(ws: seq<Write>): Str
  {
    if ws == [] then [] else Sent(ws[..|ws| - 1]) + ws[|ws| - 1].s
  }

  /** Encoder and decoder agree, and `sent` is what the decoder has, followed by what is in flight. */
  ghost predicate Linked(e: Enc, d: Dec, decoded: Str, sent: Str)
  {
    EncInv(e) && DecInv(d) && Agree(e, d) && decoded + InFlight(e, d) == sent
  }

  /** Objects that share nothing. */
  ghost predicate Apart(enc: C.Compressor, dec: C.Compressor)
    reads enc, dec
  {
    enc != dec && enc.dict != dec.dict && enc.dict.dict != dec.dict.dict && enc.strData != dec.strData
  }

  lemma EncodeLinked(e: Enc, d: Dec, decoded: Str, sent: Str, s: Str, choices: seq<bool>)
    requires Linked(e, d, decoded, sent)
    ensures var (e1, out) := Encode(e, s, choices); var r := Decode(d, out);
            r.Ok? && Linked(e1, r.d, decoded + r.x, sent + s)
  {
    hide Encode, Decode, InFlight, EncInv, DecInv, Agree;
    CallAgrees(e, d, Data(s, choices));
    Regroup(e, d, decoded, sent, s, Encode(e, s, choices).0, Encode(e, s, choices).1);
  }

  lemma FlushLinked(e: Enc, d: Dec, decoded: Str, sent: Str)
    requires Linked(e, d, decoded, sent)
    ensures var (e1, out) := FlushEnc(e); var r := Decode(d, out);
            r.Ok? && Linked(e1, r.d, decoded + r.x, sent) && decoded + r.x == sent
  {
    hide FlushEnc, Decode, InFlight, EncInv, DecInv, Agree;
    CallAgrees(e, d, Flush);
    Regroup(e, d, decoded, sent, [], FlushEnc(e).0, FlushEnc(e).1);
    assert sent + [] == sent;
    var r := Decode(d, FlushEnc(e).1);
    assert (decoded + r.x) + [] == decoded + r.x;
  }

  lemma Regroup(e: Enc, d: Dec, decoded: Str, sent: Str, s: Str, e1: Enc, out: Str)
    requires Linked(e, d, decoded, sent) && EncInv(e1) && Decode(d, out).Ok? && Agree(e1, Decode(d, out).d)
    requires Decode(d, out).x + InFlight(e1, Decode(d, out).d) == InFlight(e, d) + s
    ensures Linked(e1, Decode(d, out).d, decoded + Decode(d, out).x, sent + s)
  {
    hide Decode, InFlight, EncInv, Agree;
    var r := Decode(d, out);
    assert (decoded + r.x) + InFlight(e1, r.d) == decoded + (r.x + InFlight(e1, r.d));
    assert decoded + (InFlight(e, d) + s) == (decoded + InFlight(e, d)) + s;
  }

  /** Hand what the encoder has emitted to the decoder. */
  method Forward(enc: C.Compressor, dec: C.Compressor, ghost d: Dec, ghost r: DecResult)
    requires Apart(enc, dec) && enc.EncOk() && dec.DecOk() && dec.DV() == d && r == Decode(d, enc.obuf) && r.Ok?
    modifies enc`obuf, dec, dec.strData, dec.dict, dec.dict.dict
    ensures enc.EncOk() && enc.E() == old(enc.E()) && enc.obuf == []
    ensures dec.DecOk() && dec.DV() == r.d && dec.Decoded() == old(dec.Decoded()) + r.x
  {
    hide Decode, EncInv, DecInv, C.R.Rep, Valid, Matched;
    var bytes := enc.obuf;
    enc.obuf := [];
    var ok := dec.Decode(bytes);
  }

  /** One write: encode it, forward it, and flush where asked to. */
  method Exchange(enc: C.Compressor, dec: C.Compressor, s: Str, ghost sent: Str)
    requires Apart(enc, dec) && enc.EncOk() && dec.DecOk() && enc.obuf == []
             && Linked(enc.E(), dec.DV(), dec.Decoded(), sent)
    modifies enc, enc.strData, enc.dict, enc.dict.dict, dec, dec.strData, dec.dict, dec.dict.dict
    ensures enc.EncOk() && dec.DecOk() && enc.obuf == [] && Linked(enc.E(), dec.DV(), dec.Decoded(), sent + s)
  {
    hide Encode, Decode, EncInv, DecInv, C.R.Rep, Valid, Matched, Linked;
    ghost var e, d, had := enc.E(), dec.DV(), dec.Decoded();
    ghost var choices := enc.Encode(s);
    assert enc.obuf[0..] == enc.obuf;
    LinkedParts(e, d, had, sent);
    EncodeLinked(e, d, had, sent, s, choices);
    Forward(enc, dec, d, Decode(d, enc.obuf));
  }

  lemma LinkedParts(e: Enc, d: Dec, decoded: Str, sent: Str)
    requires Linked(e, d, decoded, sent)
    ensures EncInv(e) && DecInv(d)
  {}

  /** A flush of the encoder brings everything sent to the decoder. */
  method FlushBoth(enc: C.Compressor, dec: C.Compressor, ghost sent: Str)
    requires Apart(enc, dec) && enc.EncOk() && dec.DecOk() && enc.obuf == []
             && Linked(enc.E(), dec.DV(), dec.Decoded(), sent)
    modifies enc, enc.strData, dec, dec.strData, dec.dict, dec.dict.dict
    ensures enc.EncOk() && dec.DecOk() && enc.obuf == [] && Linked(enc.E(), dec.DV(), dec.Decoded(), sent)
    ensures dec.Decoded() == sent
  {
    hide FlushEnc, Decode, EncInv, DecInv, C.R.Rep, Valid, Matched, Linked;
    ghost var e, d, had := enc.E(), dec.DV(), dec.Decoded();
    enc.FlushEncoder();
    assert enc.obuf[0..] == enc.obuf;
    LinkedParts(e, d, had, sent);
    FlushLinked(e, d, had, sent);
    Forward(enc, dec, d, Decode(d, enc.obuf));
  }

  lemma SentSnoc(ws: seq<Write>, i: nat)
    requires i < |ws|
    ensures Sent(ws[..i + 1]) == Sent(ws[..i]) + ws[i].s
  {
    assert ws[..i + 1][..i] == ws[..i];
  }

  lemma FreshLinked(l: Limits)
    requires l.Valid()
    ensures Linked(EncInit(l), DecInit(l), [], []) && DecInv(DecInit(l)) && Matched(DecInit(l).k) == []
    ensures DecInit(l) == var e := EncInit(l); Dec(e.k, e.mode, e.esc, false, e.p.cwSize, e.p.threshold, e.p.bits)
  {
    InitAgrees(l);
  }

  /** A fresh encoder and a fresh decoder. */
  method Open(l: Limits) returns (enc: C.Compressor, dec: C.Compressor)
    requires l.Valid() && l.maxStr <= C.MAX_STRING
    ensures fresh(enc) && fresh(enc.strData) && fresh(enc.dict) && fresh(enc.dict.dict)
    ensures fresh(dec) && fresh(dec.strData) && fresh(dec.dict) && fresh(dec.dict.dict)
    ensures Apart(enc, dec) && enc.EncOk() && dec.DecOk() && enc.obuf == []
            && Linked(enc.E(), dec.DV(), dec.Decoded(), [])
  {
    hide EncInv, DecInv, C.R.Rep, Valid, Matched, Linked, EncInit, DecInit;
    enc := new C.Compressor(l);
    dec := new C.Compressor(l);
    FreshLinked(l);
    ghost var e := EncInit(l);
    assert dec.DV() == Dec(e.k, e.mode, e.esc, false, e.p.cwSize, e.p.threshold, e.p.bits) && dec.Str() == e.str;
    EmptyStart(l);
  }

  lemma EmptyStart(l: Limits)
    requires l.Valid()
    ensures EncInit(l).str == []
  {}

  /**
   Losslessness of the objects: any writes, with encoder flushes and decoder flushes between
   them wherever they may be asked for, come out of the decoder exactly as they went into the
   encoder once both have been flushed; the decoder never reports an error.
   */
  method Transfer(l: Limits, ws: seq<Write>) returns (out: Str)
    requires l.Valid() && l.maxStr <= C.MAX_STRING
    ensures out == Sent(ws)
  {
    hide EncInv, DecInv, C.R.Rep, Valid, Matched, Linked;
    var enc, dec := Open(l);
    var i := 0;
    assert ws[..0] == [];
    while i < |ws|
      invariant i <= |ws| && Apart(enc, dec) && enc.EncOk() && dec.DecOk() && enc.obuf == []
      invariant Linked(enc.E(), dec.DV(), dec.Decoded(), Sent(ws[..i]))
    {
      Exchange(enc, dec, ws[i].s, Sent(ws[..i]));
      SentSnoc(ws, i);
      if ws[i].flushEnc {
        FlushBoth(enc, dec, Sent(ws[..i + 1]));
      }
      if ws[i].flushDec {
        dec.FlushDecoder();
        assert dec.Decoded() == dec.obuf;
      }
      i := i + 1;
    }
    assert ws[..i] == ws;
    FlushBoth(enc, dec, Sent(ws));
    dec.FlushDecoder();
    out := dec.obuf;
  }
}
